/** Capture time stamps and the three comparisons the flow modules make of them. */
module Timestamps {
  import opened Machine

  const MICROS_PER_SECOND := 1_000_000

  datatype Timestamp = Timestamp(seconds: I64, microseconds: I32)

  predicate ValidTime(t: Timestamp) {
    0 <= t.microseconds <= 999_999
  }

  /** A time stamp that passed the 0..999999 check of `packet_info_init`. */
  type Time = t: Timestamp | ValidTime(t) witness Timestamp(0, 0)

  /** The time stamp as one unbounded integer; the C code never computes it. */
  function Micros(t: Timestamp): int {
    t.seconds * MICROS_PER_SECOND + t.microseconds
  }

  /** It numbers the valid time stamps in order, without a gap. */
  lemma MicrosCounts(t: Time)
    ensures Micros(Timestamp(0, 0)) == 0
    ensures t.microseconds < 999_999 ==> Micros(Timestamp(t.seconds, t.microseconds + 1)) == Micros(t) + 1
    ensures t.microseconds == 999_999 && t.seconds < I64_MAX ==> Micros(Timestamp(t.seconds + 1, 0)) == Micros(t) + 1
  {
  }

  function Compare(left: Timestamp, right: Timestamp): (r: int)
    requires ValidTime(left) && ValidTime(right)
    ensures r < 0 <==> Micros(left) < Micros(right)
    ensures r == 0 <==> left == right
    ensures r > 0 <==> Micros(left) > Micros(right)
  {
    if left.seconds < right.seconds then -1
    else if left.seconds > right.seconds then 1
    else if left.microseconds < right.microseconds then -1
    else if left.microseconds > right.microseconds then 1
    else 0
  }

  predicate AtOrBefore(t: Timestamp, cutoff: Timestamp)
    requires ValidTime(t) && ValidTime(cutoff)
    ensures AtOrBefore(t, cutoff) <==> Micros(t) <= Micros(cutoff)
  {
    if t.seconds < cutoff.seconds then true
    else if t.seconds > cutoff.seconds then false
    else t.microseconds <= cutoff.microseconds
  }

  predicate Before(left: Timestamp, right: Timestamp)
    requires ValidTime(left) && ValidTime(right)
    ensures Before(left, right) <==> Micros(left) < Micros(right)
  {
    if left.seconds < right.seconds then true
    else if left.seconds > right.seconds then false
    else left.microseconds < right.microseconds
  }

  // ----- extremes of a list of times ---------------------------------------------------

  ghost function Earliest(ts: seq<Time>): (t: Time)
    requires ts != []
    ensures t in ts && forall u :: u in ts ==> Micros(t) <= Micros(u)
  {
    var n := |ts| - 1;
    assert ts == ts[..n] + [ts[n]];
    if n == 0 then ts[0]
    else
      var t := Earliest(ts[..n]);
      if Before(ts[n], t) then ts[n] else t
  }

  ghost function Latest(ts: seq<Time>): (t: Time)
    requires ts != []
    ensures t in ts && forall u :: u in ts ==> Micros(u) <= Micros(t)
  {
    var n := |ts| - 1;
    assert ts == ts[..n] + [ts[n]];
    if n == 0 then ts[0]
    else
      var t := Latest(ts[..n]);
      if Before(t, ts[n]) then ts[n] else t
  }

  lemma MicrosInjective(t: Time, u: Time)
    requires Micros(t) == Micros(u)
    ensures t == u
  {
    assert Compare(t, u) == 0;
  }

  /** The extremes depend only on which times occur. */
  lemma ExtremesOfSameTimes(ts: seq<Time>, us: seq<Time>)
    requires ts != [] && us != []
    requires forall t :: t in ts <==> t in us
    ensures Earliest(ts) == Earliest(us) && Latest(ts) == Latest(us)
  {
    MicrosInjective(Earliest(ts), Earliest(us));
    MicrosInjective(Latest(ts), Latest(us));
  }

  lemma ExtremesExtend(ts: seq<Time>, t: Time)
    requires ts != []
    ensures Earliest(ts + [t]) == (if Micros(t) < Micros(Earliest(ts)) then t else Earliest(ts))
    ensures Latest(ts + [t]) == (if Micros(Latest(ts)) < Micros(t) then t else Latest(ts))
  {
    assert (ts + [t])[..|ts|] == ts;
  }
}
