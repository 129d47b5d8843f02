/** What a run reports in terms of its arguments: a table of 256 flows, a scan every
    five seconds, and the idle timeout in seconds. */
module Reports {
  import opened Machine
  import opened FlowRecord
  import opened OpenAddressing
  import opened FlowTable
  import opened Expiration
  import opened Engine
  import opened Segmentation
  import opened RuntimeMetrics
  import opened CaptureLedger
  import opened CaptureRun
  import opened Counters
  import opened GroupBy
  import opened App

  /** Packet `i` is counted in some record. */
  ghost predicate Counted(lifetimes: seq<Lifetime>, i: nat) {
    exists x :: 0 <= x < |lifetimes| && i in lifetimes[x]
  }

  /** Packets `i` and `j` are counted, of one flow, and no packet of it in between is counted. */
  ghost predicate Consecutive(es: seq<Event>, lifetimes: seq<Lifetime>, i: nat, j: nat) {
    && i < j && Arrives(es, i) && Arrives(es, j) && KeyAt(es, i) == KeyAt(es, j)
    && Counted(lifetimes, i) && Counted(lifetimes, j)
    && forall m: nat | i < m < j && ArrivesFor(es, m, KeyAt(es, i)) :: !Counted(lifetimes, m)
  }

  lemma CountedIsAccepted(cfg: Config, es: seq<Event>, s: State, n: nat, lifetimes: seq<Lifetime>, i: nat)
    requires Sound(cfg, es, s, n) && i < n && Arrives(es, i) && forall l :: l in s.lifetimes <==> l in lifetimes
    ensures Counted(lifetimes, i) <==> i !in s.rejected
  {
    if Counted(lifetimes, i) {
      var x :| 0 <= x < |lifetimes| && i in lifetimes[x];
      assert lifetimes[x] in s.lifetimes;
    }
    if i !in s.rejected {
      assert InSome(s.lifetimes, i);
      var l :| l in s.lifetimes && i in l;
      var x :| 0 <= x < |lifetimes| && lifetimes[x] == l;
    }
  }

  lemma ConsecutiveAreNeighbours(cfg: Config, es: seq<Event>, s: State, lifetimes: seq<Lifetime>, i: nat, j: nat)
    requires Sound(cfg, es, s, |es|) && forall l :: l in s.lifetimes <==> l in lifetimes
    requires Consecutive(es, lifetimes, i, j)
    ensures Neighbours(es, s, i, j)
  {
    forall m: nat | i <= m <= j && Arrives(es, m)
      ensures Counted(lifetimes, m) <==> m !in s.rejected
    {
      CountedIsAccepted(cfg, es, s, |es|, lifetimes, m);
    }
  }

  /** When the last scan before or at packet `j` took place. */
  function ScanTime(es: seq<Event>, idle: nat, j: nat): int
    requires j < |es|
  {
    var clock := ClockAfter(Times(es)[..j + 1], idle * 1_000_000, 5_000_000);
    if clock.Running? then clock.lastScan else 0
  }

  lemma ConsecutiveSegments(ps: seq<Packet>, idle: I64, log: Log, records: seq<FlowRecord>, lifetimes: seq<Lifetime>,
                            totals: Totals, i: nat, j: nat)
    requires idle > 0 && Accounted(ConfigOf(idle, false), ps, log, records, lifetimes, totals)
    requires Ordered(EventsOf(ps)) && Consecutive(EventsOf(ps), lifetimes, i, j)
    ensures var es := EventsOf(ps);
            && (InOneRecord(lifetimes, i, j) <==> ScanTime(es, idle, j) < At(es, i) + idle * 1_000_000)
            && (At(es, j) - At(es, i) < idle * 1_000_000 ==> InOneRecord(lifetimes, i, j))
            && (At(es, j) - At(es, i) >= idle * 1_000_000 + 4_999_999 ==> !InOneRecord(lifetimes, i, j))
  {
    var cfg, es := ConfigOf(idle, false), EventsOf(ps);
    RunIsSound(cfg, es, log.victims, log.states, |ps|);
    ConsecutiveAreNeighbours(cfg, es, log.states[|ps|], lifetimes, i, j);
    RecordsAreSegments(cfg, ps, log, records, lifetimes, totals, i, j);
  }

  /** With an idle timeout of `idle` seconds and the reject policy, over packet times
      that never go back: two counted packets of a flow with none in between are in one
      record exactly if the last scan up to the second one comes before the first
      one's timeout.  So they are if less than the timeout lies between them, and
      are not once it reaches timeout plus five seconds minus one microsecond. */
  method ReportSegments(ps: seq<Packet>, idle: I64, hash: Hash, withFeatures: bool)
    returns (code: Errno, exported: seq<FlowRecord>, residents: seq<FlowRecord>, totals: Totals,
             ghost lifetimes: seq<Lifetime>)
    requires idle > 0
    ensures !withFeatures ==> (code == OK <==> RunsThrough(ps, idle))
    ensures code == OK ==>
              && |lifetimes| == |exported + residents| && |residents| <= 256
              && (forall x :: 0 <= x < |lifetimes| ==>
                    (exported + residents)[x] == RecordOf(EventsOf(ps), lifetimes[x]))
    ensures code == OK && Ordered(EventsOf(ps)) ==>
              var es := EventsOf(ps);
              forall i, j | Consecutive(es, lifetimes, i, j) ::
                && (InOneRecord(lifetimes, i, j) <==> ScanTime(es, idle, j) < At(es, i) + idle * 1_000_000)
                && (At(es, j) - At(es, i) < idle * 1_000_000 ==> InOneRecord(lifetimes, i, j))
                && (At(es, j) - At(es, i) >= idle * 1_000_000 + 4_999_999 ==> !InOneRecord(lifetimes, i, j))
  {
    var features;
    ghost var log;
    code, exported, residents, features, totals, log, lifetimes :=
      RunCaptureAnalysis(ps, idle, false, hash, withFeatures);
    if code == OK && Ordered(EventsOf(ps)) {
      forall i, j | Consecutive(EventsOf(ps), lifetimes, i, j)
        ensures var es := EventsOf(ps);
                && (InOneRecord(lifetimes, i, j) <==> ScanTime(es, idle, j) < At(es, i) + idle * 1_000_000)
                && (At(es, j) - At(es, i) < idle * 1_000_000 ==> InOneRecord(lifetimes, i, j))
                && (At(es, j) - At(es, i) >= idle * 1_000_000 + 4_999_999 ==> !InOneRecord(lifetimes, i, j))
      {
        ConsecutiveSegments(ps, idle, log, exported + residents, lifetimes, totals, i, j);
      }
    }
  }

  /** Without an idle timeout and with the reject policy nothing is exported on the
      way, and there is one record for each of the first 256 flows to appear: the
      summary of all its packets. */
  method ReportGroups(ps: seq<Packet>, idle: I64, hash: Hash, withFeatures: bool)
    returns (code: Errno, exported: seq<FlowRecord>, residents: seq<FlowRecord>, totals: Totals)
    requires idle <= 0
    ensures !withFeatures ==> (code == OK <==> RunsThrough(ps, idle))
    ensures code == OK ==>
              var es, flows := EventsOf(ps), Appearances(EventsOf(ps), |ps|);
              var kept := if |flows| <= 256 then flows else flows[..256];
              && exported == [] && totals.expired == 0 && totals.evicted == 0 && |residents| == |kept|
              && KeysDiffer(residents) && (forall k :: k in KeySet(residents) <==> k in kept)
              && (forall x :: 0 <= x < |residents| ==>
                    residents[x] == RecordOf(es, PacketsOf(es, residents[x].key, |ps|)))
  {
    var features;
    ghost var log, lifetimes;
    code, exported, residents, features, totals, log, lifetimes :=
      RunCaptureAnalysis(ps, idle, false, hash, withFeatures);
    if code == OK {
      ResidentsAreGroupBy(ConfigOf(idle, false), ps, log, exported, residents, lifetimes, totals);
    }
  }
}
