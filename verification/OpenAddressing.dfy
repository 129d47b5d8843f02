/** Linear probing over a slot array, independent of the hash function: which
    arrays represent a map, and which single-slot writes keep that so. */
module OpenAddressing {
  import opened Machine
  import opened Timestamps
  import opened FlowKey
  import opened FlowRecord

  datatype SlotState = EMPTY | OCCUPIED | DELETED

  datatype Slot = Slot(state: SlotState, record: FlowRecord)

  const CLEARED := Slot(EMPTY, NO_RECORD)
  const TOMBSTONE := Slot(DELETED, NO_RECORD)

  /** Any function at all: nothing below depends on FNV-1a. */
  type Hash = FlowKey -> U64

  /** `h` modulo `n`, by repeated subtraction: the proofs below need only that it
      is a function into the slots, so they stay free of division. */
  function Reduced(h: nat, n: nat): (r: nat)
    requires n > 0
    ensures r < n
  {
    if h < n then h else Reduced(h - n, n)
  }

  lemma {:induction false} ReducedIsModulo(h: nat, n: nat)
    requires n > 0
    ensures Reduced(h, n) == h % n
  {
    if h >= n {
      ReducedIsModulo(h - n, n);
      var q, q' := h / n, (h - n) / n;
      SmallMultiple(q - q' - 1, n, (h - n) % n - h % n);
    }
  }

  /** A multiple of `n` that is smaller than `n` in magnitude is zero. */
  lemma SmallMultiple(d: int, n: int, r: int)
    requires n > 0 && d * n == r && -n < r < n
    ensures r == 0
  {
    MultipleGrows(d, n);
  }

  lemma MultipleGrows(d: int, n: int)
    requires n > 0
    ensures d >= 1 ==> d * n >= n
    ensures d <= -1 ==> d * n <= -n
  {
  }

  /** The slot where a probe for `key` starts. */
  function Home(hash: Hash, key: FlowKey, n: nat): (h: nat)
    requires n > 0
    ensures h < n
  {
    Reduced(hash(key), n)
  }

  /** How many steps a probe that starts at `home` needs to reach slot `i`. */
  function Distance(home: nat, i: nat, n: nat): (d: nat)
    requires home < n && i < n
    ensures d < n
  {
    if i >= home then i - home else i - home + n
  }

  ghost predicate Holds(s: seq<Slot>, i: int, key: FlowKey) {
    0 <= i < |s| && s[i].state == OCCUPIED && s[i].record.key == key
  }

  ghost predicate DistinctKeys(s: seq<Slot>) {
    forall i, j | 0 <= i < |s| && 0 <= j < |s| && s[i].state == OCCUPIED && s[j].state == OCCUPIED ::
      s[i].record.key == s[j].record.key ==> i == j
  }

  /** Every slot a probe that starts at `home` passes before slot `t` is non-EMPTY. */
  ghost predicate PathTo(s: seq<Slot>, home: nat, t: nat)
    requires home < |s| && t < |s|
  {
    forall j :: 0 <= j < |s| && Distance(home, j, |s|) < Distance(home, t, |s|) ==> s[j].state != EMPTY
  }

  /** A slot array that represents a map: keys are distinct, and each is reachable
      from its home slot. */
  ghost predicate Indexed(s: seq<Slot>, hash: Hash) {
    && s != []
    && DistinctKeys(s)
    && forall i :: 0 <= i < |s| && s[i].state == OCCUPIED ==> PathTo(s, Home(hash, s[i].record.key, |s|), i)
  }

  /** `m` has exactly the stored records as entries. */
  ghost predicate Represents(s: seq<Slot>, m: map<FlowKey, FlowRecord>) {
    && (forall i :: 0 <= i < |s| && s[i].state == OCCUPIED ==>
          s[i].record.key in m && m[s[i].record.key] == s[i].record)
    && (forall k :: k in m ==> exists i :: Holds(s, i, k))
  }

  /** The map a slot array stands for. */
  ghost function Contents(s: seq<Slot>): (m: map<FlowKey, FlowRecord>) {
    if s == [] then map[]
    else
      var n := |s| - 1;
      if s[n].state == OCCUPIED then Contents(s[..n])[s[n].record.key := s[n].record]
      else Contents(s[..n])
  }

  lemma {:induction false} ContentsRepresent(s: seq<Slot>)
    requires DistinctKeys(s)
    ensures Represents(s, Contents(s))
  {
    if s != [] {
      var n := |s| - 1;
      ContentsRepresent(s[..n]);
      if s[n].state == OCCUPIED {
        assert Holds(s, n, s[n].record.key);
      }
      assert forall i, k :: Holds(s[..n], i, k) ==> Holds(s, i, k);
    }
  }

  lemma RepresentsOnlyContents(s: seq<Slot>, m: map<FlowKey, FlowRecord>)
    requires DistinctKeys(s) && Represents(s, m)
    ensures m == Contents(s)
  {
    ContentsRepresent(s);
    var c := Contents(s);
    forall k | k in m
      ensures k in c && m[k] == c[k]
    {
      var i :| Holds(s, i, k);
    }
    forall k | k in c
      ensures k in m
    {
      var i :| Holds(s, i, k);
    }
  }

  function Listed(x: Slot): seq<FlowRecord> {
    if x.state == OCCUPIED then [x.record] else []
  }

  /** The records in physical slot order: what `flow_table_get` enumerates. */
  function Residents(s: seq<Slot>): (rs: seq<FlowRecord>)
    ensures |rs| <= |s|
  {
    if s == [] then [] else Residents(s[..|s| - 1]) + Listed(s[|s| - 1])
  }

  // ----- what a probe can conclude ---------------------------------------------------------

  /** Meeting an EMPTY slot before the key proves the key is nowhere. */
  lemma EmptyEndsSearch(s: seq<Slot>, hash: Hash, key: FlowKey, e: nat)
    requires Indexed(s, hash) && e < |s| && s[e].state == EMPTY
    requires var home := Home(hash, key, |s|);
             forall j :: 0 <= j < |s| && Distance(home, j, |s|) < Distance(home, e, |s|) ==> !Holds(s, j, key)
    ensures key !in Contents(s)
  {
    ContentsRepresent(s);
  }

  // ----- single-slot writes ----------------------------------------------------------------

  /** The map without the entry stored in slot `t`, if there is one. */
  ghost function Without(s: seq<Slot>, t: nat): map<FlowKey, FlowRecord>
    requires t < |s|
  {
    if s[t].state == OCCUPIED then Contents(s) - {s[t].record.key} else Contents(s)
  }

  lemma WriteKeepsIndex(s: seq<Slot>, hash: Hash, t: nat, r: FlowRecord)
    requires Indexed(s, hash) && t < |s|
    requires forall i :: Holds(s, i, r.key) ==> i == t
    requires PathTo(s, Home(hash, r.key, |s|), t)
    ensures Indexed(s[t := Slot(OCCUPIED, r)], hash)
  {
    var s' := s[t := Slot(OCCUPIED, r)];
    forall i, j | 0 <= i < |s| && 0 <= j < |s| && s'[i].state == OCCUPIED && s'[j].state == OCCUPIED
                  && s'[i].record.key == s'[j].record.key
      ensures i == j
    {
      assert i != t ==> Holds(s, i, s'[i].record.key);
      assert j != t ==> Holds(s, j, s'[j].record.key);
    }
    forall i | 0 <= i < |s| && s'[i].state == OCCUPIED
      ensures PathTo(s', Home(hash, s'[i].record.key, |s|), i)
    {
      assert PathTo(s, Home(hash, s'[i].record.key, |s|), i);
    }
  }

  /** Writing a record into a slot on its key's own probe path: creation in a
      free slot, update of the same key, and replacement of another key are all
      "remove what was there, then insert". */
  lemma Write(s: seq<Slot>, hash: Hash, t: nat, r: FlowRecord)
    requires Indexed(s, hash) && t < |s|
    requires forall i :: Holds(s, i, r.key) ==> i == t
    requires PathTo(s, Home(hash, r.key, |s|), t)
    ensures var s' := s[t := Slot(OCCUPIED, r)];
            Indexed(s', hash) && Contents(s') == Without(s, t)[r.key := r]
  {
    WriteKeepsIndex(s, hash, t, r);
    ContentsRepresent(s);
    var s' := s[t := Slot(OCCUPIED, r)];
    var m := Without(s, t)[r.key := r];
    forall i | 0 <= i < |s| && s'[i].state == OCCUPIED
      ensures s'[i].record.key in m && m[s'[i].record.key] == s'[i].record
    {
      if i != t {
        assert Holds(s, i, s[i].record.key);
        assert s[i].record.key != r.key;
      }
    }
    forall k | k in m
      ensures exists i :: Holds(s', i, k)
    {
      if k == r.key {
        assert Holds(s', t, k);
      } else {
        var i :| Holds(s, i, k);
        assert Holds(s', i, k);
      }
    }
    RepresentsOnlyContents(s', m);
  }

  /** Leaving a tombstone removes one entry and breaks no probe path. */
  lemma Bury(s: seq<Slot>, hash: Hash, t: nat)
    requires Indexed(s, hash) && t < |s| && s[t].state == OCCUPIED
    ensures var s' := s[t := TOMBSTONE];
            Indexed(s', hash) && Contents(s') == Without(s, t)
  {
    ContentsRepresent(s);
    var s' := s[t := TOMBSTONE];
    forall i | 0 <= i < |s| && s'[i].state == OCCUPIED
      ensures PathTo(s', Home(hash, s'[i].record.key, |s|), i)
    {
      assert PathTo(s, Home(hash, s'[i].record.key, |s|), i);
    }
    var m := Without(s, t);
    forall k | k in m
      ensures exists i :: Holds(s', i, k)
    {
      var i :| Holds(s, i, k);
      assert Holds(s', i, k);
    }
    RepresentsOnlyContents(s', m);
  }

  /** An array without occupied slots is the empty map, whatever tombstones it has. */
  lemma Vacant(s: seq<Slot>, hash: Hash)
    requires s != [] && forall i :: 0 <= i < |s| ==> s[i].state != OCCUPIED
    ensures Indexed(s, hash) && Contents(s) == map[] && Residents(s) == []
  {
    RepresentsOnlyContents(s, map[]);
    ResidentsOfVacant(s);
  }

  lemma {:induction false} ResidentsOfVacant(s: seq<Slot>)
    requires forall i :: 0 <= i < |s| ==> s[i].state != OCCUPIED
    ensures Residents(s) == []
  {
    if s != [] {
      ResidentsOfVacant(s[..|s| - 1]);
    }
  }

  // ----- counting ------------------------------------------------------------------------------

  ghost function OccupiedSlots(s: seq<Slot>): set<nat> {
    set i: nat | i < |s| && s[i].state == OCCUPIED
  }

  lemma {:induction false} CountSlots(s: seq<Slot>)
    ensures |OccupiedSlots(s)| == |Residents(s)|
  {
    if s == [] {
      assert OccupiedSlots(s) == {};
    } else {
      var n := |s| - 1;
      CountSlots(s[..n]);
      if s[n].state == OCCUPIED {
        assert OccupiedSlots(s) == OccupiedSlots(s[..n]) + {n};
      } else {
        assert OccupiedSlots(s) == OccupiedSlots(s[..n]);
      }
    }
  }

  lemma LastKeyIsNew(s: seq<Slot>)
    requires DistinctKeys(s) && s != [] && s[|s| - 1].state == OCCUPIED
    ensures s[|s| - 1].record.key !in Contents(s[..|s| - 1])
  {
    var n := |s| - 1;
    var before, k := s[..n], s[n].record.key;
    ContentsRepresent(before);
  }

  lemma {:induction false} CountEntries(s: seq<Slot>)
    requires DistinctKeys(s)
    ensures |Contents(s)| == |Residents(s)|
  {
    if s != [] {
      var n := |s| - 1;
      CountEntries(s[..n]);
      if s[n].state == OCCUPIED {
        LastKeyIsNew(s);
      }
    }
  }

  lemma WriteAndLast(s: seq<Slot>, t: nat, x: Slot)
    requires t < |s|
    ensures var n, s' := |s| - 1, s[t := x];
            if t == n then s'[..n] == s[..n] && s'[n] == x else s'[..n] == s[..n][t := x] && s'[n] == s[n]
  {
  }

  lemma {:induction false} CountAfterWrite(s: seq<Slot>, t: nat, x: Slot)
    requires t < |s|
    ensures |Residents(s[t := x])| + |Listed(s[t])| == |Residents(s)| + |Listed(x)|
  {
    WriteAndLast(s, t, x);
    if t < |s| - 1 {
      CountAfterWrite(s[..|s| - 1], t, x);
    }
  }

  /** `Residents` of a prefix is a prefix, so the i-th occupied slot is entry i. */
  lemma {:induction false} ResidentsPrefix(s: seq<Slot>, m: nat)
    requires m <= |s|
    ensures Residents(s[..m]) <= Residents(s)
  {
    if m < |s| {
      var n := |s| - 1;
      assert s[..n][..m] == s[..m];
      ResidentsPrefix(s[..n], m);
    } else {
      assert s[..m] == s;
    }
  }

  // ----- totals over all stored records --------------------------------------------------------

  /** Packets, captured bytes and wire bytes of a record or of a list of records. */
  datatype Tally = Tally(packets: nat, captured: nat, wire: nat) {
    function Plus(other: Tally): Tally {
      Tally(packets + other.packets, captured + other.captured, wire + other.wire)
    }
  }

  const NOTHING := Tally(0, 0, 0)

  function TallyOf(r: FlowRecord): Tally {
    Tally(r.aToB.packets + r.bToA.packets, r.aToB.captured + r.bToA.captured, r.aToB.wire + r.bToA.wire)
  }

  function TallyOfAll(rs: seq<FlowRecord>): Tally {
    if rs == [] then NOTHING else TallyOfAll(rs[..|rs| - 1]).Plus(TallyOf(rs[|rs| - 1]))
  }

  lemma {:induction false} TallyOfAllAppends(rs: seq<FlowRecord>, more: seq<FlowRecord>)
    ensures TallyOfAll(rs + more) == TallyOfAll(rs).Plus(TallyOfAll(more))
  {
    if more == [] {
      assert rs + more == rs;
    } else {
      var n := |more| - 1;
      assert (rs + more)[..|rs| + n] == rs + more[..n];
      TallyOfAllAppends(rs, more[..n]);
    }
  }

  lemma TallyOfOne(r: FlowRecord)
    ensures TallyOfAll([r]) == TallyOf(r)
  {
    assert [r][..0] == [];
  }

  /** The same total, taken slot by slot. */
  function TallyOfSlots(s: seq<Slot>): Tally {
    if s == [] then NOTHING else TallyOfSlots(s[..|s| - 1]).Plus(TallyOfSlot(s[|s| - 1]))
  }

  function TallyOfSlot(x: Slot): Tally {
    if x.state == OCCUPIED then TallyOf(x.record) else NOTHING
  }

  lemma {:induction false} TalliesAgree(s: seq<Slot>)
    ensures TallyOfSlots(s) == TallyOfAll(Residents(s))
  {
    if s != [] {
      var n := |s| - 1;
      TalliesAgree(s[..n]);
      TallyOfAllAppends(Residents(s[..n]), Listed(s[n]));
      if s[n].state == OCCUPIED {
        TallyOfOne(s[n].record);
      }
    }
  }

  lemma TallyOfLast(s: seq<Slot>, before: seq<Slot>, last: Slot)
    requires |s| > 0 && before == s[..|s| - 1] && last == s[|s| - 1]
    ensures TallyOfSlots(s) == TallyOfSlots(before).Plus(TallyOfSlot(last))
  {
  }

  lemma {:induction false} TallyAfterWrite(s: seq<Slot>, t: nat, x: Slot)
    requires t < |s|
    ensures TallyOfSlots(s[t := x]).Plus(TallyOfSlot(s[t])) == TallyOfSlots(s).Plus(TallyOfSlot(x))
  {
    var n := |s| - 1;
    var before := s[..n];
    WriteAndLast(s, t, x);
    TallyOfLast(s, before, s[n]);
    if t < n {
      TallyOfLast(s[t := x], before[t := x], s[n]);
      TallyAfterWrite(before, t, x);
      TallyCarries(TallyOfSlots(before[t := x]), TallyOfSlots(before), TallyOfSlot(s[t]), TallyOfSlot(x),
                   TallyOfSlot(s[n]));
    } else {
      TallyOfLast(s[t := x], before, x);
      TallySwaps(TallyOfSlots(before), TallyOfSlot(s[n]), TallyOfSlot(x));
    }
  }

  lemma TallyCarries(after: Tally, before: Tally, x: Tally, y: Tally, last: Tally)
    requires after.Plus(x) == before.Plus(y)
    ensures after.Plus(last).Plus(x) == before.Plus(last).Plus(y)
  {
  }

  lemma TallySwaps(rest: Tally, x: Tally, y: Tally)
    ensures rest.Plus(y).Plus(x) == rest.Plus(x).Plus(y)
  {
  }

  // ----- sweeping out old records --------------------------------------------------------------

  ghost predicate Due(x: Slot, cutoff: Timestamp) {
    x.state == OCCUPIED && Micros(x.record.lastSeen) <= Micros(cutoff)
  }

  /** The entries that outlive a sweep. */
  ghost function Survivors(m: map<FlowKey, FlowRecord>, cutoff: Timestamp): map<FlowKey, FlowRecord> {
    map k | k in m && Micros(m[k].lastSeen) > Micros(cutoff) :: m[k]
  }

  ghost predicate KeysDiffer(rs: seq<FlowRecord>) {
    forall x, y | 0 <= x < y < |rs| :: rs[x].key != rs[y].key
  }
}
