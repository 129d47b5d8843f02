/** The fixed-capacity flow table: an in-place slot array under linear probing. */
module FlowTable {
  import opened Machine
  import opened Timestamps
  import opened PacketInfo
  import opened FlowKey
  import opened FlowRecord
  import opened OpenAddressing

  // ----- probe statistics -----------------------------------------------------------------

  datatype ProbeStatistics = ProbeStatistics(operations: U64, inspected: U64, maximum: nat, saturated: bool)

  function Sum(ns: seq<nat>): nat {
    if ns == [] then 0 else Sum(ns[..|ns| - 1]) + ns[|ns| - 1]
  }

  function Maximum(ns: seq<nat>): nat {
    if ns == [] then 0
    else if ns[|ns| - 1] > Maximum(ns[..|ns| - 1]) then ns[|ns| - 1] else Maximum(ns[..|ns| - 1])
  }

  function Capped(n: nat): U64 {
    if n > U64_MAX then U64_MAX else n
  }

  /** What the statistics should say after probes of these lengths: the true
      totals cut off at 2^64 - 1, and a flag for having reached that limit. */
  function TrueStatistics(probes: seq<nat>): ProbeStatistics {
    ProbeStatistics(Capped(|probes|), Capped(Sum(probes)), Maximum(probes),
                    |probes| >= U64_MAX || Sum(probes) >= U64_MAX)
  }

  lemma {:induction false} SumAppends(ns: seq<nat>, more: seq<nat>)
    ensures Sum(ns + more) == Sum(ns) + Sum(more)
  {
    if more == [] {
      assert ns + more == ns;
    } else {
      var k := |more| - 1;
      assert (ns + more)[..|ns| + k] == ns + more[..k];
      SumAppends(ns, more[..k]);
    }
  }

  lemma {:induction false} MaximumBounds(ns: seq<nat>)
    ensures forall i :: 0 <= i < |ns| ==> ns[i] <= Maximum(ns)
    ensures Maximum(ns) in ns || (Maximum(ns) == 0 && ns == [])
  {
    if ns != [] {
      MaximumBounds(ns[..|ns| - 1]);
      assert ns == ns[..|ns| - 1] + [ns[|ns| - 1]];
    }
  }

  /** The maximum is the largest probe, the two totals count the probes and the
      slots they inspected up to 2^64 - 1, and the flag says that one got there. */
  lemma StatisticsMeaning(probes: seq<nat>, n: nat)
    ensures var t, t' := TrueStatistics(probes), TrueStatistics(probes + [n]);
            && (forall i :: 0 <= i < |probes| ==> probes[i] <= t.maximum) && (t.maximum in probes || probes == [])
            && t'.operations == (if t.operations < 18_446_744_073_709_551_615 then t.operations + 1 else t.operations)
            && t'.inspected == (if t.inspected + n <= 18_446_744_073_709_551_615 then t.inspected + n
                                else 18_446_744_073_709_551_615)
            && (t.saturated <==> t.operations == 18_446_744_073_709_551_615
                                 || t.inspected == 18_446_744_073_709_551_615)
            && (probes == [] ==> t == ProbeStatistics(0, 0, 0, false))
  {
    MaximumBounds(probes);
    SumAppends(probes, [n]);
    assert [n][..0] == [];
    assert Sum([n][..0]) == 0;
  }

  /** The statistics of a table with `n` slots after these probes. */
  ghost predicate Measured(statistics: ProbeStatistics, probes: seq<nat>, n: nat) {
    statistics == TrueStatistics(probes) && forall i | 0 <= i < |probes| :: 1 <= probes[i] <= n
  }

  // ----- probing --------------------------------------------------------------------------

  datatype ProbeResult = ProbeResult(
    found: bool, slotIndex: nat, oldestFound: bool, oldestIndex: nat, inspected: nat)

  /** A probe for `key` ends at this slot. */
  ghost predicate Stops(s: seq<Slot>, i: nat, key: FlowKey)
    requires i < |s|
  {
    s[i].state == EMPTY || Holds(s, i, key)
  }

  /** The slots the first `c` steps of a probe from `home` look at. */
  ghost function Visited(home: nat, c: nat, n: nat): set<nat>
    requires home < n
  {
    set j: nat | j < n && Distance(home, j, n) < c
  }

  /** The first `c` steps of a probe from `home` meet neither the key nor an EMPTY slot. */
  ghost predicate NothingStops(s: seq<Slot>, home: nat, key: FlowKey, c: nat)
    requires home < |s|
  {
    forall j :: j in Visited(home, c, |s|) ==> !Stops(s, j, key)
  }

  /** Slot `i` is the first one on the way from `home` that is not occupied: the
      first tombstone if one comes before the EMPTY slot, else that slot. */
  ghost predicate FirstFree(s: seq<Slot>, home: nat, i: nat)
    requires home < |s|
  {
    && i < |s| && s[i].state != OCCUPIED
    && forall j :: j in Visited(home, Distance(home, i, |s|), |s|) ==> s[j].state == OCCUPIED
  }

  /** What the probe loop has seen when it returns. */
  ghost predicate ScanOutcome(s: seq<Slot>, home: nat, key: FlowKey, code: Errno, result: ProbeResult)
    requires home < |s|
  {
    match code
    case OK =>
      && 1 <= result.inspected <= |s| && NothingStops(s, home, key, result.inspected - 1)
      && result.slotIndex < |s| && Distance(home, result.slotIndex, |s|) < result.inspected
      && (if result.found then
            Holds(s, result.slotIndex, key) && Distance(home, result.slotIndex, |s|) == result.inspected - 1
          else
            && FirstFree(s, home, result.slotIndex)
            && (|| (exists e :: 0 <= e < |s| && Distance(home, e, |s|) == result.inspected - 1 && s[e].state == EMPTY)
                || (result.inspected == |s| && NothingStops(s, home, key, |s|))))
    case ENOSPC =>
      && result.inspected == |s| && NothingStops(s, home, key, |s|)
      && (forall i :: 0 <= i < |s| ==> s[i].state == OCCUPIED)
      && result.oldestFound && IsOldest(s, result.oldestIndex)
    case _ => false
  }

  /** `n` slots are inspected from `home` upwards, around the end of the array: none
      before the last one stops the probe, and the last one does unless the whole
      array was scanned. */
  ghost predicate IsProbeLength(s: seq<Slot>, home: nat, key: FlowKey, n: nat)
    requires home < |s|
  {
    && 1 <= n <= |s|
    && NothingStops(s, home, key, n - 1)
    && (n < |s| ==> Stops(s, if home + n <= |s| then home + n - 1 else home + n - 1 - |s|, key))
  }

  /** Slot `i` is occupied and no stored record was last seen earlier. */
  ghost predicate IsOldest(s: seq<Slot>, i: nat) {
    && i < |s| && s[i].state == OCCUPIED
    && forall j | 0 <= j < |s| && s[j].state == OCCUPIED ::
         Micros(s[i].record.lastSeen) <= Micros(s[j].record.lastSeen)
  }

  ghost predicate RecordsOk(s: seq<Slot>) {
    forall i | 0 <= i < |s| && s[i].state == OCCUPIED :: RecordOk(s[i].record)
  }

  /** All that the scans ask of a stored record. */
  ghost predicate Timed(s: seq<Slot>) {
    forall i | 0 <= i < |s| && s[i].state == OCCUPIED :: s[i].record.initialized && ValidTime(s[i].record.lastSeen)
  }

  /** What a probe reports about an array that represents a map: the key's slot,
      or the first free slot on the key's path, or - exactly when the key is absent and
      every slot is taken - the oldest record. */
  ghost predicate ProbeOutcome(s: seq<Slot>, hash: Hash, key: FlowKey, code: Errno, result: ProbeResult)
    requires s != []
  {
    match code
    case OK =>
      && IsProbeLength(s, Home(hash, key, |s|), key, result.inspected)
      && result.slotIndex < |s| && PathTo(s, Home(hash, key, |s|), result.slotIndex)
      && (result.found <==> key in Contents(s))
      && (if result.found then Holds(s, result.slotIndex, key)
          else FirstFree(s, Home(hash, key, |s|), result.slotIndex) && |Residents(s)| < |s|)
    case ENOSPC =>
      && IsProbeLength(s, Home(hash, key, |s|), key, result.inspected)
      && key !in Contents(s) && |Residents(s)| == |s|
      && result.oldestFound && IsOldest(s, result.oldestIndex)
      && forall i :: 0 <= i < |s| ==> s[i].state == OCCUPIED
    case _ => false
  }

  /** The effect of one keyed packet on the map, with nothing about slots or hashes. */
  ghost predicate Processed(m: map<FlowKey, FlowRecord>, capacity: nat, evictWhenFull: bool, a: Arrival,
                            code: Errno, created: bool, evicted: Option<FlowRecord>, m': map<FlowKey, FlowRecord>)
  {
    if a.key in m then
      var grown := Absorb(m[a.key], a);
      && !created && evicted.None?
      && (if grown.aToB.InRange() && grown.bToA.InRange() then code == OK && m' == m[a.key := grown]
          else code == EOVERFLOW && m' == m)
    else if |m| < capacity then
      code == OK && created && evicted.None? && m' == m[a.key := Summary([a])]
    else if !evictWhenFull then
      code == ENOSPC && !created && evicted.None? && m' == m
    else
      && code == OK && created && evicted.Some?
      && IsOldestEntry(m, evicted.value)
      && m' == (m - {evicted.value.key})[a.key := Summary([a])]
  }

  /** Only a full table evicts, and no record was last seen before the one it evicts. */
  lemma EvictsAnOldest(m: map<FlowKey, FlowRecord>, capacity: nat, evictWhenFull: bool, a: Arrival, code: Errno,
                       created: bool, evicted: FlowRecord, m': map<FlowKey, FlowRecord>)
    requires Processed(m, capacity, evictWhenFull, a, code, created, Some(evicted), m')
    ensures evictWhenFull && a.key !in m && |m| >= capacity
    ensures forall k :: k in m ==> Micros(evicted.lastSeen) <= Micros(m[k].lastSeen)
  {
  }

  /** Replacing in place on a full table is evicting an oldest record and then
      inserting, as two operations. */
  lemma ReplaceIsEvictThenInsert(m: map<FlowKey, FlowRecord>, capacity: nat, a: Arrival, evicted: FlowRecord)
    requires a.key !in m && |m| == capacity > 0
    ensures forall m' :: Processed(m, capacity, true, a, OK, true, Some(evicted), m') <==>
              && IsOldestEntry(m, evicted)
              && Processed(m - {evicted.key}, capacity, true, a, OK, true, None, m')
    ensures IsOldestEntry(m, evicted) ==> |m - {evicted.key}| == |m| - 1
  {
    if IsOldestEntry(m, evicted) {
      assert (m - {evicted.key}).Keys == m.Keys - {evicted.key};
      assert |m - {evicted.key}| == |(m - {evicted.key}).Keys| && |m| == |m.Keys|;
    }
  }

  ghost predicate IsOldestEntry(m: map<FlowKey, FlowRecord>, r: FlowRecord) {
    && r.key in m && m[r.key] == r
    && forall k :: k in m ==> Micros(r.lastSeen) <= Micros(m[k].lastSeen)
  }

  function TallyOfEvicted(evicted: Option<FlowRecord>): Tally {
    if evicted.Some? then TallyOf(evicted.value) else NOTHING
  }

  /** What a packet adds to the table's totals if it was accepted. */
  function TallyOfPacket(code: Errno, p: PacketInfo): Tally {
    if code == OK then Tally(1, p.capturedLength, p.wireLength) else NOTHING
  }

  class FlowTable {
    const slots: array<Slot>
    const hash: Hash
    var count: nat
    var statistics: ProbeStatistics
    /** The length of every packet probe so far. */
    ghost var probes: seq<nat>

    /** The slots and `count` represent a map of good records. */
    ghost predicate Sound()
      reads this, slots
    {
      && slots.Length > 0 && Indexed(slots[..], hash) && RecordsOk(slots[..])
      && count == |Residents(slots[..])|
    }

    ghost predicate Valid()
      reads this, slots
    {
      && Sound() && slots.Length <= U64_MAX
      && Measured(statistics, probes, slots.Length)
    }

    ghost function View(): map<FlowKey, FlowRecord>
      reads this, slots
    {
      Contents(slots[..])
    }

    ghost function Total(): Tally
      reads this, slots
    {
      TallyOfSlots(slots[..])
    }

    constructor (storage: array<Slot>, hash: Hash)
      requires 0 < storage.Length <= U64_MAX
      modifies storage
      ensures Valid() && slots == storage && this.hash == hash
      ensures View() == map[] && count == 0 && Total() == NOTHING && probes == []
      ensures forall i :: 0 <= i < storage.Length ==> storage[i].state == EMPTY
    {
      slots := storage;
      this.hash := hash;
      count := 0;
      statistics := ProbeStatistics(0, 0, 0, false);
      probes := [];
      new;
      ClearSlots();
    }

    /** Resets every slot to EMPTY. */
    method ClearSlots()
      requires slots.Length > 0
      modifies slots
      ensures forall i :: 0 <= i < slots.Length ==> slots[i] == CLEARED
      ensures Indexed(slots[..], hash) && RecordsOk(slots[..])
      ensures View() == map[] && Residents(slots[..]) == [] && Total() == NOTHING
    {
      var i := 0;
      while i < slots.Length
        invariant 0 <= i <= slots.Length
        invariant forall j :: 0 <= j < i ==> slots[j] == CLEARED
      {
        slots[i] := CLEARED;
        i := i + 1;
      }
      Vacant(slots[..], hash);
      TalliesAgree(slots[..]);
    }

    method RecordProbe(inspected: nat)
      requires Measured(statistics, probes, slots.Length)
      requires 1 <= inspected <= slots.Length <= U64_MAX
      modifies this`statistics, this`probes
      ensures probes == old(probes) + [inspected]
      ensures Measured(statistics, probes, slots.Length)
      ensures statistics.maximum == if inspected > old(statistics.maximum) then inspected else old(statistics.maximum)
    {
      ghost var more := probes + [inspected];
      assert more[..|probes|] == probes;
      assert Sum(more) == Sum(probes) + inspected && |more| == |probes| + 1;
      var updated := statistics;
      if updated.operations == U64_MAX {
        updated := updated.(saturated := true);
      } else {
        updated := updated.(operations := updated.operations + 1);
        if updated.operations == U64_MAX {
          updated := updated.(saturated := true);
        }
      }
      if U64_MAX - updated.inspected < inspected {
        updated := updated.(inspected := U64_MAX, saturated := true);
      } else {
        updated := updated.(inspected := updated.inspected + inspected);
        if updated.inspected == U64_MAX {
          updated := updated.(saturated := true);
        }
      }
      if inspected > updated.maximum {
        updated := updated.(maximum := inspected);
      }
      statistics := updated;
      probes := more;
    }

    /** One linear probe.  The internal-corruption exits are unreachable, and a
        full scan reports ENOSPC exactly when the key is absent and no slot is free. */
    method Probe(key: FlowKey) returns (code: Errno, result: ProbeResult)
      requires Indexed(slots[..], hash) && Timed(slots[..]) && count == |Residents(slots[..])|
      ensures ProbeOutcome(slots[..], hash, key, code, result)
    {
      code, result := Scan(key);
      ProbeMeaning(slots[..], hash, key, code, result);
    }

    /** The probe loop, on any array whose `count` is right. */
    method Scan(key: FlowKey) returns (code: Errno, result: ProbeResult)
      requires slots.Length > 0 && Timed(slots[..]) && count == |Residents(slots[..])|
      ensures ScanOutcome(slots[..], Home(hash, key, slots.Length), key, code, result)
    {
      var stopped, occupied, hasDeleted, firstDeleted;
      stopped, code, result, occupied, hasDeleted, firstDeleted := Walk(key);
      if !stopped {
        AllCounted(slots[..], Home(hash, key, slots.Length));
        if occupied != count || (!hasDeleted && !result.oldestFound) {
          code := EINVAL;
        } else {
          result := result.(
            found := false,
            slotIndex := if hasDeleted then firstDeleted else result.slotIndex,
            inspected := slots.Length);
          code := if hasDeleted then OK else ENOSPC;
          FullScan(slots[..], Home(hash, key, slots.Length), key, code, result);
        }
      }
    }

    /** Looks at one slot after the other until one stops the probe. */
    method Walk(key: FlowKey)
      returns (stopped: bool, code: Errno, result: ProbeResult, occupied: nat, hasDeleted: bool, firstDeleted: nat)
      requires slots.Length > 0 && Timed(slots[..])
      ensures stopped ==> ScanOutcome(slots[..], Home(hash, key, slots.Length), key, code, result)
      ensures !stopped ==>
                && !result.found
                && Walked(slots[..], Home(hash, key, slots.Length), key, slots.Length, occupied, hasDeleted,
                          firstDeleted, result.oldestFound, result.oldestIndex)
    {
      stopped, code, result := false, OK, ProbeResult(false, 0, false, 0, 0);
      occupied, hasDeleted, firstDeleted := 0, false, 0;
      var capacity := slots.Length;
      ghost var s := slots[..];
      ghost var home := Home(hash, key, capacity);
      var currentIndex: nat := hash(key) % capacity;
      ReducedIsModulo(hash(key), capacity);
      var probeCount := 0;
      WalkStarts(s, home, key);
      while probeCount < capacity
        invariant 0 <= probeCount <= capacity && currentIndex < capacity && !result.found
        invariant probeCount < capacity ==> Distance(home, currentIndex, capacity) == probeCount
        invariant Walked(s, home, key, probeCount, occupied, hasDeleted, firstDeleted,
                         result.oldestFound, result.oldestIndex)
      {
        stopped, code, result, occupied, hasDeleted, firstDeleted :=
          Inspect(key, currentIndex, probeCount, result, occupied, hasDeleted, firstDeleted);
        if stopped {
          return;
        }
        NextDistance(home, currentIndex, capacity);
        currentIndex := currentIndex + 1;
        if currentIndex == capacity {
          currentIndex := 0;
        }
        probeCount := probeCount + 1;
      }
    }

    /** One slot of the walk. */
    method Inspect(key: FlowKey, currentIndex: nat, probeCount: nat, before: ProbeResult,
                   occupiedBefore: nat, deletedBefore: bool, firstBefore: nat)
      returns (stopped: bool, code: Errno, result: ProbeResult, occupied: nat, hasDeleted: bool, firstDeleted: nat)
      requires currentIndex < slots.Length && Timed(slots[..]) && !before.found
      requires Distance(Home(hash, key, slots.Length), currentIndex, slots.Length) == probeCount
      requires Walked(slots[..], Home(hash, key, slots.Length), key, probeCount, occupiedBefore, deletedBefore,
                      firstBefore, before.oldestFound, before.oldestIndex)
      ensures stopped ==> ScanOutcome(slots[..], Home(hash, key, slots.Length), key, code, result)
      ensures !stopped ==>
                && code == OK && !result.found
                && Walked(slots[..], Home(hash, key, slots.Length), key, probeCount + 1, occupied, hasDeleted,
                          firstDeleted, result.oldestFound, result.oldestIndex)
    {
      stopped, code, result := false, OK, before;
      occupied, hasDeleted, firstDeleted := occupiedBefore, deletedBefore, firstBefore;
      ghost var s, home := slots[..], Home(hash, key, slots.Length);
      var current := slots[currentIndex];
      match current.state {
        case EMPTY =>
          result := result.(
            found := false,
            slotIndex := if hasDeleted then firstDeleted else currentIndex,
            inspected := probeCount + 1);
          EmptyStops(s, home, key, probeCount, currentIndex, occupied, hasDeleted, firstDeleted, result);
          stopped := true;
        case OCCUPIED =>
          if !current.record.initialized || current.record.lastSeen.microseconds < 0
             || current.record.lastSeen.microseconds > 999_999 {
            stopped, code := true, EINVAL;
            return;
          }
          OccupiedNext(s, home, key, probeCount, currentIndex, occupied, hasDeleted, firstDeleted,
                       result.oldestFound, result.oldestIndex);
          occupied := occupied + 1;
          result := NoteOldest(result, currentIndex);
          if current.record.key == key {
            result := result.(found := true, slotIndex := currentIndex, inspected := probeCount + 1);
            stopped := true;
          }
        case DELETED =>
          DeletedNext(s, home, key, probeCount, currentIndex, occupied, hasDeleted, firstDeleted,
                      result.oldestFound, result.oldestIndex);
          if !hasDeleted {
            hasDeleted, firstDeleted := true, currentIndex;
          }
      }
    }

    /** Keeps the earlier seen of the oldest record so far and the one in slot `i`. */
    method NoteOldest(before: ProbeResult, i: nat) returns (result: ProbeResult)
      requires i < slots.Length && slots[i].state == OCCUPIED && Timed(slots[..])
      requires before.oldestFound ==> before.oldestIndex < slots.Length && slots[before.oldestIndex].state == OCCUPIED
      ensures result == before.(
                oldestFound := true,
                oldestIndex :=
                  if !before.oldestFound
                     || Micros(slots[i].record.lastSeen) < Micros(slots[before.oldestIndex].record.lastSeen)
                  then i else before.oldestIndex)
    {
      result := before;
      if !result.oldestFound || Before(slots[i].record.lastSeen, slots[result.oldestIndex].record.lastSeen) {
        result := result.(oldestFound := true, oldestIndex := i);
      }
    }

    /** Overwrites slot `t`, which lies on the probe path of `r.key`. */
    method Store(t: nat, r: FlowRecord)
      requires t < slots.Length && Indexed(slots[..], hash) && RecordsOk(slots[..]) && RecordOk(r)
      requires forall i :: Holds(slots[..], i, r.key) ==> i == t
      requires PathTo(slots[..], Home(hash, r.key, slots.Length), t)
      modifies slots
      ensures Indexed(slots[..], hash) && RecordsOk(slots[..]) && slots[..] == old(slots[..])[t := Slot(OCCUPIED, r)]
      ensures View() == Without(old(slots[..]), t)[r.key := r]
      ensures |Residents(slots[..])| == |Residents(old(slots[..]))| + if old(slots[t]).state == OCCUPIED then 0 else 1
      ensures Total().Plus(TallyOfSlot(old(slots[t]))) == old(Total()).Plus(TallyOf(r))
    {
      ghost var s := slots[..];
      slots[t] := Slot(OCCUPIED, r);
      assert slots[..] == s[t := Slot(OCCUPIED, r)];
      Write(s, hash, t, r);
      CountAfterWrite(s, t, Slot(OCCUPIED, r));
      TallyAfterWrite(s, t, Slot(OCCUPIED, r));
    }

    /** Absorbs a packet into the record in slot `t`. */
    method UpdateAt(t: nat, p: PacketInfo, ghost evictWhenFull: bool) returns (code: Errno)
      requires Sound() && Keyable(p) && Holds(slots[..], t, FromPacket(p).key)
      modifies slots
      ensures Sound() && (code == OK ==> Holds(slots[..], t, FromPacket(p).key))
      ensures Processed(old(View()), slots.Length, evictWhenFull, ArrivalOf(p), code, false, None, View())
      ensures Total() == old(Total()).Plus(TallyOfPacket(code, p))
    {
      ghost var s := slots[..];
      HeldIsEntry(s, t, FromPacket(p).key);
      var record;
      code, record := UpdateRecord(slots[t].record, p);
      if code == OK {
        Store(t, record);
        WithoutThenPut(s, t, record);
        UpdatedTotal(Total(), old(Total()), s[t].record, ArrivalOf(p));
      }
      ProcessedHit(old(View()), slots.Length, evictWhenFull, ArrivalOf(p), code, View());
    }

    /** Creates a record in the free slot `t`. */
    method CreateAt(t: nat, p: PacketInfo, ghost evictWhenFull: bool) returns (code: Errno)
      requires Sound() && Keyable(p) && FromPacket(p).key !in View() && count < slots.Length
      requires t < slots.Length && slots[t].state != OCCUPIED
      requires PathTo(slots[..], Home(hash, FromPacket(p).key, slots.Length), t)
      modifies slots, this`count
      ensures Sound() && code == OK && Holds(slots[..], t, FromPacket(p).key)
      ensures Processed(old(View()), slots.Length, evictWhenFull, ArrivalOf(p), code, true, None, View())
      ensures Total() == old(Total()).Plus(TallyOfPacket(OK, p))
    {
      AbsentIsHeldNowhere(slots[..], FromPacket(p).key);
      CountEntries(slots[..]);
      var record;
      code, record := InitRecord(p);
      if code == OK {
        Store(t, record);
        CreatedTotal(Total(), old(Total()), ArrivalOf(p));
        count := count + 1;
        ProcessedMiss(old(View()), slots.Length, evictWhenFull, ArrivalOf(p), View());
      }
    }

    /** Replaces the oldest record of a full table. */
    method ReplaceAt(t: nat, p: PacketInfo) returns (code: Errno, evicted: FlowRecord)
      requires Sound() && Keyable(p) && FromPacket(p).key !in View()
      requires IsOldest(slots[..], t) && forall i :: 0 <= i < slots.Length ==> slots[i].state == OCCUPIED
      modifies slots
      ensures Sound() && code == OK && Holds(slots[..], t, FromPacket(p).key)
      ensures Processed(old(View()), slots.Length, true, ArrivalOf(p), code, true, Some(evicted), View())
      ensures Total().Plus(TallyOf(evicted)) == old(Total()).Plus(TallyOfPacket(OK, p))
    {
      AbsentIsHeldNowhere(slots[..], FromPacket(p).key);
      CountEntries(slots[..]);
      AllOccupied(slots[..]);
      OldestOverall(slots[..], t);
      evicted := slots[t].record;
      var record;
      code, record := InitRecord(p);
      if code == OK {
        TallyOfFirst(ArrivalOf(p));
        Store(t, record);
        ProcessedReplaced(old(View()), slots.Length, ArrivalOf(p), evicted, View());
      }
    }

    /** Counts a packet where its probe says: into its record, a free slot, or
        the place of the oldest record. */
    method Place(p: PacketInfo, evictWhenFull: bool, probed: Errno, probe: ProbeResult)
      returns (code: Errno, slot: nat, created: bool, evicted: Option<FlowRecord>)
      requires Sound() && Keyable(p) && ProbeOutcome(slots[..], hash, FromPacket(p).key, probed, probe)
      modifies slots, this`count
      ensures Sound() && (code == OK ==> Holds(slots[..], slot, FromPacket(p).key))
      ensures Processed(old(View()), slots.Length, evictWhenFull, ArrivalOf(p), code, created, evicted, View())
      ensures Total().Plus(TallyOfEvicted(evicted)) == old(Total()).Plus(TallyOfPacket(code, p))
    {
      code, slot, created, evicted := probed, 0, false, None;
      CountEntries(slots[..]);
      PlusNothing(Total());
      if probed == ENOSPC && evictWhenFull {
        if !probe.oldestFound || count != slots.Length {
          return EINVAL, slot, created, evicted;
        }
        var oldest;
        slot := probe.oldestIndex;
        code, oldest := ReplaceAt(slot, p);
        if code == OK {
          created, evicted := true, Some(oldest);
        }
      } else if probed == OK {
        code, slot, created := PlaceWithin(p, evictWhenFull, probe);
        PlusNothing(Total());
      }
    }

    /** The probe found the key or a free slot. */
    method PlaceWithin(p: PacketInfo, ghost evictWhenFull: bool, probe: ProbeResult)
      returns (code: Errno, slot: nat, created: bool)
      requires Sound() && Keyable(p) && ProbeOutcome(slots[..], hash, FromPacket(p).key, OK, probe)
      modifies slots, this`count
      ensures Sound() && (code == OK ==> Holds(slots[..], slot, FromPacket(p).key))
      ensures Processed(old(View()), slots.Length, evictWhenFull, ArrivalOf(p), code, created, None, View())
      ensures Total() == old(Total()).Plus(TallyOfPacket(code, p))
    {
      slot, created := probe.slotIndex, false;
      if probe.found {
        code := UpdateAt(slot, p, evictWhenFull);
      } else {
        if slots[slot].state == OCCUPIED || count >= slots.Length {
          return EINVAL, slot, created;
        }
        code := CreateAt(slot, p, evictWhenFull);
        created := code == OK;
      }
    }

    /** One packet through the table; with `evictWhenFull`, a full table makes
        room by replacing its oldest record in place.  On success `slot` holds the
        packet's record. */
    method ProcessPacket(p: PacketInfo, evictWhenFull: bool)
      returns (code: Errno, slot: nat, created: bool, evicted: Option<FlowRecord>, ghost inspected: nat)
      requires Valid() && ValidTime(p.time)
      modifies this, slots
      ensures Valid()
      ensures code == OK ==> FromPacket(p).Keyed? && Holds(slots[..], slot, FromPacket(p).key)
      ensures FromPacket(p).NoKey? ==>
                && code == FromPacket(p).error && !created && evicted.None?
                && View() == old(View()) && Total() == old(Total()) && probes == old(probes)
      ensures FromPacket(p).Keyed? ==>
                && Processed(old(View()), slots.Length, evictWhenFull, ArrivalOf(p), code, created, evicted, View())
                && Total().Plus(TallyOfEvicted(evicted)) == old(Total()).Plus(TallyOfPacket(code, p))
                && probes == old(probes) + [inspected]
                && IsProbeLength(old(slots[..]), Home(hash, FromPacket(p).key, slots.Length), FromPacket(p).key,
                                 inspected)
      ensures evicted.Some? ==>
                && evictWhenFull && |old(View())| >= slots.Length
                && forall k :: k in old(View()) ==>
                     Micros(evicted.value.lastSeen) <= Micros(old(View())[k].lastSeen)
    {
      slot, created, evicted, inspected := 0, false, None, 0;
      var keyed := FromPacket(p);
      if keyed.NoKey? {
        return keyed.error, slot, created, evicted, inspected;
      }
      var probe;
      code, probe := Probe(keyed.key);
      inspected := probe.inspected;
      if code == OK || code == ENOSPC {
        RecordProbe(probe.inspected);
      }
      code, slot, created, evicted := Place(p, evictWhenFull, code, probe);
      if evicted.Some? {
        EvictsAnOldest(old(View()), slots.Length, evictWhenFull, ArrivalOf(p), code, created, evicted.value, View());
      }
    }

    /** A full table that evicts first and then takes the packet ends as the
        one-pass replacement prescribes. */
    method EvictThenProcess(p: PacketInfo) returns (code: Errno, evicted: FlowRecord)
      requires Valid() && Keyable(p) && FromPacket(p).key !in View() && |View()| == slots.Length
      modifies this, slots
      ensures Valid() && code == OK
      ensures Processed(old(View()), slots.Length, true, ArrivalOf(p), OK, true, Some(evicted), View())
      ensures Total().Plus(TallyOf(evicted)) == old(Total()).Plus(TallyOfPacket(OK, p))
    {
      ghost var m, total := View(), Total();
      code, evicted := EvictOldest();
      ReplaceIsEvictThenInsert(m, slots.Length, ArrivalOf(p), evicted);
      ghost var without, kept := View(), Total();
      var slot, created, none;
      ghost var inspected;
      code, slot, created, none, inspected := ProcessPacket(p, true);
      TallyExchanged(Total(), kept, total, TallyOf(evicted), TallyOfPacket(OK, p));
    }

    /** Turns slot `t` into a tombstone. */
    method BuryAt(t: nat)
      requires Sound() && t < slots.Length && slots[t].state == OCCUPIED
      modifies slots, this`count
      ensures Sound()
      ensures slots[..] == old(slots[..])[t := TOMBSTONE] && count == old(count) - 1
      ensures View() == old(View()) - {old(slots[t]).record.key}
      ensures Total().Plus(TallyOf(old(slots[t]).record)) == old(Total())
    {
      ghost var s := slots[..];
      slots[t] := TOMBSTONE;
      assert slots[..] == s[t := TOMBSTONE];
      Bury(s, hash, t);
      CountAfterWrite(s, t, TOMBSTONE);
      TallyAfterWrite(s, t, TOMBSTONE);
      PlusNothing(TallyOfSlots(s));
      count := count - 1;
    }

    /** A table without records needs no tombstones. */
    method ForgetTombstones()
      requires Sound()
      modifies slots
      ensures Sound() && View() == old(View()) && Total() == old(Total())
    {
      if count == 0 {
        NobodyHome(slots[..]);
        Vacant(slots[..], hash);
        TalliesAgree(slots[..]);
        ClearSlots();
      }
    }

    /** The first pass of an eviction: validate, count, and pick the oldest. */
    method FindOldest() returns (code: Errno, index: nat)
      requires Sound()
      ensures code == if count == 0 then ENOENT else OK
      ensures code == OK ==> IsOldest(slots[..], index)
    {
      ghost var s := slots[..];
      var observed, found := 0, false;
      index := 0;
      var i := 0;
      while i < slots.Length
        invariant 0 <= i <= slots.Length
        invariant observed == |Residents(s[..i])|
        invariant OldestUpTo(s, i, found, index) && (found <==> observed > 0)
      {
        var slot := slots[i];
        PrefixStep(s, i);
        OldestUpToNext(s, i, found, index);
        if slot.state == OCCUPIED {
          if !slot.record.initialized || slot.record.lastSeen.microseconds < 0
             || slot.record.lastSeen.microseconds > 999_999 {
            return EINVAL, index;
          }
          observed := observed + 1;
          if !found || Before(slot.record.lastSeen, slots[index].record.lastSeen) {
            index, found := i, true;
          }
        }
        i := i + 1;
      }
      assert s[..i] == s;
      if observed != count {
        return EINVAL, index;
      }
      return if found then OK else ENOENT, index;
    }

    /** Removes a record with the smallest `lastSeen`; ENOENT exactly on an empty table. */
    method EvictOldest() returns (code: Errno, evicted: FlowRecord)
      requires Valid()
      modifies slots, this`count
      ensures Valid()
      ensures code == if |old(View())| == 0 then ENOENT else OK
      ensures code == OK ==> IsOldestEntry(old(View()), evicted) && View() == old(View()) - {evicted.key}
      ensures code == OK ==>
                forall k :: k in old(View()) ==> Micros(evicted.lastSeen) <= Micros(old(View())[k].lastSeen)
      ensures code == OK ==> Total().Plus(TallyOf(evicted)) == old(Total())
      ensures code != OK ==> slots[..] == old(slots[..]) && count == old(count)
    {
      CountEntries(slots[..]);
      var index;
      code, index := FindOldest();
      evicted := NO_RECORD;
      if code == OK {
        OldestOverall(slots[..], index);
        evicted := slots[index].record;
        BuryAt(index);
        ForgetTombstones();
      }
    }

    /** The first pass of a sweep: validate and count, change nothing. */
    method CountDue(cutoff: Timestamp) returns (code: Errno, matched: nat)
      requires Sound() && ValidTime(cutoff)
      ensures code == OK && matched == DueCount(slots[..], cutoff)
    {
      ghost var s := slots[..];
      var observed := 0;
      matched := 0;
      var i := 0;
      while i < slots.Length
        invariant 0 <= i <= slots.Length
        invariant observed == |Residents(s[..i])| && matched == DueCount(s[..i], cutoff)
      {
        var slot := slots[i];
        PrefixStep(s, i);
        DueCountStep(s, i, cutoff);
        if slot.state == OCCUPIED {
          if !slot.record.initialized || slot.record.lastSeen.microseconds < 0
             || slot.record.lastSeen.microseconds > 999_999 {
            return EINVAL, matched;
          }
          observed := observed + 1;
          if AtOrBefore(slot.record.lastSeen, cutoff) {
            matched := matched + 1;
          }
        }
        i := i + 1;
      }
      assert s[..i] == s;
      code := if observed == count then OK else EINVAL;
    }

    /** The second pass: copy out and bury every due record. */
    method TakeDue(cutoff: Timestamp, expired: array<FlowRecord>) returns (n: nat)
      requires Sound() && ValidTime(cutoff) && DueCount(slots[..], cutoff) <= expired.Length
      modifies slots, this`count, expired
      ensures Sound()
      ensures View() == Survivors(old(View()), cutoff)
      ensures n == DueCount(old(slots[..]), cutoff) && IsRemoval(old(View()), View(), expired[..n])
      ensures Total().Plus(TallyOfAll(expired[..n])) == old(Total())
    {
      ghost var s, m := slots[..], View();
      n := 0;
      var i := 0;
      PlusNothing(Total());
      while i < slots.Length
        invariant Sweeping(s, m, i, cutoff, expired, n)
        invariant Total().Plus(TallyOfAll(expired[..n])) == old(Total())
      {
        n := SweepSlot(s, m, i, cutoff, expired, n);
        i := i + 1;
      }
      assert s[..i] == s;
      NoneDue(slots[..], m, expired[..n], cutoff);
    }

    /** The second pass has dealt with the slots before `i` of the original array `s`. */
    ghost predicate Sweeping(s: seq<Slot>, m: map<FlowKey, FlowRecord>, i: nat, cutoff: Timestamp,
                             expired: array<FlowRecord>, n: nat)
      reads this, slots, expired
    {
      && i <= slots.Length && Sound() && SweptTo(s, slots[..], i, cutoff)
      && n == DueCount(s[..i], cutoff) && DueCount(s, cutoff) <= expired.Length && n <= expired.Length
      && IsRemoval(m, View(), expired[..n]) && AllDue(expired[..n], cutoff)
    }

    method SweepSlot(ghost s: seq<Slot>, ghost m: map<FlowKey, FlowRecord>, i: nat, cutoff: Timestamp,
                     expired: array<FlowRecord>, n: nat) returns (n': nat)
      requires Sweeping(s, m, i, cutoff, expired, n) && i < slots.Length && ValidTime(cutoff)
      modifies slots, this`count, expired
      ensures Sweeping(s, m, i + 1, cutoff, expired, n')
      ensures Total().Plus(TallyOfAll(expired[..n'])) == old(Total().Plus(TallyOfAll(expired[..n])))
    {
      n' := n;
      DueCountStep(s, i, cutoff);
      DueCountGrows(s, i + 1, cutoff);
      SweptNext(s, slots[..], i, cutoff);
      var slot := slots[i];
      if slot.state == OCCUPIED && AtOrBefore(slot.record.lastSeen, cutoff) {
        n' := TakeOne(i, expired, n, m);
      }
    }

    /** One step of the second pass. */
    method TakeOne(i: nat, expired: array<FlowRecord>, n: nat, ghost m: map<FlowKey, FlowRecord>) returns (n': nat)
      requires Sound() && i < slots.Length && slots[i].state == OCCUPIED && n < expired.Length
      requires IsRemoval(m, View(), expired[..n])
      modifies slots, this`count, expired
      ensures Sound() && n' == n + 1
      ensures slots[..] == old(slots[..])[i := TOMBSTONE]
      ensures expired[..n'] == old(expired[..n]) + [old(slots[i]).record]
      ensures IsRemoval(m, View(), expired[..n'])
      ensures Total().Plus(TallyOfAll(expired[..n'])) == old(Total()).Plus(TallyOfAll(old(expired[..n])))
    {
      ContentsRepresent(slots[..]);
      var record := slots[i].record;
      ghost var out, before := expired[..n], View();
      expired[n] := record;
      assert expired[..n + 1] == out + [record];
      n' := n + 1;
      BuryAt(i);
      RemoveOneMore(m, before, out, record);
      TallyOfOneMore(out, record);
      TallyMoves(Total(), TallyOf(record), TallyOfAll(out), old(Total()));
    }

    /** Moves every record last seen at or before `cutoff` to `expired`, in slot
        order; ENOSPC, changing nothing, when they do not fit. */
    method ExpireBefore(cutoff: Timestamp, expired: array<FlowRecord>) returns (code: Errno, n: nat)
      requires Valid()
      modifies slots, this`count, expired
      ensures Valid()
      ensures code ==
              if !ValidTime(cutoff) then EINVAL
              else if |old(View())| - |Survivors(old(View()), cutoff)| > expired.Length then ENOSPC
              else OK
      ensures code == OK ==>
                && View() == Survivors(old(View()), cutoff)
                && n <= expired.Length && IsRemoval(old(View()), View(), expired[..n])
                && Total().Plus(TallyOfAll(expired[..n])) == old(Total())
                && forall k :: k in View() <==> k in old(View()) && Micros(old(View())[k].lastSeen) > Micros(cutoff)
      ensures code != OK ==> slots[..] == old(slots[..]) && count == old(count) && expired[..] == old(expired[..])
    {
      n := 0;
      if !ValidTime(cutoff) {
        return EINVAL, n;
      }
      DueCountIsRemoved(slots[..], cutoff);
      var matched;
      code, matched := CountDue(cutoff);
      if code != OK {
        return code, n;
      }
      if matched > expired.Length {
        return ENOSPC, n;
      }
      n := TakeDue(cutoff, expired);
      ForgetTombstones();
      return OK, n;
    }

    /** Point lookup; a full table without the key is simply "not found". */
    method Find(key: FlowKey) returns (code: Errno, record: FlowRecord)
      requires Valid()
      ensures code == if key in View() then OK else ENOENT
      ensures code == OK ==> record == View()[key]
    {
      ContentsRepresent(slots[..]);
      var probeCode, probe := Probe(key);
      if probeCode == ENOSPC {
        return ENOENT, NO_RECORD;
      }
      if probeCode != OK {
        return probeCode, NO_RECORD;
      }
      if !probe.found {
        return ENOENT, NO_RECORD;
      }
      return OK, slots[probe.slotIndex].record;
    }

    /** The `index`-th record in slot order. */
    method Get(index: nat) returns (code: Errno, record: FlowRecord)
      requires Valid()
      ensures code == if index < count then OK else ERANGE
      ensures code == OK ==> record == Residents(slots[..])[index]
    {
      record := NO_RECORD;
      if index >= count {
        return ERANGE, record;
      }
      ghost var s := slots[..];
      assert s[..slots.Length] == s;
      var i, logicalIndex := 0, 0;
      while i < slots.Length
        invariant 0 <= i <= slots.Length
        invariant logicalIndex == |Residents(s[..i])| <= index
      {
        PrefixStep(s, i);
        if slots[i].state == OCCUPIED {
          if !slots[i].record.initialized {
            return EINVAL, record;
          }
          if logicalIndex == index {
            ResidentsPrefix(s, i + 1);
            return OK, slots[i].record;
          }
          logicalIndex := logicalIndex + 1;
        }
        i := i + 1;
      }
      return EINVAL, record;
    }
  }

  // ----- what the removal loops need to know ------------------------------------------------

  /** `out` lists entries of `m`, each once, and `m'` is `m` without them. */
  ghost predicate IsRemoval(m: map<FlowKey, FlowRecord>, m': map<FlowKey, FlowRecord>, out: seq<FlowRecord>) {
    && KeysDiffer(out)
    && (forall x :: 0 <= x < |out| ==> out[x].key in m && m[out[x].key] == out[x])
    && m' == m - KeySet(out)
  }

  ghost predicate AllDue(out: seq<FlowRecord>, cutoff: Timestamp) {
    forall x :: 0 <= x < |out| ==> Micros(out[x].lastSeen) <= Micros(cutoff)
  }

  /** The second pass has reached slot `i`: nothing due is left before it, and
      the rest is untouched. */
  ghost predicate SweptTo(s: seq<Slot>, s': seq<Slot>, i: nat, cutoff: Timestamp) {
    && i <= |s| == |s'|
    && (forall j :: 0 <= j < i ==> !Due(s'[j], cutoff))
    && (forall j :: i <= j < |s| ==> s'[j] == s[j])
  }

  lemma SweptNext(s: seq<Slot>, s': seq<Slot>, i: nat, cutoff: Timestamp)
    requires SweptTo(s, s', i, cutoff) && i < |s|
    ensures s'[i] == s[i]
    ensures if Due(s[i], cutoff) then SweptTo(s, s'[i := TOMBSTONE], i + 1, cutoff) else SweptTo(s, s', i + 1, cutoff)
  {
  }

  ghost function KeySet(rs: seq<FlowRecord>): set<FlowKey> {
    set x | 0 <= x < |rs| :: rs[x].key
  }

  lemma RemoveOneMore(m: map<FlowKey, FlowRecord>, m': map<FlowKey, FlowRecord>, out: seq<FlowRecord>, r: FlowRecord)
    requires IsRemoval(m, m', out) && r.key in m' && m'[r.key] == r
    ensures IsRemoval(m, m' - {r.key}, out + [r])
  {
    assert KeySet(out + [r]) == KeySet(out) + {r.key} by {
      assert (out + [r])[|out|] == r;
      assert forall x :: 0 <= x < |out| ==> (out + [r])[x] == out[x];
    }
    assert forall x :: 0 <= x < |out| ==> out[x].key in KeySet(out);
  }

  ghost function DueCount(s: seq<Slot>, cutoff: Timestamp): nat {
    if s == [] then 0
    else DueCount(s[..|s| - 1], cutoff) + if Due(s[|s| - 1], cutoff) then 1 else 0
  }

  lemma {:induction false} DueCountGrows(s: seq<Slot>, i: nat, cutoff: Timestamp)
    requires i <= |s|
    ensures DueCount(s[..i], cutoff) <= DueCount(s, cutoff)
    decreases |s|
  {
    if i < |s| {
      assert s[..|s| - 1][..i] == s[..i];
      DueCountGrows(s[..|s| - 1], i, cutoff);
    } else {
      assert s[..i] == s;
    }
  }

  lemma OneMoreSurvivor(m: map<FlowKey, FlowRecord>, r: FlowRecord, cutoff: Timestamp)
    requires r.key !in m
    ensures |Survivors(m[r.key := r], cutoff)|
         == |Survivors(m, cutoff)| + if Micros(r.lastSeen) <= Micros(cutoff) then 0 else 1
  {
    if Micros(r.lastSeen) <= Micros(cutoff) {
      assert Survivors(m[r.key := r], cutoff) == Survivors(m, cutoff);
    } else {
      assert Survivors(m[r.key := r], cutoff) == Survivors(m, cutoff)[r.key := r];
    }
  }

  /** The first pass counts exactly the entries that a sweep takes away. */
  lemma {:induction false} DueCountIsRemoved(s: seq<Slot>, cutoff: Timestamp)
    requires DistinctKeys(s)
    ensures |Contents(s)| == |Residents(s)|
    ensures DueCount(s, cutoff) + |Survivors(Contents(s), cutoff)| == |Contents(s)|
  {
    CountEntries(s);
    if s != [] {
      var n := |s| - 1;
      DueCountIsRemoved(s[..n], cutoff);
      if s[n].state == OCCUPIED {
        LastKeyIsNew(s);
        OneMoreSurvivor(Contents(s[..n]), s[n].record, cutoff);
      }
    }
  }

  /** Once no stored record is due and only due records were taken, exactly the survivors remain. */
  lemma NoneDue(s: seq<Slot>, m: map<FlowKey, FlowRecord>, out: seq<FlowRecord>, cutoff: Timestamp)
    requires DistinctKeys(s) && IsRemoval(m, Contents(s), out)
    requires forall i :: 0 <= i < |s| ==> !Due(s[i], cutoff)
    requires AllDue(out, cutoff)
    ensures Contents(s) == Survivors(m, cutoff)
  {
    ContentsRepresent(s);
    forall k | k in Contents(s)
      ensures k in Survivors(m, cutoff)
    {
      var i :| Holds(s, i, k);
    }
    assert forall x :: 0 <= x < |out| ==> out[x].key !in Survivors(m, cutoff);
    forall k | k in Survivors(m, cutoff)
      ensures k in Contents(s)
    {
    }
  }

  lemma PrefixStep(s: seq<Slot>, i: nat)
    requires i < |s|
    ensures Residents(s[..i + 1]) == Residents(s[..i]) + Listed(s[i])
  {
    assert s[..i + 1][..i] == s[..i];
  }

  lemma DueCountStep(s: seq<Slot>, i: nat, cutoff: Timestamp)
    requires i < |s|
    ensures DueCount(s[..i + 1], cutoff) == DueCount(s[..i], cutoff) + if Due(s[i], cutoff) then 1 else 0
  {
    assert s[..i + 1][..i] == s[..i];
  }

  lemma {:induction false} NobodyHome(s: seq<Slot>)
    requires Residents(s) == []
    ensures forall i :: 0 <= i < |s| ==> s[i].state != OCCUPIED
  {
    if s != [] {
      assert Residents(s) == Residents(s[..|s| - 1]) + Listed(s[|s| - 1]);
      NobodyHome(s[..|s| - 1]);
    }
  }

  // ----- totals ---------------------------------------------------------------------------------

  /** Each accepted packet adds itself to its record's totals, once. */
  lemma TallyAbsorbed(r: FlowRecord, a: Arrival)
    ensures TallyOf(Absorb(r, a)) == TallyOf(r).Plus(Tally(1, a.captured, a.wire))
  {
  }

  lemma TallyOfFirst(a: Arrival)
    ensures TallyOf(Summary([a])) == Tally(1, a.captured, a.wire)
  {
    SummaryOfOne(a);
    TallyAbsorbed(Empty(a), a);
  }

  lemma HeldIsEntry(s: seq<Slot>, t: nat, key: FlowKey)
    requires DistinctKeys(s) && Holds(s, t, key)
    ensures key in Contents(s) && Contents(s)[key] == s[t].record
    ensures forall i :: Holds(s, i, key) ==> i == t
  {
    ContentsRepresent(s);
  }

  lemma AbsentIsHeldNowhere(s: seq<Slot>, key: FlowKey)
    requires DistinctKeys(s) && key !in Contents(s)
    ensures forall i :: !Holds(s, i, key)
  {
    ContentsRepresent(s);
  }

  lemma ProcessedHit(m: map<FlowKey, FlowRecord>, capacity: nat, evictWhenFull: bool, a: Arrival, code: Errno,
                     m': map<FlowKey, FlowRecord>)
    requires a.key in m
    requires var grown := Absorb(m[a.key], a);
             if grown.aToB.InRange() && grown.bToA.InRange() then code == OK && m' == m[a.key := grown]
             else code == EOVERFLOW && m' == m
    ensures Processed(m, capacity, evictWhenFull, a, code, false, None, m')
  {
  }

  lemma ProcessedMiss(m: map<FlowKey, FlowRecord>, capacity: nat, evictWhenFull: bool, a: Arrival,
                      m': map<FlowKey, FlowRecord>)
    requires a.key !in m && |m| < capacity && m' == m[a.key := Summary([a])]
    ensures Processed(m, capacity, evictWhenFull, a, OK, true, None, m')
  {
  }

  lemma ProcessedReplaced(m: map<FlowKey, FlowRecord>, capacity: nat, a: Arrival, evicted: FlowRecord,
                          m': map<FlowKey, FlowRecord>)
    requires a.key !in m && |m| >= capacity && IsOldestEntry(m, evicted)
    requires m' == (m - {evicted.key})[a.key := Summary([a])]
    ensures Processed(m, capacity, true, a, OK, true, Some(evicted), m')
  {
  }

  lemma UpdatedTotal(after: Tally, before: Tally, r: FlowRecord, a: Arrival)
    requires after.Plus(TallyOf(r)) == before.Plus(TallyOf(Absorb(r, a)))
    ensures after == before.Plus(Tally(1, a.captured, a.wire))
  {
    TallyAbsorbed(r, a);
    TallyCancels(after, before, TallyOf(r), Tally(1, a.captured, a.wire));
  }

  lemma CreatedTotal(after: Tally, before: Tally, a: Arrival)
    requires after.Plus(NOTHING) == before.Plus(TallyOf(Summary([a])))
    ensures after == before.Plus(Tally(1, a.captured, a.wire))
  {
    TallyOfFirst(a);
    PlusNothing(after);
  }

  lemma TallyCancels(after: Tally, before: Tally, x: Tally, added: Tally)
    requires after.Plus(x) == before.Plus(x.Plus(added))
    ensures after == before.Plus(added)
  {
  }

  lemma TallyExchanged(after: Tally, kept: Tally, before: Tally, out: Tally, added: Tally)
    requires kept.Plus(out) == before && after.Plus(NOTHING) == kept.Plus(added)
    ensures after.Plus(out) == before.Plus(added)
  {
  }

  lemma TallyOfOneMore(out: seq<FlowRecord>, r: FlowRecord)
    ensures TallyOfAll(out + [r]) == TallyOfAll(out).Plus(TallyOf(r))
  {
    assert (out + [r])[..|out|] == out;
  }

  lemma TallyMoves(kept: Tally, moved: Tally, out: Tally, all: Tally)
    requires kept.Plus(moved) == all
    ensures kept.Plus(out.Plus(moved)) == all.Plus(out)
  {
  }

  lemma PlusNothing(x: Tally)
    ensures x.Plus(NOTHING) == x
  {
  }

  lemma WithoutThenPut(s: seq<Slot>, t: nat, r: FlowRecord)
    requires DistinctKeys(s) && Holds(s, t, r.key)
    ensures Without(s, t)[r.key := r] == Contents(s)[r.key := r]
  {
    ContentsRepresent(s);
  }

  // ----- what the probe loop needs to know ----------------------------------------------------

  ghost function OccupiedAmong(s: seq<Slot>, visited: set<nat>): set<nat>
    requires forall j :: j in visited ==> j < |s|
  {
    set j | j in visited && s[j].state == OCCUPIED
  }

  ghost predicate OldestSoFar(s: seq<Slot>, visited: set<nat>, found: bool, i: nat)
    requires forall j :: j in visited ==> j < |s|
  {
    if found then
      && i in visited && s[i].state == OCCUPIED
      && forall j | j in visited && s[j].state == OCCUPIED ::
           Micros(s[i].record.lastSeen) <= Micros(s[j].record.lastSeen)
    else
      forall j | j in visited :: s[j].state != OCCUPIED
  }

  /** The first `c` steps from `home` met `first` as their first tombstone, or none. */
  ghost predicate WalkedOver(s: seq<Slot>, home: nat, c: nat, hasDeleted: bool, first: nat)
    requires home < |s|
  {
    if hasDeleted then FirstFree(s, home, first) && Distance(home, first, |s|) < c
    else forall j :: j in Visited(home, c, |s|) ==> s[j].state == OCCUPIED
  }

  /** All that the probe loop knows after `c` steps. */
  ghost predicate Walked(s: seq<Slot>, home: nat, key: FlowKey, c: nat, occupied: nat, hasDeleted: bool, first: nat,
                         oldestFound: bool, oldest: nat)
    requires home < |s|
  {
    && NothingStops(s, home, key, c) && occupied == |OccupiedAmong(s, Visited(home, c, |s|))|
    && WalkedOver(s, home, c, hasDeleted, first) && OldestSoFar(s, Visited(home, c, |s|), oldestFound, oldest)
  }

  lemma WalkStarts(s: seq<Slot>, home: nat, key: FlowKey)
    requires home < |s|
    ensures Walked(s, home, key, 0, 0, false, 0, false, 0)
  {
    assert Visited(home, 0, |s|) == {};
    assert OccupiedAmong(s, {}) == {};
  }

  lemma WalkNext(s: seq<Slot>, home: nat, c: nat, i: nat, hasDeleted: bool, first: nat)
    requires home < |s| && i < |s| && Distance(home, i, |s|) == c && WalkedOver(s, home, c, hasDeleted, first)
    ensures hasDeleted || s[i].state == OCCUPIED ==> WalkedOver(s, home, c + 1, hasDeleted, first)
    ensures !hasDeleted && s[i].state != OCCUPIED ==> FirstFree(s, home, i) && WalkedOver(s, home, c + 1, true, i)
  {
    VisitNext(home, c, i, |s|);
  }

  /** One more occupied slot, either with the key or on the way to it. */
  lemma OccupiedNext(s: seq<Slot>, home: nat, key: FlowKey, c: nat, i: nat, occupied: nat, hasDeleted: bool, first: nat,
                     oldestFound: bool, oldest: nat)
    requires home < |s| && i < |s| && Distance(home, i, |s|) == c && s[i].state == OCCUPIED
    requires Walked(s, home, key, c, occupied, hasDeleted, first, oldestFound, oldest)
    ensures oldestFound ==> oldest < |s| && s[oldest].state == OCCUPIED
    ensures s[i].record.key != key ==>
              Walked(s, home, key, c + 1, occupied + 1, hasDeleted, first, true,
                     if !oldestFound || Micros(s[i].record.lastSeen) < Micros(s[oldest].record.lastSeen)
                     then i else oldest)
  {
    var visited := Visited(home, c, |s|);
    VisitNext(home, c, i, |s|);
    CountNext(s, visited, i);
    WalkNext(s, home, c, i, hasDeleted, first);
    OldestNext(s, visited, oldestFound, oldest, i);
    if s[i].record.key != key {
      NothingStopsNext(s, home, key, c, i);
    }
  }

  /** One more tombstone. */
  lemma DeletedNext(s: seq<Slot>, home: nat, key: FlowKey, c: nat, i: nat, occupied: nat, hasDeleted: bool, first: nat,
                    oldestFound: bool, oldest: nat)
    requires home < |s| && i < |s| && Distance(home, i, |s|) == c && s[i].state == DELETED
    requires Walked(s, home, key, c, occupied, hasDeleted, first, oldestFound, oldest)
    ensures Walked(s, home, key, c + 1, occupied, true, if hasDeleted then first else i, oldestFound, oldest)
  {
    VisitNext(home, c, i, |s|);
    CountNext(s, Visited(home, c, |s|), i);
    WalkNext(s, home, c, i, hasDeleted, first);
    NothingStopsNext(s, home, key, c, i);
  }

  /** The conclusions of a probe that met an EMPTY slot. */
  lemma EmptyStops(s: seq<Slot>, home: nat, key: FlowKey, c: nat, i: nat, occupied: nat, hasDeleted: bool, first: nat,
                   result: ProbeResult)
    requires home < |s| && i < |s| && Distance(home, i, |s|) == c && s[i].state == EMPTY
    requires Walked(s, home, key, c, occupied, hasDeleted, first, result.oldestFound, result.oldestIndex)
    requires !result.found && result.inspected == c + 1 && result.slotIndex == if hasDeleted then first else i
    ensures ScanOutcome(s, home, key, OK, result)
  {
    WalkNext(s, home, c, i, hasDeleted, first);
  }

  /** `index` holds the oldest record among the first `i` slots, if there is one. */
  ghost predicate OldestUpTo(s: seq<Slot>, i: nat, found: bool, index: nat) {
    && i <= |s|
    && if found then
         && index < i && s[index].state == OCCUPIED
         && forall j | 0 <= j < i && s[j].state == OCCUPIED ::
              Micros(s[index].record.lastSeen) <= Micros(s[j].record.lastSeen)
       else
         forall j | 0 <= j < i :: s[j].state != OCCUPIED
  }

  lemma OldestUpToNext(s: seq<Slot>, i: nat, found: bool, index: nat)
    requires i < |s| && OldestUpTo(s, i, found, index)
    ensures if s[i].state != OCCUPIED then OldestUpTo(s, i + 1, found, index)
            else if !found || Micros(s[i].record.lastSeen) < Micros(s[index].record.lastSeen)
            then OldestUpTo(s, i + 1, true, i)
            else OldestUpTo(s, i + 1, true, index)
  {
  }

  lemma OldestNext(s: seq<Slot>, visited: set<nat>, found: bool, best: nat, i: nat)
    requires forall j :: j in visited ==> j < |s|
    requires i < |s| && s[i].state == OCCUPIED
    requires OldestSoFar(s, visited, found, best)
    ensures OldestSoFar(
              s, visited + {i}, true,
              if !found || Micros(s[i].record.lastSeen) < Micros(s[best].record.lastSeen) then i else best)
  {
  }

  lemma NextDistance(home: nat, i: nat, n: nat)
    requires home < n && i < n
    ensures Distance(home, i, n) + 1 < n ==>
              Distance(home, if i + 1 == n then 0 else i + 1, n) == Distance(home, i, n) + 1
  {
  }

  lemma VisitNext(home: nat, c: nat, i: nat, n: nat)
    requires home < n && i < n && Distance(home, i, n) == c
    ensures i !in Visited(home, c, n) && Visited(home, c + 1, n) == Visited(home, c, n) + {i}
  {
  }

  lemma CountNext(s: seq<Slot>, visited: set<nat>, i: nat)
    requires i < |s| && i !in visited && forall j :: j in visited ==> j < |s|
    ensures |OccupiedAmong(s, visited + {i})| == |OccupiedAmong(s, visited)| + if s[i].state == OCCUPIED then 1 else 0
  {
    if s[i].state == OCCUPIED {
      assert OccupiedAmong(s, visited + {i}) == OccupiedAmong(s, visited) + {i};
    } else {
      assert OccupiedAmong(s, visited + {i}) == OccupiedAmong(s, visited);
    }
  }

  /** The conclusions of a probe that never stopped. */
  lemma FullScan(s: seq<Slot>, home: nat, key: FlowKey, code: Errno, result: ProbeResult)
    requires home < |s| && code in {OK, ENOSPC}
    requires NothingStops(s, home, key, |s|)
    requires !result.found && result.inspected == |s|
    requires WalkedOver(s, home, |s|, code == OK, result.slotIndex)
    requires OldestSoFar(s, Visited(home, |s|, |s|), result.oldestFound, result.oldestIndex)
    requires code == ENOSPC ==> result.oldestFound
    ensures ScanOutcome(s, home, key, code, result)
  {
    assert forall j: nat :: j < |s| ==> j in Visited(home, |s|, |s|);
  }

  lemma NothingStopsNext(s: seq<Slot>, home: nat, key: FlowKey, c: nat, i: nat)
    requires home < |s| && i < |s| && Distance(home, i, |s|) == c
    requires NothingStops(s, home, key, c) && !Stops(s, i, key)
    ensures NothingStops(s, home, key, c + 1)
  {
  }

  lemma AllCounted(s: seq<Slot>, home: nat)
    requires home < |s|
    ensures |OccupiedAmong(s, Visited(home, |s|, |s|))| == |Residents(s)|
  {
    CountSlots(s);
    assert OccupiedAmong(s, Visited(home, |s|, |s|)) == OccupiedSlots(s);
  }

  // ----- what a scan means when the array represents a map -------------------------------------

  lemma ProbeMeaning(s: seq<Slot>, hash: Hash, key: FlowKey, code: Errno, result: ProbeResult)
    requires Indexed(s, hash)
    requires ScanOutcome(s, Home(hash, key, |s|), key, code, result)
    ensures ProbeOutcome(s, hash, key, code, result)
  {
    var home := Home(hash, key, |s|);
    if code == OK {
      ClearPath(s, home, key, result.inspected - 1, result.slotIndex);
      if result.found {
        ContentsRepresent(s);
        StopsHere(s, home, key, result.inspected, result.slotIndex);
      } else if NothingStops(s, home, key, |s|) {
        AbsentAfterScan(s, hash, key);
        NotFull(s, result.slotIndex);
      } else {
        var e :| 0 <= e < |s| && Distance(home, e, |s|) == result.inspected - 1 && s[e].state == EMPTY;
        ClearPath(s, home, key, result.inspected - 1, e);
        EmptyEndsSearch(s, hash, key, e);
        NotFull(s, e);
        StopsHere(s, home, key, result.inspected, e);
      }
    } else {
      AbsentAfterScan(s, hash, key);
      AllOccupied(s);
    }
  }

  lemma StopsHere(s: seq<Slot>, home: nat, key: FlowKey, n: nat, i: nat)
    requires home < |s| && i < |s| && Distance(home, i, |s|) == n - 1 && Stops(s, i, key)
    requires NothingStops(s, home, key, n - 1)
    ensures IsProbeLength(s, home, key, n)
  {
  }

  /** Nothing stopped the probe in its first `c` steps, so a slot at most that
      far away is on an unbroken path that does not hold the key earlier. */
  lemma ClearPath(s: seq<Slot>, home: nat, key: FlowKey, c: nat, t: nat)
    requires home < |s| && t < |s| && Distance(home, t, |s|) <= c
    requires NothingStops(s, home, key, c)
    ensures PathTo(s, home, t)
    ensures forall j | 0 <= j < |s| && Distance(home, j, |s|) < Distance(home, t, |s|) :: !Holds(s, j, key)
  {
    forall j | 0 <= j < |s| && Distance(home, j, |s|) < Distance(home, t, |s|)
      ensures s[j].state != EMPTY && !Holds(s, j, key)
    {
      assert j in Visited(home, c, |s|);
    }
  }

  lemma AbsentAfterScan(s: seq<Slot>, hash: Hash, key: FlowKey)
    requires Indexed(s, hash) && NothingStops(s, Home(hash, key, |s|), key, |s|)
    ensures key !in Contents(s)
  {
    ContentsRepresent(s);
    forall i | 0 <= i < |s|
      ensures !Holds(s, i, key)
    {
      assert i in Visited(Home(hash, key, |s|), |s|, |s|);
    }
  }

  lemma OldestOverall(s: seq<Slot>, i: nat)
    requires DistinctKeys(s) && IsOldest(s, i)
    ensures IsOldestEntry(Contents(s), s[i].record)
  {
    ContentsRepresent(s);
    forall k | k in Contents(s)
      ensures Micros(s[i].record.lastSeen) <= Micros(Contents(s)[k].lastSeen)
    {
      var j :| Holds(s, j, k);
    }
  }

  lemma NotFull(s: seq<Slot>, i: nat)
    requires i < |s| && s[i].state != OCCUPIED
    ensures |Residents(s)| < |s|
  {
    CountAfterWrite(s, i, Slot(OCCUPIED, NO_RECORD));
  }

  lemma {:induction false} AllOccupied(s: seq<Slot>)
    requires forall i :: 0 <= i < |s| ==> s[i].state == OCCUPIED
    ensures |Residents(s)| == |s|
  {
    if s != [] {
      AllOccupied(s[..|s| - 1]);
    }
  }
}
