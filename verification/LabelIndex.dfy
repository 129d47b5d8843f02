/** Matching a flow's closed time interval against the label intervals of its key. */
module LabelIndex {
  import opened Machine

  const MAX_TIMESTAMP := I64_MAX

  datatype Key = Key(protocol: int, addressA: int, portA: int, addressB: int, portB: int)

  /** `OTHER` stands for any string that is no label group. */
  datatype LabelGroup = MALICIOUS | BENIGN | EXCLUDE | OTHER

  datatype LabelInterval = LabelInterval(start: int, end: int, group: LabelGroup)

  type Index = map<Key, seq<LabelInterval>>

  /** What remains of a label file's record once it is normalised. */
  datatype Identity = Identity(key: Key, start: int, end: int)

  datatype Result<+T> = Ok(value: T) | ValueError

  predicate ValidInterval(first: int, last: int) {
    0 <= first <= last <= MAX_TIMESTAMP
  }

  predicate Supported(g: LabelGroup) {
    g == MALICIOUS || g == BENIGN
  }

  // ----- building the index ---------------------------------------------------------------------------

  /** The labels for one key, in file order. */
  function LabelsFor(records: seq<(Option<Identity>, LabelGroup)>, k: Key): seq<LabelInterval> {
    if records == [] then []
    else
      var (identity, group) := records[|records| - 1];
      LabelsFor(records[..|records| - 1], k)
      + if Supported(group) && identity.Some? && identity.value.key == k
        then [LabelInterval(identity.value.start, identity.value.end, group)] else []
  }

  predicate AllKnown(records: seq<(Option<Identity>, LabelGroup)>) {
    forall i :: 0 <= i < |records| ==> records[i].1 != OTHER
  }

  ghost predicate IndexOf(records: seq<(Option<Identity>, LabelGroup)>, index: Index) {
    && (forall k :: k in index <==> LabelsFor(records, k) != [])
    && forall k :: k in index ==> index[k] == LabelsFor(records, k)
  }

  /** A record with an identity under key `k` whose group is malicious or benign. */
  predicate Supervises(record: (Option<Identity>, LabelGroup), k: Key, interval: LabelInterval) {
    && record.0.Some? && record.0.value.key == k && (record.1 == MALICIOUS || record.1 == BENIGN)
    && interval == LabelInterval(record.0.value.start, record.0.value.end, record.1)
  }

  /** The labels under a key are the intervals of exactly those records. */
  lemma {:induction false} LabelsForMeaning(records: seq<(Option<Identity>, LabelGroup)>, k: Key, x: LabelInterval)
    ensures x in LabelsFor(records, k) <==> exists i :: 0 <= i < |records| && Supervises(records[i], k, x)
  {
    if records != [] {
      var n := |records| - 1;
      LabelsForMeaning(records[..n], k, x);
      assert records == records[..n] + [records[n]];
    }
  }

  /** Adds one record; an unknown group is an error. */
  method AppendLabel(index: Index, identity: Option<Identity>, group: LabelGroup,
                     ghost records: seq<(Option<Identity>, LabelGroup)>) returns (r: Result<Index>)
    requires IndexOf(records, index)
    ensures r.Ok? <==> group != OTHER
    ensures r.Ok? ==> IndexOf(records + [(identity, group)], r.value)
  {
    assert (records + [(identity, group)])[..|records|] == records;
    if group == OTHER {
      return ValueError;
    }
    if group == EXCLUDE || identity.None? {
      return Ok(index);
    }
    var k := identity.value.key;
    var interval := LabelInterval(identity.value.start, identity.value.end, group);
    return Ok(index[k := (if k in index then index[k] else []) + [interval]]);
  }

  /** The index groups the supervisable records by key; an unknown group is an error. */
  method BuildLabelIndex(records: seq<(Option<Identity>, LabelGroup)>) returns (r: Result<Index>)
    ensures r.Ok? <==> forall i :: 0 <= i < |records| ==> records[i].1 != OTHER
    ensures r.Ok? ==> IndexOf(records, r.value) && forall k :: LabelsOf(r.value, k) == LabelsFor(records, k)
  {
    r := Ok(map[]);
    var i := 0;
    assert records[..0] == [];
    while i < |records|
      invariant 0 <= i <= |records| && AllKnown(records[..i])
      invariant r.Ok? && IndexOf(records[..i], r.value)
    {
      assert records[..i + 1] == records[..i] + [records[i]];
      r := AppendLabel(r.value, records[i].0, records[i].1, records[..i]);
      if r == ValueError {
        return;
      }
      i := i + 1;
    }
    assert records[..i] == records;
  }

  /** An index built from normalised identities has only valid intervals. */
  lemma BuiltIndexIsValid(records: seq<(Option<Identity>, LabelGroup)>, index: Index)
    requires IndexOf(records, index)
    requires forall i :: 0 <= i < |records| && records[i].0.Some? ==>
             ValidInterval(records[i].0.value.start, records[i].0.value.end)
    ensures ValidIndex(index)
  {
    forall k | k in index
      ensures forall i :: 0 <= i < |index[k]| ==> ValidLabel(index[k][i])
    {
      LabelsAreValid(records, k);
    }
  }

  lemma {:induction false} LabelsAreValid(records: seq<(Option<Identity>, LabelGroup)>, k: Key)
    requires forall i :: 0 <= i < |records| && records[i].0.Some? ==>
             ValidInterval(records[i].0.value.start, records[i].0.value.end)
    ensures forall i :: 0 <= i < |LabelsFor(records, k)| ==> ValidLabel(LabelsFor(records, k)[i])
  {
    if records != [] {
      LabelsAreValid(records[..|records| - 1], k);
    }
  }

  predicate ValidLabel(interval: LabelInterval) {
    ValidInterval(interval.start, interval.end) && Supported(interval.group)
  }

  // ----- matching ------------------------------------------------------------------------------------------

  datatype Status = UNIQUE | UNMATCHED | AMBIGUOUS_SAME_LABEL | AMBIGUOUS_CONFLICTING_LABELS

  datatype Match = Match(status: Status, candidateCount: nat, group: Option<LabelGroup>, candidate: Option<nat>)

  /** Two closed intervals share a point. */
  predicate Overlaps(first: int, last: int, interval: LabelInterval) {
    first <= interval.end && interval.start <= last
  }

  /** The positions of the overlapping labels, ascending. */
  function Candidates(labels: seq<LabelInterval>, first: int, last: int): (cs: seq<nat>)
    ensures forall x :: 0 <= x < |cs| ==> cs[x] < |labels| && Overlaps(first, last, labels[cs[x]])
    ensures forall x, y | 0 <= x < y < |cs| :: cs[x] < cs[y]
    ensures forall i: nat :: i < |labels| && Overlaps(first, last, labels[i]) ==> i in cs
  {
    if labels == [] then []
    else
      var n := |labels| - 1;
      var before := Candidates(labels[..n], first, last);
      assert forall i: nat :: i < n ==> labels[..n][i] == labels[i];
      if Overlaps(first, last, labels[n]) then before + [n] else before
  }

  function LabelsOf(index: Index, k: Key): seq<LabelInterval> {
    if k in index then index[k] else []
  }

  function GroupsOf(labels: seq<LabelInterval>, cs: seq<nat>): set<LabelGroup>
    requires forall x :: 0 <= x < |cs| ==> cs[x] < |labels|
  {
    set x | 0 <= x < |cs| :: labels[cs[x]].group
  }

  /** Classifies one flow; UNIQUE means exactly one label overlaps it. */
  function Classify(index: Index, k: Key, first: int, last: int): (r: Result<Match>)
    ensures var labels := LabelsOf(index, k);
            r.Ok? && r.value.status == UNIQUE ==>
              && r.value.candidate.Some? && r.value.candidate.value < |labels|
              && Overlaps(first, last, labels[r.value.candidate.value])
              && r.value.group == Some(labels[r.value.candidate.value].group) && Supported(r.value.group.value)
              && (forall i :: 0 <= i < |labels| && Overlaps(first, last, labels[i]) ==> i == r.value.candidate.value)
    ensures r.Ok? && r.value.status == UNMATCHED ==>
              forall i :: 0 <= i < |LabelsOf(index, k)| ==> !Overlaps(first, last, LabelsOf(index, k)[i])
  {
    if !ValidInterval(first, last) then ValueError
    else
      var labels := LabelsOf(index, k);
      var cs := Candidates(labels, first, last);
      if cs == [] then Ok(Match(UNMATCHED, 0, None, None))
      else
        var groups := GroupsOf(labels, cs);
        if !(groups <= {MALICIOUS, BENIGN}) then ValueError
        else if |cs| == 1 then
          assert labels[cs[0]].group in groups;
          Ok(Match(UNIQUE, 1, Some(labels[cs[0]].group), Some(cs[0])))
        else if |groups| == 1 then Ok(Match(AMBIGUOUS_SAME_LABEL, |cs|, Some(labels[cs[0]].group), None))
        else Ok(Match(AMBIGUOUS_CONFLICTING_LABELS, |cs|, None, None))
  }

  /** Label `i` of the key overlaps the flow. */
  predicate Hits(index: Index, k: Key, first: int, last: int, i: nat) {
    i < |LabelsOf(index, k)| && Overlaps(first, last, LabelsOf(index, k)[i])
  }

  /** Some two labels that overlap the flow disagree. */
  ghost predicate Disagree(index: Index, k: Key, first: int, last: int, i: nat, j: nat) {
    && Hits(index, k, first, last, i) && Hits(index, k, first, last, j)
    && LabelsOf(index, k)[i].group != LabelsOf(index, k)[j].group
  }

  lemma GroupsDisagree(index: Index, k: Key, first: int, last: int)
    requires Candidates(LabelsOf(index, k), first, last) != []
    ensures var labels := LabelsOf(index, k);
            |GroupsOf(labels, Candidates(labels, first, last))| == 1 <==>
            forall i: nat, j: nat :: !Disagree(index, k, first, last, i, j)
  {
    var labels := LabelsOf(index, k);
    var cs := Candidates(labels, first, last);
    var groups, g := GroupsOf(labels, cs), labels[cs[0]].group;
    assert forall x :: 0 <= x < |cs| ==> Hits(index, k, first, last, cs[x]);
    assert g in groups;
    if |groups| == 1 {
      forall i: nat, j: nat
        ensures !Disagree(index, k, first, last, i, j)
      {
        if Hits(index, k, first, last, i) && Hits(index, k, first, last, j) {
          assert i in cs && j in cs;
          OnlyMember(groups, labels[i].group, labels[j].group);
        }
      }
    }
    if forall i: nat, j: nat :: !Disagree(index, k, first, last, i, j) {
      forall h | h in groups
        ensures h == g
      {
        var x :| 0 <= x < |cs| && labels[cs[x]].group == h;
        assert !Disagree(index, k, first, last, cs[x], cs[0]);
      }
      assert groups == {g};
    }
  }

  ghost predicate NoHit(index: Index, k: Key, first: int, last: int) {
    forall i: nat :: !Hits(index, k, first, last, i)
  }

  /** Label `i` alone overlaps the flow. */
  ghost predicate OnlyHit(index: Index, k: Key, first: int, last: int, i: nat) {
    Hits(index, k, first, last, i) && forall j: nat :: Hits(index, k, first, last, j) ==> j == i
  }

  lemma HitsAreCandidates(index: Index, k: Key, first: int, last: int)
    ensures var cs := Candidates(LabelsOf(index, k), first, last);
            && (forall i: nat :: Hits(index, k, first, last, i) <==> i in cs)
            && (|cs| > 1 ==> cs[0] < cs[1])
  {
  }

  lemma CandidatesAreHits(index: Index, k: Key, first: int, last: int)
    ensures var cs := Candidates(LabelsOf(index, k), first, last);
            && (cs == [] <==> NoHit(index, k, first, last))
            && (|cs| == 1 <==> exists i: nat :: OnlyHit(index, k, first, last, i))
  {
    var cs := Candidates(LabelsOf(index, k), first, last);
    HitsAreCandidates(index, k, first, last);
    assert cs != [] ==> cs[0] in cs;
    assert |cs| > 1 ==> cs[1] in cs;
    if |cs| == 1 {
      assert OnlyHit(index, k, first, last, cs[0]);
    }
  }

  /** The labels that overlap the flow. */
  ghost function HitsOf(index: Index, k: Key, first: int, last: int): set<nat> {
    set i | 0 <= i < |LabelsOf(index, k)| && Hits(index, k, first, last, i)
  }

  /** They all belong to group `g`. */
  ghost predicate ShareGroup(index: Index, k: Key, first: int, last: int, g: LabelGroup) {
    forall i: nat :: Hits(index, k, first, last, i) ==> LabelsOf(index, k)[i].group == g
  }

  lemma {:induction false} AscendingCount(cs: seq<nat>, hits: set<nat>)
    requires (forall x, y | 0 <= x < y < |cs| :: cs[x] < cs[y]) && forall i :: i in hits <==> i in cs
    ensures |hits| == |cs|
  {
    if cs == [] {
      assert hits == {};
    } else {
      var n := |cs| - 1;
      assert cs == cs[..n] + [cs[n]];
      AscendingCount(cs[..n], hits - {cs[n]});
    }
  }

  /** What each result says about the labels that overlap the flow: how many there
      are, and the group they share if they do. */
  lemma ClassifyMeaning(index: Index, k: Key, first: int, last: int)
    requires ValidIndex(index)
    ensures Classify(index, k, first, last).Ok? <==> 0 <= first <= last <= 9_223_372_036_854_775_807
    ensures Classify(index, k, first, last).Ok? ==>
              var m := Classify(index, k, first, last).value;
              && (m.status == UNMATCHED <==> NoHit(index, k, first, last))
              && (m.status == UNIQUE <==> exists i: nat :: OnlyHit(index, k, first, last, i))
              && (m.status == AMBIGUOUS_CONFLICTING_LABELS <==>
                  exists i: nat, j: nat :: Disagree(index, k, first, last, i, j))
              && m.candidateCount == |HitsOf(index, k, first, last)|
              && (m.candidate.Some? <==> m.status == UNIQUE)
              && (m.group.Some? <==> m.status == UNIQUE || m.status == AMBIGUOUS_SAME_LABEL)
              && (m.candidate.Some? ==> OnlyHit(index, k, first, last, m.candidate.value))
              && (m.group.Some? ==> ShareGroup(index, k, first, last, m.group.value))
  {
    CandidatesAreHits(index, k, first, last);
    CandidatesAgree(index, k, first, last);
    HitsAreCandidates(index, k, first, last);
    AscendingCount(Candidates(LabelsOf(index, k), first, last), HitsOf(index, k, first, last));
    if ValidInterval(first, last) {
      GroupsShared(index, k, first, last);
    }
  }

  /** Every label that overlaps the flow is malicious or benign. */
  ghost predicate HitsSupported(index: Index, k: Key, first: int, last: int) {
    forall i: nat :: Hits(index, k, first, last, i) ==> MaliciousOrBenign(LabelsOf(index, k)[i].group)
  }

  predicate MaliciousOrBenign(g: LabelGroup) {
    g == MALICIOUS || g == BENIGN
  }

  lemma GroupsSupported(index: Index, k: Key, first: int, last: int, labels: seq<LabelInterval>, cs: seq<nat>)
    requires labels == LabelsOf(index, k) && forall i: nat :: Hits(index, k, first, last, i) <==> i in cs
    requires forall x :: 0 <= x < |cs| ==> cs[x] < |labels|
    ensures GroupsOf(labels, cs) <= {MALICIOUS, BENIGN} <==> HitsSupported(index, k, first, last)
  {
    forall x | 0 <= x < |cs|
      ensures Hits(index, k, first, last, cs[x]) && labels[cs[x]].group in GroupsOf(labels, cs)
    {
      assert cs[x] in cs;
    }
    if GroupsOf(labels, cs) <= {MALICIOUS, BENIGN} {
      forall i: nat | Hits(index, k, first, last, i)
        ensures MaliciousOrBenign(labels[i].group)
      {
        var x :| 0 <= x < |cs| && cs[x] == i;
      }
    }
  }

  /** On any index a flow is refused exactly if its interval is no interval of
      int64 microseconds, or a label that overlaps it is neither malicious nor benign. */
  lemma ClassifyAccepts(index: Index, k: Key, first: int, last: int)
    ensures Classify(index, k, first, last).Ok?
       <==> 0 <= first <= last <= 9_223_372_036_854_775_807 && HitsSupported(index, k, first, last)
  {
    var cs := Candidates(LabelsOf(index, k), first, last);
    HitsAreCandidates(index, k, first, last);
    GroupsSupported(index, k, first, last, LabelsOf(index, k), cs);
    CandidatesAreHits(index, k, first, last);
  }

  lemma GroupsShared(index: Index, k: Key, first: int, last: int)
    requires ValidIndex(index) && ValidInterval(first, last)
    ensures var r := Classify(index, k, first, last);
            r.Ok? && (r.value.group.Some? ==> ShareGroup(index, k, first, last, r.value.group.value))
  {
    var cs := Candidates(LabelsOf(index, k), first, last);
    CandidatesAgree(index, k, first, last);
    if cs != [] {
      GroupsDisagree(index, k, first, last);
      HitsAreCandidates(index, k, first, last);
      NoneDisagree(index, k, first, last, cs);
    }
  }

  lemma NoneDisagree(index: Index, k: Key, first: int, last: int, cs: seq<nat>)
    requires cs != [] && forall i: nat :: Hits(index, k, first, last, i) <==> i in cs
    ensures cs[0] < |LabelsOf(index, k)|
    ensures (forall i: nat, j: nat :: !Disagree(index, k, first, last, i, j)) ==>
              ShareGroup(index, k, first, last, LabelsOf(index, k)[cs[0]].group)
  {
    assert cs[0] in cs;
    if forall i: nat, j: nat :: !Disagree(index, k, first, last, i, j) {
      forall i: nat | Hits(index, k, first, last, i)
        ensures LabelsOf(index, k)[i].group == LabelsOf(index, k)[cs[0]].group
      {
        assert !Disagree(index, k, first, last, i, cs[0]);
      }
    }
  }

  lemma SomeCandidatesAgree(index: Index, k: Key, first: int, last: int)
    requires Candidates(LabelsOf(index, k), first, last) != []
    ensures var labels := LabelsOf(index, k);
            var cs := Candidates(labels, first, last);
            |GroupsOf(labels, cs)| >= 1 && (|cs| == 1 ==> |GroupsOf(labels, cs)| == 1)
  {
    var labels := LabelsOf(index, k);
    var cs := Candidates(labels, first, last);
    var groups := GroupsOf(labels, cs);
    assert labels[cs[0]].group in groups;
    assert |cs| == 1 ==> groups == {labels[cs[0]].group};
  }

  lemma CandidatesAgree(index: Index, k: Key, first: int, last: int)
    requires ValidIndex(index)
    ensures var labels := LabelsOf(index, k);
            var cs := Candidates(labels, first, last);
            && GroupsOf(labels, cs) <= {MALICIOUS, BENIGN}
            && ((exists i: nat, j: nat :: Disagree(index, k, first, last, i, j)) <==> |GroupsOf(labels, cs)| > 1)
            && (|cs| <= 1 ==> |GroupsOf(labels, cs)| <= 1) && (cs != [] ==> |GroupsOf(labels, cs)| >= 1)
  {
    var cs := Candidates(LabelsOf(index, k), first, last);
    if cs == [] {
      assert GroupsOf(LabelsOf(index, k), cs) == {};
      CandidatesAreHits(index, k, first, last);
    } else {
      GroupsDisagree(index, k, first, last);
      SomeCandidatesAgree(index, k, first, last);
    }
  }

  lemma OnlyMember<T>(s: set<T>, x: T, y: T)
    requires |s| == 1 && x in s && y in s
    ensures x == y
  {
    assert |s - {x}| == 0;
    assert s == {x};
  }

  // ----- boundaries ------------------------------------------------------------------------------------------

  datatype Relation = EXACT | FLOW_INSIDE_LABEL | LABEL_INSIDE_FLOW | PARTIAL_OVERLAP | DISJOINT

  function Boundary(first: int, last: int, interval: LabelInterval): Result<Relation> {
    if !ValidInterval(first, last) || !ValidInterval(interval.start, interval.end) then ValueError
    else if last < interval.start || interval.end < first then Ok(DISJOINT)
    else if first == interval.start && last == interval.end then Ok(EXACT)
    else if interval.start <= first && last <= interval.end then Ok(FLOW_INSIDE_LABEL)
    else if first <= interval.start && interval.end <= last then Ok(LABEL_INSIDE_FLOW)
    else Ok(PARTIAL_OVERLAP)
  }

  ghost predicate Within(t: int, first: int, last: int) {
    first <= t <= last
  }

  /** The relation says how the two intervals relate as sets of moments. */
  lemma BoundaryMeaning(first: int, last: int, interval: LabelInterval)
    requires ValidInterval(first, last) && ValidInterval(interval.start, interval.end)
    ensures Boundary(first, last, interval).Ok?
    ensures var r := Boundary(first, last, interval).value;
            && (r == DISJOINT <==> forall t :: !(Within(t, first, last) && Within(t, interval.start, interval.end)))
            && (r == EXACT <==> forall t :: Within(t, first, last) <==> Within(t, interval.start, interval.end))
            && (r == FLOW_INSIDE_LABEL || r == EXACT <==>
                forall t :: Within(t, first, last) ==> Within(t, interval.start, interval.end))
            && (r == LABEL_INSIDE_FLOW || r == EXACT <==>
                forall t :: Within(t, interval.start, interval.end) ==> Within(t, first, last))
            && (r != DISJOINT <==> Overlaps(first, last, interval))
  {
    assert Within(first, first, last) && Within(last, first, last);
    assert Within(interval.start, interval.start, interval.end) && Within(interval.end, interval.start, interval.end);
    if Overlaps(first, last, interval) {
      var t := if first < interval.start then interval.start else first;
      assert Within(t, first, last) && Within(t, interval.start, interval.end);
    }
  }

  predicate ValidIndex(index: Index) {
    forall k, i | k in index && 0 <= i < |index[k]| :: ValidLabel(index[k][i])
  }
}
