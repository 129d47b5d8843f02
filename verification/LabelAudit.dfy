/** The two-pass audit: which label records are matched uniquely by exactly one
    flow, and how the intervals of those pairs relate. */
module LabelAudit {
  import opened Machine
  import opened LabelIndex

  /** One data row of a flow CSV. */
  datatype Row = Row(key: Key, first: int, last: int)

  /** A label record: its key and its position among the key's labels. */
  datatype Record = Record(key: Key, candidate: nat)

  function MatchOf(index: Index, row: Row): Result<Match> {
    Classify(index, row.key, row.first, row.last)
  }

  /** The label record that a row matches uniquely, if it does. */
  function RecordOf(index: Index, row: Row): Option<Record> {
    var r := MatchOf(index, row);
    if r.Ok? && r.value.status == UNIQUE then Some(Record(row.key, r.value.candidate.value)) else None
  }

  function RecordsOf(index: Index, rows: seq<Row>): (rs: seq<Option<Record>>)
    ensures |rs| == |rows|
  {
    seq(|rows|, i requires 0 <= i < |rows| => RecordOf(index, rows[i]))
  }

  // ----- the dictionary of unique matches ------------------------------------------------------------

  /** Row `n`, counting from 1, matched record `x`. */
  predicate IsRow(rs: seq<Option<Record>>, n: int, x: Record) {
    1 <= n <= |rs| && rs[n - 1] == Some(x)
  }

  /** The row numbers that matched record `x`. */
  function RowsOf(rs: seq<Option<Record>>, x: Record): seq<nat> {
    if rs == [] then []
    else RowsOf(rs[..|rs| - 1], x) + if rs[|rs| - 1] == Some(x) then [|rs|] else []
  }

  /** They are exactly the matching rows, in ascending order. */
  lemma {:induction false} RowsOfMeaning(rs: seq<Option<Record>>, x: Record)
    ensures forall n: nat :: n in RowsOf(rs, x) <==> IsRow(rs, n, x)
    ensures forall i, j | 0 <= i < j < |RowsOf(rs, x)| :: RowsOf(rs, x)[i] < RowsOf(rs, x)[j]
  {
    if rs != [] {
      var n := |rs|;
      var before := RowsOf(rs[..n - 1], x);
      RowsOfMeaning(rs[..n - 1], x);
      assert forall m: nat :: IsRow(rs[..n - 1], m, x) <==> m < n && IsRow(rs, m, x);
      assert forall j :: 0 <= j < |before| ==> before[j] in before;
    }
  }

  /** The matched records in order of their first match: the dictionary's key order. */
  function Order(rs: seq<Option<Record>>): seq<Record> {
    if rs == [] then []
    else
      var n := |rs| - 1;
      var before := Order(rs[..n]);
      if rs[n].Some? && rs[n].value !in before then before + [rs[n].value] else before
  }

  /** They are exactly the matched records, each once. */
  lemma {:induction false} OrderMeaning(rs: seq<Option<Record>>)
    ensures forall i, j | 0 <= i < j < |Order(rs)| :: Order(rs)[i] != Order(rs)[j]
    ensures forall x :: x in Order(rs) <==> Some(x) in rs
  {
    if rs != [] {
      var n := |rs| - 1;
      OrderMeaning(rs[..n]);
      assert rs == rs[..n] + [rs[n]];
    }
  }

  /** How many rows each record has, in dictionary order. */
  function Sizes(rs: seq<Option<Record>>): (ns: seq<nat>)
    ensures |ns| == |Order(rs)|
  {
    seq(|Order(rs)|, i requires 0 <= i < |Order(rs)| => |RowsOf(rs, Order(rs)[i])|)
  }

  function Matched(rs: seq<Option<Record>>): nat {
    if rs == [] then 0 else Matched(rs[..|rs| - 1]) + if rs[|rs| - 1].Some? then 1 else 0
  }

  function Sum(ns: seq<nat>): nat {
    if ns == [] then 0 else Sum(ns[..|ns| - 1]) + ns[|ns| - 1]
  }

  /** The comprehension sums of the summary. */
  function ReusedRecords(ns: seq<nat>): nat {
    if ns == [] then 0 else ReusedRecords(ns[..|ns| - 1]) + if ns[|ns| - 1] > 1 then 1 else 0
  }

  function UnreusedRecords(ns: seq<nat>): nat {
    if ns == [] then 0 else UnreusedRecords(ns[..|ns| - 1]) + if ns[|ns| - 1] == 1 then 1 else 0
  }

  function Duplicates(ns: seq<nat>): int {
    if ns == [] then 0 else Duplicates(ns[..|ns| - 1]) + ns[|ns| - 1] - 1
  }

  function ReusedRows(ns: seq<nat>): nat {
    if ns == [] then 0 else ReusedRows(ns[..|ns| - 1]) + if ns[|ns| - 1] > 1 then ns[|ns| - 1] else 0
  }

  lemma {:induction false} SumsAgree(ns: seq<nat>)
    requires forall i :: 0 <= i < |ns| ==> ns[i] > 0
    ensures Duplicates(ns) == Sum(ns) - |ns|
    ensures UnreusedRecords(ns) + ReusedRows(ns) == Sum(ns)
    ensures UnreusedRecords(ns) + ReusedRecords(ns) == |ns|
  {
    if ns != [] {
      SumsAgree(ns[..|ns| - 1]);
    }
  }

  lemma {:induction false} SumRaised(ns: seq<nat>, i: nat)
    requires i < |ns|
    ensures Sum(ns[i := ns[i] + 1]) == Sum(ns) + 1
  {
    var n := |ns| - 1;
    if i == n {
      assert ns[i := ns[i] + 1][..n] == ns[..n];
    } else {
      assert ns[i := ns[i] + 1][..n] == ns[..n][i := ns[i] + 1];
      SumRaised(ns[..n], i);
    }
  }

  lemma {:induction false} NoRows(rs: seq<Option<Record>>, x: Record)
    requires Some(x) !in rs
    ensures RowsOf(rs, x) == []
  {
    if rs != [] {
      var n := |rs| - 1;
      assert rs == rs[..n] + [rs[n]];
      NoRows(rs[..n], x);
    }
  }

  lemma SizesRaised(rs: seq<Option<Record>>, i: nat)
    requires rs != [] && i < |Order(rs[..|rs| - 1])| && rs[|rs| - 1] == Some(Order(rs[..|rs| - 1])[i])
    ensures var before := Sizes(rs[..|rs| - 1]); Sizes(rs) == before[i := before[i] + 1]
  {
    OrderMeaning(rs[..|rs| - 1]);
  }

  lemma SizesStep(rs: seq<Option<Record>>)
    requires rs != []
    ensures var n := |rs| - 1;
            var old', before := Sizes(rs), Sizes(rs[..n]);
            if rs[n].None? then old' == before
            else if rs[n].value in Order(rs[..n]) then
              exists i :: 0 <= i < |before| && old' == before[i := before[i] + 1]
            else old' == before + [1]
  {
    var n := |rs| - 1;
    var xs := Order(rs[..n]);
    OrderMeaning(rs[..n]);
    if rs[n].Some? {
      var x := rs[n].value;
      if x in xs {
        var i :| 0 <= i < |xs| && xs[i] == x;
        SizesRaised(rs, i);
      } else {
        NoRows(rs[..n], x);
        assert Sizes(rs) == Sizes(rs[..n]) + [1];
      }
    } else {
      assert Sizes(rs) == Sizes(rs[..n]);
    }
  }

  /** Every uniquely matched row is in the dictionary once. */
  lemma {:induction false} SizesSumUp(rs: seq<Option<Record>>)
    ensures Sum(Sizes(rs)) == Matched(rs)
  {
    if rs != [] {
      var n := |rs| - 1;
      SizesSumUp(rs[..n]);
      SizesStep(rs);
      var before := Sizes(rs[..n]);
      if rs[n].Some? {
        if rs[n].value in Order(rs[..n]) {
          var i :| 0 <= i < |before| && Sizes(rs) == before[i := before[i] + 1];
          SumRaised(before, i);
        } else {
          assert (before + [1])[..|before|] == before;
        }
      }
    }
  }

  // ----- rows whose label no other row matches ----------------------------------------------------------

  /** Row `n` has a unique match that no other row shares. */
  predicate Unshared(rs: seq<Option<Record>>, n: int) {
    && 1 <= n <= |rs| && rs[n - 1].Some?
    && forall m :: 0 <= m < |rs| && m != n - 1 ==> rs[m] != rs[n - 1]
  }

  /** The single rows of the records in the first part of the dictionary. */
  function SingleRows(rs: seq<Option<Record>>, xs: seq<Record>): set<nat> {
    if xs == [] then {}
    else
      var ns := RowsOf(rs, xs[|xs| - 1]);
      SingleRows(rs, xs[..|xs| - 1]) + if |ns| == 1 then {ns[0]} else {}
  }

  lemma {:induction false} SingleRowsMeaning(rs: seq<Option<Record>>, xs: seq<Record>)
    requires forall i, j | 0 <= i < j < |xs| :: xs[i] != xs[j]
    ensures forall n :: n in SingleRows(rs, xs) <==> Unshared(rs, n) && rs[n - 1].value in xs
  {
    if xs != [] {
      var k := |xs| - 1;
      SingleRowsMeaning(rs, xs[..k]);
      var x, ns := xs[k], RowsOf(rs, xs[k]);
      assert xs == xs[..k] + [x];
      forall n: nat
        ensures (|ns| == 1 && n == ns[0]) <==> (Unshared(rs, n) && rs[n - 1] == Some(x))
      {
        SingleRowOf(rs, x, n);
      }
    }
  }

  lemma SingleRowOf(rs: seq<Option<Record>>, x: Record, n: nat)
    ensures (|RowsOf(rs, x)| == 1 && n == RowsOf(rs, x)[0]) <==> (Unshared(rs, n) && rs[n - 1] == Some(x))
  {
    var ns := RowsOf(rs, x);
    RowsOfMeaning(rs, x);
    assert forall j :: 0 <= j < |ns| ==> ns[j] in ns;
    assert |ns| > 1 ==> ns[0] < ns[1];
    if |ns| == 1 && n == ns[0] {
      forall m | 0 <= m < |rs| && rs[m] == Some(x)
        ensures m == n - 1
      {
        assert IsRow(rs, m + 1, x);
      }
    }
    if Unshared(rs, n) && rs[n - 1] == Some(x) {
      assert IsRow(rs, n, x);
      forall m: nat | m in ns
        ensures m == n
      {
        assert IsRow(rs, m, x);
      }
    }
  }

  lemma {:induction false} SingleRowsCount(rs: seq<Option<Record>>, xs: seq<Record>, ns: seq<nat>)
    requires forall i, j | 0 <= i < j < |xs| :: xs[i] != xs[j]
    requires |ns| == |xs| && forall i :: 0 <= i < |xs| ==> ns[i] == |RowsOf(rs, xs[i])|
    ensures |SingleRows(rs, xs)| == UnreusedRecords(ns)
  {
    if xs != [] {
      var k := |xs| - 1;
      SingleRowsCount(rs, xs[..k], ns[..k]);
      if |RowsOf(rs, xs[k])| == 1 {
        SingleIsNew(rs, xs[..k], xs[k]);
      }
    }
  }

  lemma SingleIsNew(rs: seq<Option<Record>>, xs: seq<Record>, x: Record)
    requires (forall i, j | 0 <= i < j < |xs| :: xs[i] != xs[j]) && x !in xs && |RowsOf(rs, x)| == 1
    ensures RowsOf(rs, x)[0] !in SingleRows(rs, xs)
  {
    SingleRowsMeaning(rs, xs);
    SingleRowOf(rs, x, RowsOf(rs, x)[0]);
  }

  // ----- the first pass ----------------------------------------------------------------------------------

  datatype Counts = Counts(
    total: nat, unique: nat, uniqueMalicious: nat, uniqueBenign: nat,
    unmatched: nat, sameLabel: nat, conflictingLabels: nat,
    labelRecords: nat, reusedRecords: nat, duplicateAssignments: int, unreused: nat, reused: nat)

  const NO_COUNTS := Counts(0, 0, 0, 0, 0, 0, 0, 0, 0, 0, 0, 0)

  predicate AllClassify(index: Index, rows: seq<Row>) {
    forall i :: 0 <= i < |rows| ==> MatchOf(index, rows[i]).Ok?
  }

  function CountStatus(index: Index, rows: seq<Row>, s: Status): nat {
    if rows == [] then 0
    else
      var r := MatchOf(index, rows[|rows| - 1]);
      CountStatus(index, rows[..|rows| - 1], s) + if r.Ok? && r.value.status == s then 1 else 0
  }

  function CountGroup(index: Index, rows: seq<Row>, g: LabelGroup): nat {
    if rows == [] then 0
    else
      var r := MatchOf(index, rows[|rows| - 1]);
      CountGroup(index, rows[..|rows| - 1], g)
      + if r.Ok? && r.value.status == UNIQUE && r.value.group == Some(g) then 1 else 0
  }

  /** The per-row counters after `rows`. */
  predicate RowCountsOk(index: Index, rows: seq<Row>, c: Counts) {
    && c.total == |rows|
    && c.unique == CountStatus(index, rows, UNIQUE) && c.unmatched == CountStatus(index, rows, UNMATCHED)
    && c.sameLabel == CountStatus(index, rows, AMBIGUOUS_SAME_LABEL)
    && c.conflictingLabels == CountStatus(index, rows, AMBIGUOUS_CONFLICTING_LABELS)
    && c.uniqueMalicious == CountGroup(index, rows, MALICIOUS) && c.uniqueBenign == CountGroup(index, rows, BENIGN)
  }

  /** The dictionary after rows with matches `rs`. */
  ghost predicate DictionaryOk(rs: seq<Option<Record>>, order: seq<Record>, rowsOf: map<Record, seq<nat>>) {
    && order == Order(rs) && (forall x :: x in rowsOf <==> x in order)
    && forall x :: x in rowsOf ==> rowsOf[x] == RowsOf(rs, x)
  }

  lemma RowsOfNext(rs: seq<Option<Record>>, r: Option<Record>)
    ensures forall x :: RowsOf(rs + [r], x) == RowsOf(rs, x) + if r == Some(x) then [|rs| + 1] else []
  {
    assert (rs + [r])[..|rs|] == rs;
  }

  lemma OrderNext(rs: seq<Option<Record>>, r: Option<Record>)
    ensures Order(rs + [r]) == Order(rs) + if r.Some? && r.value !in Order(rs) then [r.value] else []
  {
    assert (rs + [r])[..|rs|] == rs;
  }

  lemma DictionaryStep(rs: seq<Option<Record>>, order: seq<Record>, rowsOf: map<Record, seq<nat>>, r: Option<Record>)
    requires DictionaryOk(rs, order, rowsOf)
    ensures var rs' := rs + [r];
            if r.None? then DictionaryOk(rs', order, rowsOf)
            else
              var x := r.value;
              DictionaryOk(rs', if x in rowsOf then order else order + [x],
                           rowsOf[x := (if x in rowsOf then rowsOf[x] else []) + [|rs| + 1]])
  {
    RowsOfNext(rs, r);
    OrderNext(rs, r);
    if r.Some? {
      var x := r.value;
      if x !in rowsOf {
        OrderMeaning(rs);
        NoRows(rs, x);
      }
    }
  }

  /** The dictionary after a row with a unique match. */
  method AddRow(order: seq<Record>, rowsOf: map<Record, seq<nat>>, x: Record, n: nat, ghost rs: seq<Option<Record>>)
    returns (order': seq<Record>, rowsOf': map<Record, seq<nat>>)
    requires DictionaryOk(rs, order, rowsOf) && n == |rs| + 1
    ensures DictionaryOk(rs + [Some(x)], order', rowsOf')
  {
    DictionaryStep(rs, order, rowsOf, Some(x));
    order' := if x in rowsOf then order else order + [x];
    rowsOf' := rowsOf[x := (if x in rowsOf then rowsOf[x] else []) + [n]];
  }

  /** The summary over the finished dictionary. */
  method Summarize(c: Counts, order: seq<Record>, rowsOf: map<Record, seq<nat>>, ghost rs: seq<Option<Record>>)
    returns (c': Counts, unreusedRows: set<nat>)
    requires DictionaryOk(rs, order, rowsOf)
    ensures c' == c.(labelRecords := |Order(rs)|, reusedRecords := ReusedRecords(Sizes(rs)),
                     duplicateAssignments := Duplicates(Sizes(rs)),
                     unreused := UnreusedRecords(Sizes(rs)), reused := ReusedRows(Sizes(rs)))
    ensures unreusedRows == SingleRows(rs, Order(rs))
  {
    var sizes := seq(|order|, j requires 0 <= j < |order| => if order[j] in rowsOf then |rowsOf[order[j]]| else 0);
    assert sizes == Sizes(rs);
    unreusedRows := FirstsOfSingles(order, rowsOf);
    ListedSinglesAre(rs, order, rowsOf);
    c' := c.(labelRecords := |order|, reusedRecords := ReusedRecords(sizes), duplicateAssignments := Duplicates(sizes),
             unreused := UnreusedRecords(sizes), reused := ReusedRows(sizes));
  }

  /** One row of the first pass, after `before`. */
  method AuditRow(index: Index, ghost before: seq<Row>, row: Row, c: Counts, order: seq<Record>,
                  rowsOf: map<Record, seq<nat>>)
    returns (ok: bool, c': Counts, order': seq<Record>, rowsOf': map<Record, seq<nat>>)
    requires RowCountsOk(index, before, c) && DictionaryOk(RecordsOf(index, before), order, rowsOf)
    ensures ok <==> MatchOf(index, row).Ok?
    ensures ok ==>
            RowCountsOk(index, before + [row], c') && DictionaryOk(RecordsOf(index, before + [row]), order', rowsOf')
  {
    c', order', rowsOf' := c, order, rowsOf;
    var m := MatchOf(index, row);
    if m == ValueError {
      return false, c', order', rowsOf';
    }
    ok := true;
    c' := CountRow(index, before, row, c);
    assert RecordsOf(index, before + [row]) == RecordsOf(index, before) + [RecordOf(index, row)];
    if m.value.status == UNIQUE {
      order', rowsOf' :=
        AddRow(order, rowsOf, Record(row.key, m.value.candidate.value), c'.total, RecordsOf(index, before));
    } else {
      DictionaryStep(RecordsOf(index, before), order, rowsOf, None);
    }
  }

  lemma NothingAudited(index: Index, before: seq<Row>, order: seq<Record>, rowsOf: map<Record, seq<nat>>)
    requires |before| == 0 && |order| == 0 && rowsOf == map[]
    ensures AllClassify(index, before) && RowCountsOk(index, before, NO_COUNTS)
    ensures DictionaryOk(RecordsOf(index, before), order, rowsOf)
  {
  }

  /** The loop over the rows. */
  method AuditRows(index: Index, rows: seq<Row>)
    returns (ok: bool, c: Counts, order: seq<Record>, rowsOf: map<Record, seq<nat>>)
    ensures ok <==> AllClassify(index, rows)
    ensures ok ==> RowCountsOk(index, rows, c) && DictionaryOk(RecordsOf(index, rows), order, rowsOf)
  {
    ok, c, order, rowsOf := true, NO_COUNTS, [], map[];
    NothingAudited(index, rows[..0], order, rowsOf);
    var i := 0;
    while i < |rows|
      invariant 0 <= i <= |rows| && ok && AllClassify(index, rows[..i])
      invariant RowCountsOk(index, rows[..i], c)
      invariant DictionaryOk(RecordsOf(index, rows[..i]), order, rowsOf)
    {
      ok, c, order, rowsOf := AuditRow(index, rows[..i], rows[i], c, order, rowsOf);
      if !ok {
        return;
      }
      assert rows[..i + 1] == rows[..i] + [rows[i]];
      i := i + 1;
    }
    assert rows[..i] == rows;
  }

  /** Classifies every row and lists, for each uniquely matched label record, the
      rows that matched it.  No rows, or one that cannot be classified, is an error. */
  method Audit(index: Index, rows: seq<Row>) returns (r: Result<Counts>, unreusedRows: set<nat>)
    ensures r.Ok? <==> rows != [] && AllClassify(index, rows)
    ensures r.Ok? ==> Summarized(index, rows, r.value, unreusedRows)
  {
    unreusedRows := {};
    var ok, c, order, rowsOf := AuditRows(index, rows);
    if !ok {
      return ValueError, unreusedRows;
    }
    if c.total == 0 {
      return ValueError, unreusedRows;
    }
    c, unreusedRows := Summarize(c, order, rowsOf, RecordsOf(index, rows));
    return Ok(c), unreusedRows;
  }

  /** The summary and the unreused rows, as sums over the dictionary. */
  ghost predicate Summarized(index: Index, rows: seq<Row>, c: Counts, unreusedRows: set<nat>) {
    var rs := RecordsOf(index, rows);
    && RowCountsOk(index, rows, c)
    && c.labelRecords == |Order(rs)|
    && c.reusedRecords == ReusedRecords(Sizes(rs)) && c.duplicateAssignments == Duplicates(Sizes(rs))
    && c.unreused == UnreusedRecords(Sizes(rs)) && c.reused == ReusedRows(Sizes(rs))
    && unreusedRows == SingleRows(rs, Order(rs))
  }

  /** The counters with one more row. */
  function CountRow(index: Index, ghost rows: seq<Row>, row: Row, c: Counts): (c': Counts)
    requires MatchOf(index, row).Ok? && RowCountsOk(index, rows, c)
    ensures RowCountsOk(index, rows + [row], c')
  {
    var m := MatchOf(index, row).value;
    assert (rows + [row])[..|rows|] == rows;
    c.(total := c.total + 1,
       unique := c.unique + if m.status == UNIQUE then 1 else 0,
       uniqueMalicious := c.uniqueMalicious + if m.status == UNIQUE && m.group == Some(MALICIOUS) then 1 else 0,
       uniqueBenign := c.uniqueBenign + if m.status == UNIQUE && m.group == Some(BENIGN) then 1 else 0,
       unmatched := c.unmatched + if m.status == UNMATCHED then 1 else 0,
       sameLabel := c.sameLabel + if m.status == AMBIGUOUS_SAME_LABEL then 1 else 0,
       conflictingLabels := c.conflictingLabels + if m.status == AMBIGUOUS_CONFLICTING_LABELS then 1 else 0)
  }

  /** The same, read off the dictionary. */
  function ListedSingles(rowsOf: map<Record, seq<nat>>, xs: seq<Record>): set<nat>
    requires forall x :: x in xs ==> x in rowsOf
  {
    if xs == [] then {}
    else
      var ns := rowsOf[xs[|xs| - 1]];
      ListedSingles(rowsOf, xs[..|xs| - 1]) + if |ns| == 1 then {ns[0]} else {}
  }

  /** The dictionary has the rows of these records. */
  ghost predicate Lists(rs: seq<Option<Record>>, xs: seq<Record>, rowsOf: map<Record, seq<nat>>) {
    forall x :: x in xs ==> x in rowsOf && rowsOf[x] == RowsOf(rs, x)
  }

  lemma {:induction false} ListedSinglesAre(rs: seq<Option<Record>>, xs: seq<Record>, rowsOf: map<Record, seq<nat>>)
    requires Lists(rs, xs, rowsOf)
    ensures ListedSingles(rowsOf, xs) == SingleRows(rs, xs)
  {
    if xs != [] {
      assert xs[|xs| - 1] in xs;
      ListedSinglesAre(rs, xs[..|xs| - 1], rowsOf);
    }
  }

  method FirstsOfSingles(order: seq<Record>, rowsOf: map<Record, seq<nat>>) returns (ns: set<nat>)
    requires forall x :: x in order ==> x in rowsOf
    ensures ns == ListedSingles(rowsOf, order)
  {
    ns := {};
    var j := 0;
    while j < |order|
      invariant 0 <= j <= |order| && ns == ListedSingles(rowsOf, order[..j])
    {
      assert order[..j + 1][..j] == order[..j];
      var rows := rowsOf[order[j]];
      if |rows| == 1 {
        ns := ns + {rows[0]};
      }
      j := j + 1;
    }
    assert order[..j] == order;
  }

  // ----- what the summary means ----------------------------------------------------------------------------

  lemma {:induction false} StatusesPartition(index: Index, rows: seq<Row>)
    requires AllClassify(index, rows)
    ensures CountStatus(index, rows, UNIQUE) + CountStatus(index, rows, UNMATCHED)
            + CountStatus(index, rows, AMBIGUOUS_SAME_LABEL)
            + CountStatus(index, rows, AMBIGUOUS_CONFLICTING_LABELS) == |rows|
  {
    if rows != [] {
      StatusesPartition(index, rows[..|rows| - 1]);
    }
  }

  lemma {:induction false} GroupsPartition(index: Index, rows: seq<Row>)
    requires AllClassify(index, rows)
    ensures CountStatus(index, rows, UNIQUE) == CountGroup(index, rows, MALICIOUS) + CountGroup(index, rows, BENIGN)
  {
    if rows != [] {
      GroupsPartition(index, rows[..|rows| - 1]);
    }
  }

  lemma {:induction false} UniqueAreMatched(index: Index, rows: seq<Row>)
    requires AllClassify(index, rows)
    ensures CountStatus(index, rows, UNIQUE) == Matched(RecordsOf(index, rows))
  {
    if rows != [] {
      var n := |rows| - 1;
      UniqueAreMatched(index, rows[..n]);
      assert RecordsOf(index, rows)[..n] == RecordsOf(index, rows[..n]);
    }
  }

  /** A row is in the unreused set exactly if it matches a label record that no
      other row matches, and the twelve counters fit together. */
  lemma AuditMeaning(index: Index, rows: seq<Row>, c: Counts, unreusedRows: set<nat>)
    requires AllClassify(index, rows) && Summarized(index, rows, c, unreusedRows)
    ensures forall n :: n in unreusedRows <==> Unshared(RecordsOf(index, rows), n)
    ensures c.total == c.unique + c.unmatched + c.sameLabel + c.conflictingLabels
    ensures c.unique == c.uniqueMalicious + c.uniqueBenign == c.unreused + c.reused
    ensures c.duplicateAssignments == c.unique - c.labelRecords
    ensures c.labelRecords == c.unreused + c.reusedRecords
    ensures |unreusedRows| == c.unreused
  {
    var rs := RecordsOf(index, rows);
    UnreusedMeaning(rs);
    StatusesPartition(index, rows);
    GroupsPartition(index, rows);
    UniqueAreMatched(index, rows);
    SizesSumUp(rs);
    SizesArePositive(rs);
    SumsAgree(Sizes(rs));
  }

  predicate HasStatus(index: Index, rows: seq<Row>, s: Status, i: nat) {
    i < |rows| && MatchOf(index, rows[i]).Ok? && MatchOf(index, rows[i]).value.status == s
  }

  predicate HasGroup(index: Index, rows: seq<Row>, g: LabelGroup, i: nat) {
    HasStatus(index, rows, UNIQUE, i) && MatchOf(index, rows[i]).value.group == Some(g)
  }

  /** The rows with a match of this status. */
  ghost function RowsWith(index: Index, rows: seq<Row>, s: Status): set<nat> {
    set i | 0 <= i < |rows| && HasStatus(index, rows, s, i)
  }

  /** The rows that match one label uniquely, of this group. */
  ghost function RowsOfGroup(index: Index, rows: seq<Row>, g: LabelGroup): set<nat> {
    set i | 0 <= i < |rows| && HasGroup(index, rows, g, i)
  }

  lemma OneMore(before: set<nat>, after: set<nat>, n: nat)
    requires forall i: nat :: i in before <==> i < n && i in after
    requires forall i: nat :: i in after ==> i <= n
    ensures |after| == |before| + if n in after then 1 else 0
  {
    if n in after {
      assert after == before + {n};
    } else {
      assert after == before;
    }
  }

  lemma {:induction false} StatusesCount(index: Index, rows: seq<Row>, s: Status)
    ensures CountStatus(index, rows, s) == |RowsWith(index, rows, s)|
  {
    if rows != [] {
      var n := |rows| - 1;
      StatusesCount(index, rows[..n], s);
      forall i: nat
        ensures HasStatus(index, rows[..n], s, i) <==> i < n && HasStatus(index, rows, s, i)
      {
      }
      OneMore(RowsWith(index, rows[..n], s), RowsWith(index, rows, s), n);
      assert n in RowsWith(index, rows, s) <==> HasStatus(index, rows, s, n);
    }
  }

  lemma {:induction false} GroupsCount(index: Index, rows: seq<Row>, g: LabelGroup)
    ensures CountGroup(index, rows, g) == |RowsOfGroup(index, rows, g)|
  {
    if rows != [] {
      var n := |rows| - 1;
      GroupsCount(index, rows[..n], g);
      forall i: nat
        ensures HasGroup(index, rows[..n], g, i) <==> i < n && HasGroup(index, rows, g, i)
      {
      }
      OneMore(RowsOfGroup(index, rows[..n], g), RowsOfGroup(index, rows, g), n);
      assert n in RowsOfGroup(index, rows, g) <==> HasGroup(index, rows, g, n);
    }
  }

  /** The label records that some row matches uniquely. */
  ghost function MatchedRecords(rs: seq<Option<Record>>): set<Record> {
    set i | 0 <= i < |rs| && rs[i].Some? :: rs[i].value
  }

  lemma OrderCounts(rs: seq<Option<Record>>)
    ensures |Order(rs)| == |MatchedRecords(rs)|
  {
    OrderMeaning(rs);
    forall x
      ensures x in Order(rs) <==> x in MatchedRecords(rs)
    {
      if Some(x) in rs {
        var i :| 0 <= i < |rs| && rs[i] == Some(x);
      }
    }
    DistinctCount(Order(rs), MatchedRecords(rs));
  }

  lemma {:induction false} DistinctCount<T>(xs: seq<T>, all: set<T>)
    requires (forall i, j | 0 <= i < j < |xs| :: xs[i] != xs[j]) && forall x :: x in xs <==> x in all
    ensures |xs| == |all|
  {
    if xs == [] {
      assert all == {};
    } else {
      var n := |xs| - 1;
      assert xs == xs[..n] + [xs[n]];
      DistinctCount(xs[..n], all - {xs[n]});
    }
  }

  /** Each counter is the number of rows, or of label records, that it names. */
  lemma CountersMeaning(index: Index, rows: seq<Row>, c: Counts, unreusedRows: set<nat>)
    requires AllClassify(index, rows) && Summarized(index, rows, c, unreusedRows)
    ensures c.total == |rows| && c.unique == |RowsWith(index, rows, UNIQUE)|
    ensures c.unmatched == |RowsWith(index, rows, UNMATCHED)|
    ensures c.sameLabel == |RowsWith(index, rows, AMBIGUOUS_SAME_LABEL)|
    ensures c.conflictingLabels == |RowsWith(index, rows, AMBIGUOUS_CONFLICTING_LABELS)|
    ensures c.uniqueMalicious == |RowsOfGroup(index, rows, MALICIOUS)|
    ensures c.uniqueBenign == |RowsOfGroup(index, rows, BENIGN)|
    ensures c.labelRecords == |MatchedRecords(RecordsOf(index, rows))|
  {
    StatusesCount(index, rows, UNIQUE);
    StatusesCount(index, rows, UNMATCHED);
    StatusesCount(index, rows, AMBIGUOUS_SAME_LABEL);
    StatusesCount(index, rows, AMBIGUOUS_CONFLICTING_LABELS);
    GroupsCount(index, rows, MALICIOUS);
    GroupsCount(index, rows, BENIGN);
    OrderCounts(RecordsOf(index, rows));
  }

  /** The rows that the dictionary lists alone are those that share their record with no other. */
  lemma UnreusedMeaning(rs: seq<Option<Record>>)
    ensures forall n :: n in SingleRows(rs, Order(rs)) <==> Unshared(rs, n)
    ensures |SingleRows(rs, Order(rs))| == UnreusedRecords(Sizes(rs))
  {
    OrderMeaning(rs);
    SingleRowsMeaning(rs, Order(rs));
    SingleRowsCount(rs, Order(rs), Sizes(rs));
    forall n | Unshared(rs, n)
      ensures rs[n - 1].value in Order(rs)
    {
      assert rs[n - 1] in rs;
    }
  }

  lemma SizesArePositive(rs: seq<Option<Record>>)
    ensures forall i :: 0 <= i < |Sizes(rs)| ==> Sizes(rs)[i] > 0
  {
    OrderMeaning(rs);
    forall i | 0 <= i < |Sizes(rs)|
      ensures Sizes(rs)[i] > 0
    {
      var x := Order(rs)[i];
      RowsOfMeaning(rs, x);
      assert x in Order(rs);
      var j :| 0 <= j < |rs| && rs[j] == Some(x);
      assert IsRow(rs, j + 1, x);
    }
  }

  // ----- the second pass -------------------------------------------------------------------------------------

  /** The review status of a row; asking about a row of the unreused set with
      another match status is an error. */
  datatype Review = UNIQUE_UNREUSED_CANDIDATE | UNIQUE_REUSED | NOT_UNIQUE

  function ReviewOf(n: int, status: Status, unreusedRows: set<nat>): Result<Review> {
    if n < 1 then ValueError
    else if n in unreusedRows then
      if status != UNIQUE then ValueError else Ok(UNIQUE_UNREUSED_CANDIDATE)
    else if status == UNIQUE then Ok(UNIQUE_REUSED)
    else Ok(NOT_UNIQUE)
  }

  /** With the set computed from the same rows the review never fails, and it
      sorts the rows into the three kinds. */
  lemma ReviewMeaning(index: Index, rows: seq<Row>, n: nat, unreusedRows: set<nat>)
    requires AllClassify(index, rows) && 1 <= n <= |rows|
    requires forall m :: m in unreusedRows <==> Unshared(RecordsOf(index, rows), m)
    ensures var rs, r := RecordsOf(index, rows), ReviewOf(n, MatchOf(index, rows[n - 1]).value.status, unreusedRows);
            && r.Ok?
            && (r.value == UNIQUE_UNREUSED_CANDIDATE <==> Unshared(rs, n))
            && (r.value == UNIQUE_REUSED <==>
                  rs[n - 1].Some? && exists m :: 0 <= m < |rs| && m != n - 1 && rs[m] == rs[n - 1])
            && (r.value == NOT_UNIQUE <==> rs[n - 1].None?)
  {
  }

  /** The time relation of a row to the label it alone matched. */
  function RelationOf(index: Index, row: Row): Result<Relation> {
    var x := RecordOf(index, row);
    if x.None? then ValueError else Boundary(row.first, row.last, LabelsOf(index, row.key)[x.value.candidate])
  }

  function RelationsOf(index: Index, rows: seq<Row>): (rels: seq<Result<Relation>>)
    ensures |rels| == |rows|
  {
    seq(|rows|, i requires 0 <= i < |rows| => RelationOf(index, rows[i]))
  }

  /** How many of the rows in `ns` have the relation. */
  function CountRelation(rels: seq<Result<Relation>>, ns: set<nat>, rel: Relation): nat {
    if rels == [] then 0
    else CountRelation(rels[..|rels| - 1], ns, rel) + if |rels| in ns && rels[|rels| - 1] == Ok(rel) then 1 else 0
  }

  /** The interval of row `n`, counting from 1, is exactly its label's. */
  predicate IsExact(rels: seq<Result<Relation>>, n: int) {
    1 <= n <= |rels| && rels[n - 1] == Ok(EXACT)
  }

  /** The rows of `ns` whose interval is exactly their label's. */
  function ExactRows(rels: seq<Result<Relation>>, ns: set<nat>): set<nat> {
    if rels == [] then {}
    else
      ExactRows(rels[..|rels| - 1], ns)
      + if |rels| in ns && rels[|rels| - 1] == Ok(EXACT) then {|rels| as nat} else {}
  }

  lemma {:induction false} ExactRowsMeaning(rels: seq<Result<Relation>>, ns: set<nat>)
    ensures forall n :: n in ExactRows(rels, ns) <==> n in ns && IsExact(rels, n)
    ensures |ExactRows(rels, ns)| == CountRelation(rels, ns, EXACT)
  {
    if rels != [] {
      var n := |rels|;
      ExactRowsMeaning(rels[..n - 1], ns);
      forall m
        ensures IsExact(rels[..n - 1], m) <==> m < n && IsExact(rels, m)
      {
        if 1 <= m < n {
          assert rels[..n - 1][m - 1] == rels[m - 1];
        }
      }
    }
  }

  predicate IsRelated(rels: seq<Result<Relation>>, rel: Relation, n: nat) {
    1 <= n <= |rels| && rels[n - 1] == Ok(rel)
  }

  /** The unreused rows whose interval relates to their label's in this way. */
  ghost function UnreusedWith(rs: seq<Option<Record>>, rels: seq<Result<Relation>>, rel: Relation): set<nat> {
    set n | 1 <= n <= |rs| && Unshared(rs, n) && IsRelated(rels, rel, n)
  }

  lemma {:induction false} RelationsCount(rels: seq<Result<Relation>>, ns: set<nat>, rel: Relation, all: set<nat>)
    requires forall n: nat :: n in all <==> n in ns && IsRelated(rels, rel, n)
    ensures CountRelation(rels, ns, rel) == |all|
  {
    if rels == [] {
      assert all == {};
    } else {
      var k := |rels| - 1;
      var before := set n | n in all && n <= k;
      forall n: nat
        ensures IsRelated(rels[..k], rel, n) <==> n <= k && IsRelated(rels, rel, n)
      {
      }
      RelationsCount(rels[..k], ns, rel, before);
      OneMore(before, all, k + 1);
      assert k + 1 in all <==> k + 1 in ns && IsRelated(rels, rel, k + 1);
    }
  }

  const RELATIONS := {EXACT, FLOW_INSIDE_LABEL, LABEL_INSIDE_FLOW, PARTIAL_OVERLAP, DISJOINT}

  lemma EveryRelation(rel: Relation)
    ensures rel in RELATIONS
  {
    match rel
    case EXACT =>
    case FLOW_INSIDE_LABEL =>
    case LABEL_INSIDE_FLOW =>
    case PARTIAL_OVERLAP =>
    case DISJOINT =>
  }

  /** The second pass after rows with these relations. */
  ghost predicate Related(rels: seq<Result<Relation>>, ns: set<nat>, relations: map<Relation, nat>,
                          exactRows: set<nat>) {
    && relations.Keys == RELATIONS
    && (forall rel :: rel in RELATIONS ==> relations[rel] == CountRelation(rels, ns, rel))
    && exactRows == ExactRows(rels, ns)
  }

  lemma RelatedStep(rels: seq<Result<Relation>>, r: Result<Relation>, ns: set<nat>, relations: map<Relation, nat>,
                    exactRows: set<nat>)
    requires Related(rels, ns, relations, exactRows)
    ensures |rels| + 1 !in ns ==> Related(rels + [r], ns, relations, exactRows)
    ensures |rels| + 1 in ns && r.Ok? ==>
              && r.value in relations
              && Related(rels + [r], ns, relations[r.value := relations[r.value] + 1],
                         if r.value == EXACT then exactRows + {|rels| + 1} else exactRows)
  {
    assert (rels + [r])[..|rels|] == rels;
    if r.Ok? {
      EveryRelation(r.value);
    }
  }

  /** The rows of `ns` among the first `n`. */
  function UpTo(ns: set<nat>, n: nat): set<nat> {
    set m | m in ns && 1 <= m <= n
  }

  /** All rows of `ns` have a relation, and not "disjoint". */
  ghost predicate AllRelate(rels: seq<Result<Relation>>, ns: set<nat>) {
    forall n :: n in ns && 1 <= n <= |rels| ==> RelatesAt(rels, n)
  }

  predicate RelatesAt(rels: seq<Result<Relation>>, n: int) {
    1 <= n <= |rels| && rels[n - 1].Ok? && rels[n - 1].value != DISJOINT
  }

  lemma AllRelateBefore(rels: seq<Result<Relation>>, ns: set<nat>)
    requires AllRelate(rels, ns) && rels != []
    ensures AllRelate(rels[..|rels| - 1], ns)
    ensures |rels| in ns ==> RelatesAt(rels, |rels|)
  {
    forall m | m in ns && 1 <= m <= |rels| - 1
      ensures RelatesAt(rels[..|rels| - 1], m)
    {
      assert RelatesAt(rels, m);
    }
  }

  lemma UpToNext(ns: set<nat>, n: nat)
    requires n > 0
    ensures |UpTo(ns, n)| == |UpTo(ns, n - 1)| + if n in ns then 1 else 0
  {
    if n in ns {
      assert UpTo(ns, n) == UpTo(ns, n - 1) + {n};
    } else {
      assert UpTo(ns, n) == UpTo(ns, n - 1);
    }
  }

  lemma {:induction false} RelationsAddUp(rels: seq<Result<Relation>>, ns: set<nat>)
    requires AllRelate(rels, ns)
    ensures CountRelation(rels, ns, DISJOINT) == 0
    ensures CountRelation(rels, ns, EXACT) + CountRelation(rels, ns, FLOW_INSIDE_LABEL)
            + CountRelation(rels, ns, LABEL_INSIDE_FLOW) + CountRelation(rels, ns, PARTIAL_OVERLAP)
            == |UpTo(ns, |rels|)|
  {
    if rels == [] {
      assert UpTo(ns, 0) == {};
    } else {
      AllRelateBefore(rels, ns);
      UpToNext(ns, |rels|);
      RelationsAddUp(rels[..|rels| - 1], ns);
    }
  }

  /** A uniquely matched row has a relation to its label, and not "disjoint". */
  lemma UnsharedRowsRelate(index: Index, row: Row)
    requires ValidIndex(index) && RecordOf(index, row).Some?
    ensures RelationOf(index, row).Ok? && RelationOf(index, row).value != DISJOINT && row.key in index
  {
    BoundaryMeaning(row.first, row.last, LabelsOf(index, row.key)[RecordOf(index, row).value.candidate]);
  }

  lemma UnreusedRelate(index: Index, rows: seq<Row>, ns: set<nat>)
    requires ValidIndex(index) && forall n :: n in ns <==> Unshared(RecordsOf(index, rows), n)
    ensures AllRelate(RelationsOf(index, rows), ns) && UpTo(ns, |rows|) == ns
  {
    forall n | n in ns && 1 <= n <= |rows|
      ensures RelatesAt(RelationsOf(index, rows), n)
    {
      UnsharedRowsRelate(index, rows[n - 1]);
    }
  }

  lemma RelationsGrow(index: Index, rows: seq<Row>, i: nat)
    requires i < |rows|
    ensures RelationsOf(index, rows[..i + 1]) == RelationsOf(index, rows[..i]) + [RelationOf(index, rows[i])]
  {
  }

  /** One unreused row of the second pass. */
  method Relate(index: Index, row: Row) returns (r: Result<Relation>)
    requires ValidIndex(index) && RecordOf(index, row).Some?
    ensures r.Ok? && r == RelationOf(index, row)
  {
    UnsharedRowsRelate(index, row);
    var m := MatchOf(index, row);
    if m == ValueError || m.value.status != UNIQUE || m.value.candidate.None? {
      return ValueError;
    }
    r := Boundary(row.first, row.last, index[row.key][m.value.candidate.value]);
    if r == Ok(DISJOINT) {
      return ValueError;
    }
  }

  /** Relates each unreused row to its label.  On unchanged input and valid label
      intervals it fails only where the first pass does; its counts add up to the
      unreused rows, none of them disjoint. */
  method AuditBoundaries(index: Index, rows: seq<Row>)
    returns (r: Result<Counts>, relations: map<Relation, nat>, exactRows: set<nat>)
    requires ValidIndex(index)
    ensures r.Ok? <==> rows != [] && AllClassify(index, rows)
    ensures r.Ok? ==>
              && relations.Keys == RELATIONS && relations[DISJOINT] == 0
              && (forall rel :: rel in relations ==>
                    relations[rel] == |UnreusedWith(RecordsOf(index, rows), RelationsOf(index, rows), rel)|)
              && relations[EXACT] + relations[FLOW_INSIDE_LABEL] + relations[LABEL_INSIDE_FLOW]
                 + relations[PARTIAL_OVERLAP] == r.value.unreused
              && |exactRows| == relations[EXACT]
              && forall n :: n in exactRows <==>
                   Unshared(RecordsOf(index, rows), n) && IsExact(RelationsOf(index, rows), n)
  {
    var candidateRows;
    r, candidateRows := Audit(index, rows);
    relations, exactRows := map[], {};
    if r == ValueError {
      return;
    }
    AuditMeaning(index, rows, r.value, candidateRows);
    relations, exactRows := RelateRows(index, rows, candidateRows);
    BoundaryTotals(index, rows, candidateRows, relations, exactRows);
    if relations[EXACT] + relations[FLOW_INSIDE_LABEL] + relations[LABEL_INSIDE_FLOW] + relations[PARTIAL_OVERLAP]
       + relations[DISJOINT] != r.value.unreused {
      return ValueError, relations, exactRows;
    }
    if |exactRows| != relations[EXACT] {
      return ValueError, relations, exactRows;
    }
  }

  lemma BoundaryTotals(index: Index, rows: seq<Row>, ns: set<nat>, relations: map<Relation, nat>, exactRows: set<nat>)
    requires ValidIndex(index) && forall n :: n in ns <==> Unshared(RecordsOf(index, rows), n)
    requires Related(RelationsOf(index, rows), ns, relations, exactRows)
    ensures relations[DISJOINT] == 0
    ensures relations[EXACT] + relations[FLOW_INSIDE_LABEL] + relations[LABEL_INSIDE_FLOW]
            + relations[PARTIAL_OVERLAP] == |ns|
    ensures |exactRows| == relations[EXACT]
    ensures forall rel :: rel in relations ==>
              relations[rel] == |UnreusedWith(RecordsOf(index, rows), RelationsOf(index, rows), rel)|
    ensures forall n :: n in exactRows <==> Unshared(RecordsOf(index, rows), n) && IsExact(RelationsOf(index, rows), n)
  {
    var rels := RelationsOf(index, rows);
    UnreusedRelate(index, rows, ns);
    RelationsAddUp(rels, ns);
    ExactRowsMeaning(rels, ns);
    forall rel | rel in relations
      ensures relations[rel] == |UnreusedWith(RecordsOf(index, rows), rels, rel)|
    {
      RelationsCount(rels, ns, rel, UnreusedWith(RecordsOf(index, rows), rels, rel));
    }
  }

  /** The second pass over the rows; it never meets an unreused row that is no
      longer uniquely matched. */
  method RelateRows(index: Index, rows: seq<Row>, ns: set<nat>)
    returns (relations: map<Relation, nat>, exactRows: set<nat>)
    requires ValidIndex(index) && forall n :: n in ns <==> Unshared(RecordsOf(index, rows), n)
    ensures Related(RelationsOf(index, rows), ns, relations, exactRows)
  {
    relations, exactRows := NoRelations(RelationsOf(index, rows[..0]), ns);
    var i := 0;
    while i < |rows|
      invariant 0 <= i <= |rows| && Related(RelationsOf(index, rows[..i]), ns, relations, exactRows)
    {
      RelationsGrow(index, rows, i);
      if i + 1 in ns {
        UnsharedMatches(index, rows, i);
      }
      relations, exactRows := RelateRow(index, RelationsOf(index, rows[..i]), rows[i], i + 1, ns, relations, exactRows);
      i := i + 1;
    }
    assert rows[..i] == rows;
  }

  /** Row `n` of the second pass. */
  method RelateRow(index: Index, ghost rels: seq<Result<Relation>>, row: Row, n: nat, ns: set<nat>,
                   relations: map<Relation, nat>, exactRows: set<nat>)
    returns (relations': map<Relation, nat>, exactRows': set<nat>)
    requires ValidIndex(index) && Related(rels, ns, relations, exactRows) && n == |rels| + 1
    requires n in ns ==> RecordOf(index, row).Some?
    ensures Related(rels + [RelationOf(index, row)], ns, relations', exactRows')
  {
    relations', exactRows' := relations, exactRows;
    ghost var r := RelationOf(index, row);
    RelatedStep(rels, r, ns, relations, exactRows);
    if n in ns {
      var relation := Relate(index, row);
      relations' := relations[relation.value := relations[relation.value] + 1];
      if relation.value == EXACT {
        exactRows' := exactRows + {n};
      }
    }
  }

  /** All five counters at zero. */
  method NoRelations(ghost rels: seq<Result<Relation>>, ghost ns: set<nat>)
    returns (relations: map<Relation, nat>, exactRows: set<nat>)
    requires rels == []
    ensures Related(rels, ns, relations, exactRows)
  {
    relations, exactRows :=
      map[EXACT := 0, FLOW_INSIDE_LABEL := 0, LABEL_INSIDE_FLOW := 0, PARTIAL_OVERLAP := 0, DISJOINT := 0], {};
  }

  lemma UnsharedMatches(index: Index, rows: seq<Row>, i: nat)
    requires i < |rows| && Unshared(RecordsOf(index, rows), i + 1)
    ensures RecordOf(index, rows[i]).Some?
  {
  }
}
