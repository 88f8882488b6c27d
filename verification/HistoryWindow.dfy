// From the collected messages of a lineage to the window a request sees:
// ordering, status filter, compaction checkpoint and limit.
module HistoryWindow {
  import opened Wrappers
  import opened JsonValues
  import opened Sequences
  import opened ForkHistory

  /* ---------- Ordering ---------- */

  // An absent creation time orders before every present one.
  predicate TimeBefore(a: Option<int>, b: Option<int>) {
    b.Some? && (a.None? || a.value < b.value)
  }

  // The order (message id, creation time, subtask id).
  predicate Leq(a: SubtaskRow, b: SubtaskRow) {
    || a.messageId < b.messageId
    || (a.messageId == b.messageId &&
        (TimeBefore(a.createdAt, b.createdAt) || (a.createdAt == b.createdAt && a.id <= b.id)))
  }

  ghost predicate Ordered(rows: seq<SubtaskRow>) {
    forall i, j :: 0 <= i < j < |rows| ==> Leq(rows[i], rows[j])
  }

  // Place `row` after every row it does not precede.
  function Insert(rows: seq<SubtaskRow>, row: SubtaskRow): seq<SubtaskRow> {
    if rows == [] || Leq(rows[|rows| - 1], row) then rows + [row]
    else Insert(rows[..|rows| - 1], row) + [rows[|rows| - 1]]
  }

  // The stable sort by `Leq`.
  function Sort(rows: seq<SubtaskRow>): seq<SubtaskRow> {
    if rows == [] then [] else Insert(Sort(rows[..|rows| - 1]), rows[|rows| - 1])
  }

  lemma {:induction false} InsertMultiset(rows: seq<SubtaskRow>, row: SubtaskRow)
    ensures multiset(Insert(rows, row)) == multiset(rows) + multiset{row}
  {
    if rows != [] && !Leq(rows[|rows| - 1], row) {
      var rest, last := rows[..|rows| - 1], rows[|rows| - 1];
      InsertMultiset(rest, row);
      assert rows == rest + [last];
    }
  }

  lemma {:induction false} InsertOrdered(rows: seq<SubtaskRow>, row: SubtaskRow)
    requires Ordered(rows)
    ensures Ordered(Insert(rows, row))
  {
    if rows != [] && !Leq(rows[|rows| - 1], row) {
      var rest, last := rows[..|rows| - 1], rows[|rows| - 1];
      InsertOrdered(rest, row);
      var inserted := Insert(rest, row);
      forall i | 0 <= i < |inserted|
        ensures Leq(inserted[i], last)
      {
        InsertMultiset(rest, row);
        assert inserted[i] in multiset(inserted);
        assert inserted[i] == row || inserted[i] in rest;
      }
    }
  }

  // Sorting yields an ordered permutation.
  lemma {:induction false} SortLaw(rows: seq<SubtaskRow>)
    ensures Ordered(Sort(rows)) && multiset(Sort(rows)) == multiset(rows)
  {
    if rows != [] {
      var rest, last := rows[..|rows| - 1], rows[|rows| - 1];
      SortLaw(rest);
      InsertOrdered(Sort(rest), last);
      InsertMultiset(Sort(rest), last);
      assert rows == rest + [last];
    }
  }

  // When no two rows share an id there is only one ordered permutation.
  lemma {:induction false} OrderedPermutationUnique(a: seq<SubtaskRow>, b: seq<SubtaskRow>)
    requires Ordered(a) && Ordered(b) && multiset(a) == multiset(b)
    requires forall x <- a, y <- a :: x.id == y.id ==> x == y
    ensures a == b
  {
    assert |multiset(a)| == |multiset(b)|;
    if a != [] {
      var n := |a| - 1;
      SameMaximum(a, b);
      RemoveLast(a);
      RemoveLast(b);
      assert forall x <- a[..n] :: x in a;
      OrderedPermutationUnique(a[..n], b[..n]);
    }
  }

  lemma RemoveLast(a: seq<SubtaskRow>)
    requires a != []
    ensures multiset(a[..|a| - 1]) == multiset(a) - multiset{a[|a| - 1]}
    ensures Ordered(a) ==> Ordered(a[..|a| - 1])
    ensures a == a[..|a| - 1] + [a[|a| - 1]]
  {
    assert a == a[..|a| - 1] + [a[|a| - 1]];
  }

  lemma SameMaximum(a: seq<SubtaskRow>, b: seq<SubtaskRow>)
    requires Ordered(a) && Ordered(b) && multiset(a) == multiset(b) && a != [] && b != []
    requires forall x <- a, y <- a :: x.id == y.id ==> x == y
    ensures a[|a| - 1] == b[|b| - 1]
  {
    var x, y := a[|a| - 1], b[|b| - 1];
    assert y in multiset(a) && x in multiset(b);
    var i :| 0 <= i < |a| && a[i] == y;
    var j :| 0 <= j < |b| && b[j] == x;
    assert Leq(a[i], x) && Leq(b[j], y);
  }

  lemma {:induction false} FilterOrdered(rows: seq<SubtaskRow>, p: SubtaskRow -> bool)
    requires Ordered(rows)
    ensures Ordered(Filter(rows, p))
  {
    if rows != [] {
      FilterOrdered(rows[1..], p);
      FilterMembers(rows[1..], p);
      assert forall row <- rows[1..] :: Leq(rows[0], row);
    }
  }

  lemma FilterSplitLast(rows: seq<SubtaskRow>, p: SubtaskRow -> bool)
    requires rows != []
    ensures var last := |rows| - 1;
            Filter(rows, p) == Filter(rows[..last], p) + (if p(rows[last]) then [rows[last]] else [])
  {
    hide Filter;
    var last := |rows| - 1;
    FilterStep(rows, last, p);
    assert rows[..last + 1] == rows;
    assert Filter(rows[..last + 1], p) == Filter(rows, p);
    assert Filter(rows[..last + 1], p) == Filter(rows[..last], p) + (if p(rows[last]) then [rows[last]] else []);
  }

  lemma {:induction false} FilterInsert(rows: seq<SubtaskRow>, row: SubtaskRow, p: SubtaskRow -> bool)
    requires Ordered(rows)
    ensures Filter(Insert(rows, row), p)
            == if p(row) then Insert(Filter(rows, p), row) else Filter(rows, p)
  {
    if rows == [] || Leq(rows[|rows| - 1], row) {
      FilterInsertLast(rows, row, p);
    } else {
      FilterInsert(rows[..|rows| - 1], row, p);
      FilterInsertInside(rows, row, p);
    }
  }

  lemma FilterInsertLast(rows: seq<SubtaskRow>, row: SubtaskRow, p: SubtaskRow -> bool)
    requires Ordered(rows) && (rows == [] || Leq(rows[|rows| - 1], row))
    ensures Filter(rows + [row], p) == if p(row) then Insert(Filter(rows, p), row) else Filter(rows, p)
  {
    FilterConcat(rows, [row], p);
    FilterOne(row, p);
    FilterMembers(rows, p);
    hide Filter;
    var kept := Filter(rows, p);
    if kept != [] {
      var top := kept[|kept| - 1];
      assert top in rows;
      assert Leq(top, row);
    }
    assert kept + [] == kept;
  }

  lemma FilterInsertInside(rows: seq<SubtaskRow>, row: SubtaskRow, p: SubtaskRow -> bool)
    requires rows != [] && !Leq(rows[|rows| - 1], row)
    requires var rest := rows[..|rows| - 1];
             Filter(Insert(rest, row), p) == if p(row) then Insert(Filter(rest, p), row) else Filter(rest, p)
    ensures Filter(Insert(rows, row), p)
            == if p(row) then Insert(Filter(rows, p), row) else Filter(rows, p)
  {
    var rest, last := rows[..|rows| - 1], rows[|rows| - 1];
    FilterSplitLast(rows, p);
    FilterConcat(Insert(rest, row), [last], p);
    FilterOne(last, p);
    hide Filter;
    var kept := Filter(rest, p);
    assert Insert(rows, row) == Insert(rest, row) + [last];
    if p(last) {
      assert (kept + [last])[..|kept|] == kept;
      assert Insert(kept + [last], row) == Insert(kept, row) + [last];
    } else {
      assert kept + [] == kept;
      assert Filter(Insert(rest, row), p) + [] == Filter(Insert(rest, row), p);
    }
  }

  lemma FilterOne(row: SubtaskRow, p: SubtaskRow -> bool)
    ensures Filter([row], p) == if p(row) then [row] else []
  {
    assert [row][1..] == [];
  }

  // Selecting before or after sorting makes no difference.
  lemma {:induction false} SortFilter(rows: seq<SubtaskRow>, p: SubtaskRow -> bool)
    ensures Filter(Sort(rows), p) == Sort(Filter(rows, p))
  {
    if rows != [] {
      var rest, last := rows[..|rows| - 1], rows[|rows| - 1];
      SortFilter(rest, p);
      SortLaw(rest);
      FilterInsert(Sort(rest), last, p);
      FilterSplitLast(rows, p);
      hide Filter;
      var kept := Filter(rest, p);
      assert (kept + [last])[..|kept|] == kept;
      assert kept + [] == kept;
    }
  }

  /* ---------- The rows a window chooses from ---------- */

  predicate InHistory(row: SubtaskRow) {
    row.status in {"COMPLETED", "CANCELLED", "FAILED"}
  }

  function Eligible(store: Store, nodes: seq<Node>, before: Option<int>): seq<SubtaskRow> {
    Filter(Sort(Collect(store, nodes, before)), InHistory)
  }

  lemma EligibleMembers(store: Store, nodes: seq<Node>, before: Option<int>, row: SubtaskRow)
    ensures row in Eligible(store, nodes, before) <==>
            row in Collect(store, nodes, before)
            && (row.status == "COMPLETED" || row.status == "CANCELLED" || row.status == "FAILED")
  {
    hide Collect, Sort, Filter, Ordered;
    var rows := Collect(store, nodes, before);
    SortLaw(rows);
    FilterMembers(Sort(rows), InHistory);
    assert row in rows <==> row in multiset(rows);
    assert row in Sort(rows) <==> row in multiset(Sort(rows));
  }

  lemma EligibleOrdered(store: Store, nodes: seq<Node>, before: Option<int>)
    ensures Ordered(Eligible(store, nodes, before))
  {
    SortLaw(Collect(store, nodes, before));
    FilterOrdered(Sort(Collect(store, nodes, before)), InHistory);
  }

  lemma {:induction false} CollectBefore(store: Store, nodes: seq<Node>, before: Option<int>)
    ensures Collect(store, nodes, before) == Filter(Collect(store, nodes, None), Earlier(before))
  {
    if nodes != [] {
      CollectBefore(store, nodes[1..], before);
      var rows, cutoff := store.ListSubtasks(nodes[0].taskId), nodes[0].cutoff;
      FilterFilter(rows, Admits(cutoff, None), Earlier(before), Admits(cutoff, before));
      FilterConcat(Share(store, nodes[0], None), Collect(store, nodes[1..], None), Earlier(before));
    }
  }

  // Bounding the message id before collecting or after sorting and selecting
  // yields the same rows.
  lemma EligibleBefore(store: Store, nodes: seq<Node>, before: Option<int>)
    ensures Eligible(store, nodes, before) == Filter(Eligible(store, nodes, None), Earlier(before))
  {
    var all, earlier := Collect(store, nodes, None), Earlier(before);
    CollectBefore(store, nodes, before);
    SortFilter(all, earlier);
    var both := (row: SubtaskRow) => earlier(row) && InHistory(row);
    FilterFilter(Sort(all), earlier, InHistory, both);
    FilterFilter(Sort(all), InHistory, earlier, both);
  }

  /* ---------- The compaction checkpoint ---------- */

  // The chain entry carries `additional_kwargs.summary_compacted: true`.
  predicate MarksSummary(msg: Json) {
    var kwargs := Get(msg, "additional_kwargs");
    && kwargs.Some?
    && kwargs.value.Obj?
    && Get(kwargs.value, "summary_compacted") == Some(Bool(true))
  }

  function Chain(row: SubtaskRow): Option<seq<Json>> {
    if row.result.None? then None
    else match Get(row.result.value, "messages_chain")
      case Some(Arr(items)) => Some(items)
      case _ => None
  }

  predicate HasSummaryCheckpoint(row: SubtaskRow) {
    && row.role == "ASSISTANT"
    && row.status == "COMPLETED"
    && Chain(row).Some?
    && exists msg <- Chain(row).value :: MarksSummary(msg)
  }

  ghost predicate IsLatestCheckpoint(rows: seq<SubtaskRow>, index: Option<nat>) {
    match index
    case None => forall row <- rows :: !HasSummaryCheckpoint(row)
    case Some(k) =>
      && k < |rows|
      && HasSummaryCheckpoint(rows[k])
      && forall i :: k < i < |rows| ==> !HasSummaryCheckpoint(rows[i])
  }

  function LatestCheckpoint(rows: seq<SubtaskRow>): (index: Option<nat>)
    ensures IsLatestCheckpoint(rows, index)
  {
    if rows == [] then None
    else
      var last := |rows| - 1;
      if HasSummaryCheckpoint(rows[last]) then Some(last)
      else
        assert forall row <- rows :: row == rows[last] || row in rows[..last];
        LatestCheckpoint(rows[..last])
  }

  method ScopeToLatestCheckpoint(rows: seq<SubtaskRow>) returns (scoped: seq<SubtaskRow>, index: Option<nat>)
    ensures index == LatestCheckpoint(rows)
    ensures scoped == if index.Some? then rows[index.value..] else rows
  {
    index := None;
    for i := 0 to |rows|
      invariant index == LatestCheckpoint(rows[..i])
    {
      assert rows[..i + 1][..i] == rows[..i];
      if HasSummaryCheckpoint(rows[i]) {
        index := Some(i);
      }
    }
    assert rows[..|rows|] == rows;
    scoped := if index.Some? then rows[index.value..] else rows;
  }

  /* ---------- The limit ---------- */

  // Keep the most recent `limit` rows; when the window starts at a checkpoint,
  // the checkpoint and the most recent `limit - 1` rows after it.
  function ApplyLimit(rows: seq<SubtaskRow>, limit: Option<int>, fromCheckpoint: bool): seq<SubtaskRow> {
    if limit.None? || limit.value <= 0 || rows == [] then rows
    else if fromCheckpoint then
      var keep := limit.value - 1;
      if keep == 0 then rows[..1]
      else if keep >= |rows| - 1 then rows
      else rows[..1] + rows[|rows| - keep..]
    else
      rows[if limit.value <= |rows| then |rows| - limit.value else 0..]
  }

  ghost function WindowSize(available: nat, limit: Option<int>): nat {
    if limit.Some? && 0 < limit.value < available then limit.value else available
  }

  ghost predicate IsWindow(rows: seq<SubtaskRow>, limit: Option<int>, fromCheckpoint: bool, window: seq<SubtaskRow>) {
    && |window| == WindowSize(|rows|, limit)
    && (if fromCheckpoint && rows != [] then
          window[0] == rows[0] && window[1..] == rows[|rows| - (|window| - 1)..]
        else
          window == rows[|rows| - |window|..])
  }

  lemma LimitLaw(rows: seq<SubtaskRow>, limit: Option<int>, fromCheckpoint: bool)
    ensures IsWindow(rows, limit, fromCheckpoint, ApplyLimit(rows, limit, fromCheckpoint))
    ensures IsSubsequence(ApplyLimit(rows, limit, fromCheckpoint), rows)
  {
    var window := ApplyLimit(rows, limit, fromCheckpoint);
    if fromCheckpoint && rows != [] {
      SuffixIsSubsequence(window[1..], rows[1..]);
    } else {
      SuffixIsSubsequence(window, rows);
    }
  }

  lemma {:induction false} SuffixIsSubsequence(sub: seq<SubtaskRow>, rows: seq<SubtaskRow>)
    requires |sub| <= |rows| && sub == rows[|rows| - |sub|..]
    ensures IsSubsequence(sub, rows)
  {
    if sub != [] {
      if |sub| == |rows| {
        SuffixIsSubsequence(sub[1..], rows[1..]);
      } else {
        SuffixIsSubsequence(sub, rows[1..]);
      }
    }
  }

  /* ---------- The whole resolution ---------- */

  // The window over the eligible rows `rows`.
  function Window(rows: seq<SubtaskRow>, limit: Option<int>, fromLatestCompaction: bool): seq<SubtaskRow> {
    var index := LatestCheckpoint(rows);
    if fromLatestCompaction && index.Some? then ApplyLimit(rows[index.value..], limit, true)
    else ApplyLimit(rows, limit, false)
  }

  function Resolve(
    store: Store, taskId: int, userId: int,
    before: Option<int>, limit: Option<int>, fromLatestCompaction: bool)
    : Result<seq<SubtaskRow>, HistoryError>
  {
    match Lineage(store, taskId, userId)
    case Err(error) => Err(error)
    case Ok(nodes) => Ok(Window(Eligible(store, nodes, before), limit, fromLatestCompaction))
  }

  method ResolveHistorySubtasks(
    store: Store, taskId: int, userId: int,
    before: Option<int>, limit: Option<int>, fromLatestCompaction: bool)
    returns (r: Result<seq<SubtaskRow>, HistoryError>)
    ensures r == Resolve(store, taskId, userId, before, limit, fromLatestCompaction)
  {
    var lineage := ResolveLineage(store, taskId, userId);
    if lineage.Err? {
      return Err(lineage.error);
    }
    var items := CollectItems(store, lineage.value, before);
    items := Sort(items);
    var subtasks := Filter(items, InHistory);
    var scopedToCheckpoint := false;
    if fromLatestCompaction {
      var scoped, index := ScopeToLatestCheckpoint(subtasks);
      scopedToCheckpoint := index.Some?;
      subtasks := scoped;
    }
    return Ok(ApplyLimit(subtasks, limit, scopedToCheckpoint));
  }

  // The window is an order-preserving selection of the eligible rows: their
  // most recent ones, or the latest checkpoint and the most recent after it.
  lemma ResolvedWindow(
    store: Store, taskId: int, userId: int,
    before: Option<int>, limit: Option<int>, fromLatestCompaction: bool, nodes: seq<Node>)
    requires Lineage(store, taskId, userId) == Ok(nodes)
    ensures var rows := Eligible(store, nodes, before);
            var index := LatestCheckpoint(rows);
            var r := Resolve(store, taskId, userId, before, limit, fromLatestCompaction);
            && r.Ok?
            && IsSubsequence(r.value, rows)
            && Ordered(rows)
            && (if fromLatestCompaction && index.Some?
                then IsWindow(rows[index.value..], limit, true, r.value)
                else IsWindow(rows, limit, false, r.value))
  {
    var rows := Eligible(store, nodes, before);
    var index := LatestCheckpoint(rows);
    EligibleOrdered(store, nodes, before);
    if fromLatestCompaction && index.Some? {
      LimitLaw(rows[index.value..], limit, true);
      SubsequenceOfSuffix(Window(rows, limit, fromLatestCompaction), rows, index.value);
    } else {
      LimitLaw(rows, limit, false);
    }
  }

  lemma {:induction false} SubsequenceOfSuffix(sub: seq<SubtaskRow>, rows: seq<SubtaskRow>, k: nat)
    requires k <= |rows| && IsSubsequence(sub, rows[k..])
    ensures IsSubsequence(sub, rows)
  {
    if k > 0 {
      assert rows[1..][k - 1..] == rows[k..];
      SubsequenceOfSuffix(sub, rows[1..], k - 1);
    } else {
      assert rows[0..] == rows;
    }
  }
}
