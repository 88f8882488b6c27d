// Walking a task's history backwards: ask for the most recent `limit` turns,
// then for the most recent `limit` turns before the first one returned, and so
// on until a page comes back empty.
module HistoryPaging {
  import opened Wrappers
  import opened Sequences
  import opened ForkHistory
  import opened HistoryWindow

  // One page; `nodes` is the resolved lineage.
  function Page(store: Store, nodes: seq<Node>, before: Option<int>, limit: int): seq<SubtaskRow> {
    Window(Eligible(store, nodes, before), Some(limit), false)
  }

  // The page is what the resolution returns for that request.
  lemma PageIsResolved(
    store: Store, taskId: int, userId: int, nodes: seq<Node>, before: Option<int>, limit: int)
    requires Lineage(store, taskId, userId) == Ok(nodes)
    ensures Resolve(store, taskId, userId, before, Some(limit), false) == Ok(Page(store, nodes, before, limit))
  {
  }

  // The rows of a page, and where it cuts the eligible rows in two.
  lemma PageIsSuffix(store: Store, nodes: seq<Node>, before: Option<int>, limit: int)
    requires limit > 0
    ensures var rows := Eligible(store, nodes, before);
            var page := Page(store, nodes, before, limit);
            && |page| <= |rows| && |page| <= limit
            && (page == [] <==> rows == [])
            && rows == rows[..|rows| - |page|] + page
  {
    hide Eligible;
    var rows := Eligible(store, nodes, before);
    LimitLaw(rows, Some(limit), false);
    WithoutCheckpoint(rows, limit);
    hide ApplyLimit, Window, LatestCheckpoint, IsSubsequence;
  }

  lemma WithoutCheckpoint(rows: seq<SubtaskRow>, limit: int)
    ensures Window(rows, Some(limit), false) == ApplyLimit(rows, Some(limit), false)
  {
    hide ApplyLimit, LatestCheckpoint;
  }

  // In an ordered sequence the rows before a message id form a prefix.
  lemma {:induction false} EarlierIsPrefix(rows: seq<SubtaskRow>, before: int, k: nat)
    requires Ordered(rows) && k <= |rows|
    requires forall i :: 0 <= i < k ==> rows[i].messageId < before
    requires forall i :: k <= i < |rows| ==> rows[i].messageId >= before
    ensures Filter(rows, Earlier(Some(before))) == rows[..k]
  {
    var p := Earlier(Some(before));
    FilterConcat(rows[..k], rows[k..], p);
    FilterAll(rows[..k], p);
    FilterNone(rows[k..], p);
    assert rows == rows[..k] + rows[k..];
  }

  lemma EarlierTwice(rows: seq<SubtaskRow>, before: Option<int>, first: int)
    requires before.Some? ==> first <= before.value
    ensures Filter(Filter(rows, Earlier(before)), Earlier(Some(first))) == Filter(rows, Earlier(Some(first)))
  {
    FilterFilter(rows, Earlier(before), Earlier(Some(first)), Earlier(Some(first)));
  }

  // Every row of a page lies before the bound it was asked with.
  lemma PageBefore(store: Store, nodes: seq<Node>, before: Option<int>, limit: int)
    requires limit > 0 && Page(store, nodes, before, limit) != []
    ensures before.Some? ==> Page(store, nodes, before, limit)[0].messageId < before.value
  {
    EligibleBefore(store, nodes, before);
    FilterMembers(Eligible(store, nodes, None), Earlier(before));
    PageIsSuffix(store, nodes, before, limit);
    var rows, page := Eligible(store, nodes, before), Page(store, nodes, before, limit);
    assert page[0] == rows[|rows| - |page|];
    assert page[0] in rows;
  }

  // The rows left over after a page: those of the previous request that lie
  // before the page's first message id.
  lemma Remaining(store: Store, nodes: seq<Node>, before: Option<int>, limit: int)
    requires limit > 0 && Page(store, nodes, before, limit) != []
    ensures var first := Page(store, nodes, before, limit)[0].messageId;
            && Eligible(store, nodes, Some(first)) == Filter(Eligible(store, nodes, before), Earlier(Some(first)))
            && |Eligible(store, nodes, Some(first))| < |Eligible(store, nodes, before)|
  {
    var rows, page := Eligible(store, nodes, before), Page(store, nodes, before, limit);
    var first := page[0].messageId;
    PageBefore(store, nodes, before, limit);
    EligibleBefore(store, nodes, before);
    EligibleBefore(store, nodes, Some(first));
    EarlierTwice(Eligible(store, nodes, None), before, first);
    PageIsSuffix(store, nodes, before, limit);
    hide Eligible, Page, Filter;
    assert page[0] == rows[|rows| - |page|];
    assert page[0] in rows && !Earlier(Some(first))(page[0]);
    FilterAll(rows, Earlier(Some(first)));
  }

  // The pages of the walk, most recent first.
  function Walk(store: Store, nodes: seq<Node>, before: Option<int>, limit: int): seq<seq<SubtaskRow>>
    requires limit > 0
    decreases |Eligible(store, nodes, before)|
  {
    var page := Page(store, nodes, before, limit);
    if page == [] then []
    else
      Remaining(store, nodes, before, limit);
      [page] + Walk(store, nodes, Some(page[0].messageId), limit)
  }

  // The pages put back together, oldest first.
  function Joined(pages: seq<seq<SubtaskRow>>): seq<SubtaskRow> {
    if pages == [] then [] else Joined(pages[1..]) + pages[0]
  }

  ghost predicate Increasing(rows: seq<SubtaskRow>) {
    forall i, j :: 0 <= i < j < |rows| ==> rows[i].messageId < rows[j].messageId
  }

  lemma {:induction false} WalkComplete(store: Store, nodes: seq<Node>, before: Option<int>, limit: int)
    requires limit > 0 && Increasing(Eligible(store, nodes, before))
    ensures Joined(Walk(store, nodes, before, limit)) == Eligible(store, nodes, before)
    decreases |Eligible(store, nodes, before)|
  {
    var rows, page := Eligible(store, nodes, before), Page(store, nodes, before, limit);
    PageIsSuffix(store, nodes, before, limit);
    if page != [] {
      var first := page[0].messageId;
      var k := |rows| - |page|;
      Remaining(store, nodes, before, limit);
      EligibleOrdered(store, nodes, before);
      assert page[0] == rows[k];
      EarlierIsPrefix(rows, first, k);
      WalkComplete(store, nodes, Some(first), limit);
      JoinedStep(page, Walk(store, nodes, Some(first), limit));
    }
  }

  lemma JoinedStep(page: seq<SubtaskRow>, pages: seq<seq<SubtaskRow>>)
    ensures Joined([page] + pages) == Joined(pages) + page
  {
    assert ([page] + pages)[1..] == pages;
  }

  // No page of the walk begins amid rows that share a message id.
  ghost predicate CleanCuts(store: Store, nodes: seq<Node>, before: Option<int>, limit: int)
    requires limit > 0
    decreases |Eligible(store, nodes, before)|
  {
    var page := Page(store, nodes, before, limit);
    page == [] ||
    (Remaining(store, nodes, before, limit);
     CleanCut(Eligible(store, nodes, before), page) && CleanCuts(store, nodes, Some(page[0].messageId), limit))
  }

  ghost predicate CleanCut(rows: seq<SubtaskRow>, page: seq<SubtaskRow>)
    requires page != []
  {
    |page| < |rows| ==> rows[|rows| - |page| - 1].messageId != page[0].messageId
  }

  lemma {:induction false} WalkLength(store: Store, nodes: seq<Node>, before: Option<int>, limit: int)
    requires limit > 0
    ensures |Joined(Walk(store, nodes, before, limit))| <= |Eligible(store, nodes, before)|
    decreases |Eligible(store, nodes, before)|
  {
    hide *;
    WalkUnfold(store, nodes, before, limit);
    var page := Page(store, nodes, before, limit);
    if page != [] {
      var first := page[0].messageId;
      Remaining(store, nodes, before, limit);
      WalkLength(store, nodes, Some(first), limit);
      JoinedStep(page, Walk(store, nodes, Some(first), limit));
      LeftOver(store, nodes, before, limit);
    }
  }

  // What a page leaves over are at most the rows before it, and exactly these
  // if it cuts cleanly.
  lemma LeftOver(store: Store, nodes: seq<Node>, before: Option<int>, limit: int)
    requires limit > 0 && Page(store, nodes, before, limit) != []
    ensures var rows, page := Eligible(store, nodes, before), Page(store, nodes, before, limit);
            var left := Eligible(store, nodes, Some(page[0].messageId));
            && rows == rows[..|rows| - |page|] + page
            && |left| <= |rows| - |page|
            && (|left| == |rows| - |page| ==> left == rows[..|rows| - |page|])
            && (left == rows[..|rows| - |page|] <==> CleanCut(rows, page))
  {
    hide Eligible, Page, Filter, Leq;
    var rows, page := Eligible(store, nodes, before), Page(store, nodes, before, limit);
    var first, k := page[0].messageId, |rows| - |page|;
    PageIsSuffix(store, nodes, before, limit);
    Remaining(store, nodes, before, limit);
    EligibleOrdered(store, nodes, before);
    assert page[0] == rows[k];
    CutAt(rows, first, k);
  }

  lemma CutAt(rows: seq<SubtaskRow>, first: int, k: nat)
    requires Ordered(rows) && k < |rows| && rows[k].messageId == first
    ensures var left := Filter(rows, Earlier(Some(first)));
            && |left| <= k && (|left| == k ==> left == rows[..k])
            && (left == rows[..k] <==> (k > 0 ==> rows[k - 1].messageId != first))
  {
    hide Filter;
    var p := Earlier(Some(first));
    assert rows == rows[..k] + rows[k..];
    FilterConcat(rows[..k], rows[k..], p);
    MessageIdsAround(rows, k);
    hide Ordered;
    FilterNone(rows[k..], p);
    FilterAll(rows[..k], p);
    if k > 0 {
      assert rows[k - 1] in rows[..k];
    }
  }

  lemma MessageIdsAround(rows: seq<SubtaskRow>, k: nat)
    requires Ordered(rows) && k < |rows|
    ensures forall row <- rows[k..] :: row.messageId >= rows[k].messageId
    ensures k > 0 ==> rows[k - 1].messageId <= rows[k].messageId
    ensures k > 0 ==> forall row <- rows[..k] :: row.messageId <= rows[k - 1].messageId
  {
    assert forall i :: k <= i < |rows| ==> i == k || Leq(rows[k], rows[i]);
    assert k > 0 ==> Leq(rows[k - 1], rows[k]);
    assert forall i :: 0 <= i < k ==> i == k - 1 || Leq(rows[i], rows[k - 1]);
  }

  // For every limit by itself: the walk visits every eligible row exactly once,
  // in order, if and only if no page begins with the message id of the row
  // before it.
  lemma {:induction false} WalkCompleteIff(store: Store, nodes: seq<Node>, before: Option<int>, limit: int)
    requires limit > 0
    ensures Joined(Walk(store, nodes, before, limit)) == Eligible(store, nodes, before)
            <==> CleanCuts(store, nodes, before, limit)
    decreases |Eligible(store, nodes, before)|
  {
    hide Eligible, Page, Walk, Joined, CleanCut;
    WalkUnfold(store, nodes, before, limit);
    var rows, page := Eligible(store, nodes, before), Page(store, nodes, before, limit);
    PageIsSuffix(store, nodes, before, limit);
    if page != [] {
      var first := page[0].messageId;
      Remaining(store, nodes, before, limit);
      LeftOver(store, nodes, before, limit);
      WalkCompleteIff(store, nodes, Some(first), limit);
      WalkLength(store, nodes, Some(first), limit);
      var rest := Joined(Walk(store, nodes, Some(first), limit));
      JoinedStep(page, Walk(store, nodes, Some(first), limit));
      SameBefore(rest, rows[..|rows| - |page|], page, Eligible(store, nodes, Some(first)));
    }
  }

  lemma SameBefore(rest: seq<SubtaskRow>, front: seq<SubtaskRow>, page: seq<SubtaskRow>, left: seq<SubtaskRow>)
    requires |rest| <= |left| <= |front|
    requires |left| == |front| ==> left == front
    ensures rest + page == front + page <==> rest == front
    ensures rest == front ==> left == front
  {
    if rest + page == front + page {
      assert |rest + page| == |front + page|;
      assert rest == (rest + page)[..|rest|] && front == (front + page)[..|front|];
    }
  }

  // A walk one row at a time never returns two rows with one message id.
  lemma {:induction false} SingleSteps(store: Store, nodes: seq<Node>, before: Option<int>)
    ensures Increasing(Joined(Walk(store, nodes, before, 1)))
    ensures forall row <- Joined(Walk(store, nodes, before, 1)) ::
              before.Some? ==> row.messageId < before.value
    decreases |Eligible(store, nodes, before)|
  {
    hide *;
    WalkUnfold(store, nodes, before, 1);
    var page := Page(store, nodes, before, 1);
    if page != [] {
      var first := page[0].messageId;
      PageIsSuffix(store, nodes, before, 1);
      PageBefore(store, nodes, before, 1);
      Remaining(store, nodes, before, 1);
      SingleSteps(store, nodes, Some(first));
      var pages := Walk(store, nodes, Some(first), 1);
      JoinedStep(page, pages);
      assert page == [page[0]];
      IncreasingStep(Joined(pages), page[0], before);
    } else {
      IncreasingNothing(Joined(Walk(store, nodes, before, 1)));
    }
  }

  lemma WalkUnfold(store: Store, nodes: seq<Node>, before: Option<int>, limit: int)
    requires limit > 0
    ensures var page := Page(store, nodes, before, limit);
            && (page != [] ==>
                  Walk(store, nodes, before, limit)
                  == [page] + Walk(store, nodes, Some(page[0].messageId), limit))
            && (page == [] ==> Joined(Walk(store, nodes, before, limit)) == [])
  {
    hide Page;
  }

  lemma IncreasingNothing(rows: seq<SubtaskRow>)
    requires rows == []
    ensures Increasing(rows)
  {
  }

  lemma IncreasingStep(rows: seq<SubtaskRow>, row: SubtaskRow, before: Option<int>)
    requires Increasing(rows)
    requires forall r <- rows :: r.messageId < row.messageId
    requires before.Some? ==> row.messageId < before.value
    ensures Increasing(rows + [row])
    ensures forall r <- rows + [row] :: before.Some? ==> r.messageId < before.value
  {
  }

  // For every limit the walk ends and visits every eligible row exactly once,
  // in order, if and only if no two eligible rows share a message id.
  lemma WalkVisitsAllIff(store: Store, nodes: seq<Node>)
    ensures (forall limit | limit > 0 ::
               Joined(Walk(store, nodes, None, limit)) == Eligible(store, nodes, None))
            <==> Increasing(Eligible(store, nodes, None))
  {
    if Increasing(Eligible(store, nodes, None)) {
      forall limit | limit > 0
        ensures Joined(Walk(store, nodes, None, limit)) == Eligible(store, nodes, None)
      {
        WalkComplete(store, nodes, None, limit);
      }
    }
    SingleSteps(store, nodes, None);
    hide Walk, Eligible, Joined;
    assert (forall limit | limit > 0 ::
              Joined(Walk(store, nodes, None, limit)) == Eligible(store, nodes, None))
           ==> Joined(Walk(store, nodes, None, 1)) == Eligible(store, nodes, None);
  }
}
