// What a history request answers, with every field of its rows and entries
// written out.
module PlainHistory {
  import opened Wrappers
  import opened JsonValues
  import opened Text
  import opened Sequences
  import opened ForkHistory
  import opened HistoryWindow
  import opened HistoryMessages
  import opened HistoryLaws

  /* ---------- The lineage ---------- */

  // From the root-most task down to the requested one: each task the fork source
  // of the next with the next one's cutoff, at most fifty of them.
  ghost predicate IsChain(store: Store, taskId: int, userId: int, nodes: seq<Node>) {
    && 1 <= |nodes| <= 50
    && nodes[|nodes| - 1] == Node(taskId, userId, None)
    && (forall i :: 0 <= i < |nodes| ==>
          nodes[i].taskId in store.tasks && store.tasks[nodes[i].taskId].userId == nodes[i].userId)
    && (forall i :: 0 <= i < |nodes| - 1 ==>
          && nodes[i].cutoff.Some?
          && store.tasks[nodes[i + 1].taskId].fork == Some(ForkSpec(nodes[i].taskId, nodes[i].cutoff.value)))
    && (forall i, j :: 0 <= i < j < |nodes| ==> nodes[i].taskId != nodes[j].taskId)
    && (|nodes| == 50 || store.tasks[nodes[0].taskId].fork == None)
  }

  lemma LineageIff(store: Store, taskId: int, userId: int, nodes: seq<Node>)
    ensures Lineage(store, taskId, userId) == Ok(nodes) <==> IsChain(store, taskId, userId, nodes)
    ensures Lineage(store, taskId, userId) == Err(TaskNotFound) <==>
            !(taskId in store.tasks && store.tasks[taskId].userId == userId)
  {
    LineageExact(store, taskId, userId, Ok(nodes));
    LineageExact(store, taskId, userId, Err(TaskNotFound));
    hide Lineage;
    if IsChain(store, taskId, userId, nodes) {
      ChainDescends(store, taskId, userId, nodes);
      assert LineageOutcome(store, taskId, userId, nodes, Ok(nodes));
    } else if Lineage(store, taskId, userId) == Ok(nodes) {
      DescentChains(store, taskId, userId, nodes);
    }
  }

  lemma ChainDescends(store: Store, taskId: int, userId: int, nodes: seq<Node>)
    requires IsChain(store, taskId, userId, nodes)
    ensures Descent(store, taskId, nodes) && OwnedBy(store, taskId, userId)
  {
  }

  lemma DescentChains(store: Store, taskId: int, userId: int, nodes: seq<Node>)
    requires LineageOutcome(store, taskId, userId, nodes, Ok(nodes))
    ensures IsChain(store, taskId, userId, nodes)
  {
    forall i | 0 <= i < |nodes|
      ensures nodes[i].taskId in store.tasks && store.tasks[nodes[i].taskId].userId == nodes[i].userId
    {
      assert OwnedBy(store, nodes[i].taskId, nodes[i].userId);
    }
    forall i | 0 <= i < |nodes| - 1
      ensures nodes[i].cutoff.Some?
      ensures store.tasks[nodes[i + 1].taskId].fork == Some(ForkSpec(nodes[i].taskId, nodes[i].cutoff.value))
    {
      assert ForkedFrom(store, nodes[i + 1].taskId, nodes[i]);
    }
  }

  /* ---------- The rows ---------- */

  // The row is a subtask of a task of the chain, sent no later than that task's
  // cutoff and before the requested bound.
  ghost predicate SentInTime(store: Store, nodes: seq<Node>, before: Option<int>, row: SubtaskRow) {
    exists i :: 0 <= i < |nodes| && SentIn(store, nodes[i], before, row)
  }

  ghost predicate SentIn(store: Store, node: Node, before: Option<int>, row: SubtaskRow) {
    && node.taskId in store.subtasks
    && row in store.subtasks[node.taskId]
    && (node.cutoff.Some? ==> row.messageId <= node.cutoff.value)
    && (before.Some? ==> row.messageId < before.value)
  }

  lemma {:induction false} CollectedIff(store: Store, nodes: seq<Node>, before: Option<int>, row: SubtaskRow)
    ensures row in Collect(store, nodes, before) <==> SentInTime(store, nodes, before, row)
  {
    if nodes != [] {
      CollectedIff(store, nodes[1..], before, row);
      FilterMembers(store.ListSubtasks(nodes[0].taskId), Admits(nodes[0].cutoff, before));
      assert row in Share(store, nodes[0], before) <==> SentIn(store, nodes[0], before, row);
      hide SentIn, Share;
      assert forall i :: 1 <= i < |nodes| ==> nodes[i] == nodes[1..][i - 1];
      if i :| 0 <= i < |nodes[1..]| && SentIn(store, nodes[1..][i], before, row) {
        assert SentIn(store, nodes[i + 1], before, row);
      }
    }
  }

  // Without limit and compaction, a request answers with exactly the completed,
  // cancelled and failed rows sent in time.
  lemma AnsweredRowsIff(store: Store, taskId: int, userId: int, before: Option<int>, nodes: seq<Node>, row: SubtaskRow)
    requires Lineage(store, taskId, userId) == Ok(nodes)
    ensures var r := Resolve(store, taskId, userId, before, None, false);
            r.Ok? && (row in r.value <==>
                        && SentInTime(store, nodes, before, row)
                        && (row.status == "COMPLETED" || row.status == "CANCELLED" || row.status == "FAILED"))
  {
    EligibleMembers(store, nodes, before, row);
    CollectedIff(store, nodes, before, row);
    hide Eligible, Lineage, SentInTime, LatestCheckpoint;
  }

  // Rows come by message id, then by creation time, an absent one first, then by
  // subtask id.
  ghost predicate InOrderOf(a: SubtaskRow, b: SubtaskRow) {
    && a.messageId <= b.messageId
    && (a.messageId == b.messageId ==>
          && (a.createdAt.Some? ==> b.createdAt.Some? && a.createdAt.value <= b.createdAt.value)
          && (a.createdAt == b.createdAt ==> a.id <= b.id))
  }

  // Every window answers with rows in that order, all of them sent in time and
  // completed, cancelled or failed.
  lemma AnsweredRowsInOrder(
    store: Store, taskId: int, userId: int, before: Option<int>, limit: Option<int>, fromLatestCompaction: bool,
    nodes: seq<Node>)
    requires Lineage(store, taskId, userId) == Ok(nodes)
    ensures var r := Resolve(store, taskId, userId, before, limit, fromLatestCompaction);
            && r.Ok?
            && (forall i, j :: 0 <= i < j < |r.value| ==> InOrderOf(r.value[i], r.value[j]))
            && (forall row <- r.value ::
                  && SentInTime(store, nodes, before, row)
                  && (row.status == "COMPLETED" || row.status == "CANCELLED" || row.status == "FAILED"))
  {
    hide Eligible, Resolve, Window, Lineage, IsWindow, LatestCheckpoint, SentInTime, InHistory, IsSubsequence, Ordered,
      InOrderOf;
    ResolvedWindow(store, taskId, userId, before, limit, fromLatestCompaction, nodes);
    var rows := Eligible(store, nodes, before);
    var window := Resolve(store, taskId, userId, before, limit, fromLatestCompaction).value;
    OrderedSubsequence(window, rows);
    OrderWrittenOut(window);
    forall row <- window
      ensures SentInTime(store, nodes, before, row)
      ensures row.status == "COMPLETED" || row.status == "CANCELLED" || row.status == "FAILED"
    {
      EligibleMembers(store, nodes, before, row);
      CollectedIff(store, nodes, before, row);
    }
  }

  lemma OrderWrittenOut(rows: seq<SubtaskRow>)
    requires Ordered(rows)
    ensures forall i, j :: 0 <= i < j < |rows| ==> InOrderOf(rows[i], rows[j])
  {
    forall i, j | 0 <= i < j < |rows|
      ensures InOrderOf(rows[i], rows[j])
    {
      assert Leq(rows[i], rows[j]);
    }
  }

  lemma {:induction false} OrderedSubsequence(sub: seq<SubtaskRow>, rows: seq<SubtaskRow>)
    requires Ordered(rows) && IsSubsequence(sub, rows)
    ensures Ordered(sub) && forall row <- sub :: row in rows
  {
    hide Leq;
    if sub != [] {
      if sub[0] == rows[0] && IsSubsequence(sub[1..], rows[1..]) {
        OrderedSubsequence(sub[1..], rows[1..]);
        OrderedFrom(sub, rows);
      } else {
        OrderedSubsequence(sub, rows[1..]);
      }
    }
  }

  lemma OrderedFrom(sub: seq<SubtaskRow>, rows: seq<SubtaskRow>)
    requires Ordered(rows) && sub != [] && rows != [] && sub[0] == rows[0]
    requires Ordered(sub[1..]) && forall row <- sub[1..] :: row in rows[1..]
    ensures Ordered(sub) && forall row <- sub :: row in rows
  {
    hide Leq;
    assert forall row <- rows[1..] :: Leq(rows[0], row) && row in rows;
    assert forall j :: 1 <= j < |sub| ==> sub[j] == sub[1..][j - 1];
  }

  /* ---------- Checkpoints ---------- */

  // `additional_kwargs.summary_compacted` is `true`.
  ghost predicate SaysCompacted(msg: Json) {
    && msg.Obj? && "additional_kwargs" in msg.fields
    && var kwargs := msg.fields["additional_kwargs"];
    && kwargs.Obj? && "summary_compacted" in kwargs.fields
    && kwargs.fields["summary_compacted"] == Bool(true)
  }

  ghost predicate HasChain(row: SubtaskRow, chain: seq<Json>) {
    && row.result.Some? && row.result.value.Obj?
    && "messages_chain" in row.result.value.fields
    && row.result.value.fields["messages_chain"] == Arr(chain)
  }

  lemma CheckpointIff(row: SubtaskRow)
    ensures HasSummaryCheckpoint(row) <==>
            && row.role == "ASSISTANT" && row.status == "COMPLETED"
            && exists chain, k :: HasChain(row, chain) && 0 <= k < |chain| && SaysCompacted(chain[k])
  {
    if HasSummaryCheckpoint(row) {
      var chain := Chain(row).value;
      var msg :| msg in chain && MarksSummary(msg);
      var k :| 0 <= k < |chain| && chain[k] == msg;
      assert HasChain(row, chain) && SaysCompacted(chain[k]);
    }
    if chain, k :| HasChain(row, chain) && 0 <= k < |chain| && SaysCompacted(chain[k]) {
      assert chain[k] in chain && MarksSummary(chain[k]);
    }
  }
}
