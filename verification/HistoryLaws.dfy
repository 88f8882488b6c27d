// End-to-end laws of the history response: compaction markers survive the
// whole pipeline, and message ids never collide.
module HistoryLaws {
  import opened Wrappers
  import opened JsonValues
  import opened Sequences
  import opened ForkHistory
  import opened HistoryWindow
  import opened HistoryMessages

  /* ---------- Where a response message comes from ---------- */

  lemma {:induction false} RespondMembers(rows: seq<SubtaskRow>, n: nat, build: UserContent, m: Message)
    requires n <= |rows| && Respond(rows, n, build).Ok?
    ensures forall k :: 0 <= k < n ==> MessagesOf(rows[k], build).Ok?
    ensures m in Respond(rows, n, build).value <==>
            exists k :: 0 <= k < n && m in MessagesOf(rows[k], build).value
  {
    hide MessagesOf;
    if n > 0 {
      RespondMembers(rows, n - 1, build, m);
    }
  }

  /* ---------- Compaction ---------- */

  predicate UserOrAssistant(row: SubtaskRow) {
    row.role == "USER" || row.role == "ASSISTANT"
  }

  // A completed turn of neither role whose chain holds a marked entry: no
  // checkpoint, yet its chain is expanded like an assistant's.
  predicate OtherMarks(row: SubtaskRow) {
    && !UserOrAssistant(row)
    && row.status == "COMPLETED"
    && Chain(row).Some?
    && exists msg <- Chain(row).value :: MarksSummary(msg)
  }

  // A marked message can only come from a marked entry, of a checkpoint turn
  // when the turn has one of the two roles.
  lemma MarkedComesFromCheckpoint(row: SubtaskRow, build: UserContent, m: Message)
    requires InHistory(row)
    requires MessagesOf(row, build).Ok? && m in MessagesOf(row, build).value && Marked(m)
    ensures if UserOrAssistant(row) then HasSummaryCheckpoint(row) else OtherMarks(row)
    ensures exists i :: IsMarkedEntry(row, m, i)
  {
    MarkedHasChain(row, build, m);
    hide MessagesOf, AssistantMessages, Kept, EmptyAssistant, Chain, MarksSummary;
    var chain := Chain(row).value;
    ExpansionLaw(row, chain);
    KeptLaw(chain, |chain|);
    var out, kept := AssistantMessages(row), Kept(chain, |chain|);
    var k :| 0 <= k < |out| && out[k] == m;
    assert out[k].(loadedSkills := None) == Entry(row, chain[kept[k]], kept[k]);
    assert IsMarkedEntry(row, m, kept[k]);
  }

  // Only turns whose chain is expanded answer with marked messages.
  lemma MarkedHasChain(row: SubtaskRow, build: UserContent, m: Message)
    requires InHistory(row)
    requires MessagesOf(row, build).Ok? && m in MessagesOf(row, build).value && Marked(m)
    ensures row.role != "USER" && row.status == "COMPLETED"
    ensures Chain(row).Some? && Chain(row).value != []
    ensures MessagesOf(row, build) == Ok(AssistantMessages(row))
  {
    hide Expand, AttachSkills, MessageId;
  }

  ghost predicate IsMarkedEntry(row: SubtaskRow, m: Message, i: nat) {
    && Chain(row).Some?
    && i < |Chain(row).value|
    && MarksSummary(Chain(row).value[i])
    && m.id == MessageId(row.id, Some(i))
  }

  // All marked messages are marked entries of `checkpoint`.
  ghost predicate MarksOnlyFrom(checkpoint: SubtaskRow, messages: seq<Message>) {
    forall m <- messages | Marked(m) :: exists i :: IsMarkedEntry(checkpoint, m, i)
  }

  // All marked entries of `checkpoint` are answered by marked messages.
  ghost predicate MarksKept(checkpoint: SubtaskRow, messages: seq<Message>) {
    && Chain(checkpoint).Some?
    && forall i: nat | i < |Chain(checkpoint).value| && MarksSummary(Chain(checkpoint).value[i]) ::
         exists m <- messages :: Marked(m) && IsMarkedEntry(checkpoint, m, i)
  }

  // Every marked entry of a checkpoint turn is answered, marker included.
  lemma CheckpointKeepsMarks(row: SubtaskRow, build: UserContent, i: nat) returns (m: Message)
    requires HasSummaryCheckpoint(row) || OtherMarks(row)
    requires i < |Chain(row).value| && MarksSummary(Chain(row).value[i])
    ensures MessagesOf(row, build) == Ok(AssistantMessages(row))
    ensures m in AssistantMessages(row) && Marked(m) && IsMarkedEntry(row, m, i)
  {
    var chain := Chain(row).value;
    ExpansionLaw(row, chain);
    KeptLaw(chain, |chain|);
    var out, kept := AssistantMessages(row), Kept(chain, |chain|);
    assert i in kept;
    var k :| 0 <= k < |kept| && kept[k] == i;
    m := out[k];
    assert m.(loadedSkills := None) == Entry(row, chain[i], i);
  }

  // Scoped to a checkpoint, the window holds it first and no other one.
  lemma WindowHoldsLatestCheckpoint(rows: seq<SubtaskRow>, limit: Option<int>)
    requires LatestCheckpoint(rows).Some?
    ensures var k := LatestCheckpoint(rows).value;
            var window := Window(rows, limit, true);
            && k < |rows| && window != [] && window[0] == rows[k]
            && (forall row <- window :: row in rows)
            && (forall j :: 0 < j < |window| ==> !HasSummaryCheckpoint(window[j]))
  {
    var k := LatestCheckpoint(rows).value;
    var window := Window(rows, limit, true);
    LimitLaw(rows[k..], limit, true);
    forall j | 0 < j < |window|
      ensures window[j] in rows && !HasSummaryCheckpoint(window[j])
    {
      var at := |rows| - |window| + j;
      assert window[j] == window[1..][j - 1] == rows[at];
    }
  }

  // With at least one eligible checkpoint and any limit, a successful response
  // from the latest compaction carries summary markers, and the marked messages
  // are exactly the marked entries of the latest checkpoint turn.
  lemma CompactionSurvives(
    store: Store, taskId: int, query: Query, build: UserContent, nodes: seq<Node>, messages: seq<Message>)
    requires taskId in store.tasks && Lineage(store, taskId, store.tasks[taskId].userId) == Ok(nodes)
    requires query.fromLatestCompaction
    requires forall row <- Eligible(store, nodes, query.before) :: UserOrAssistant(row)
    requires LatestCheckpoint(Eligible(store, nodes, query.before)).Some?
    requires History(store, taskId, query, build) == Ok(messages)
    ensures var rows := Eligible(store, nodes, query.before);
            var checkpoint := rows[LatestCheckpoint(rows).value];
            && (exists m <- messages :: Marked(m))
            && MarksOnlyFrom(checkpoint, messages)
            && MarksKept(checkpoint, messages)
  {
    var rows := Eligible(store, nodes, query.before);
    var window := Window(rows, query.limit, true);
    var checkpoint := rows[LatestCheckpoint(rows).value];
    WindowHoldsLatestCheckpoint(rows, query.limit);
    forall row <- window
      ensures InHistory(row) && UserOrAssistant(row)
    {
      EligibleMembers(store, nodes, query.before, row);
    }
    assert Respond(window, |window|, build) == Ok(messages);
    MarksOfWindow(window, checkpoint, build, messages);
  }

  // Whatever the roles: the marks of the latest checkpoint always survive, and
  // there are no others if and only if the window holds no completed turn of a
  // third role with a marked entry.
  lemma CompactionExact(
    store: Store, taskId: int, query: Query, build: UserContent, nodes: seq<Node>, messages: seq<Message>)
    requires PrimaryKeys(store)
    requires taskId in store.tasks && Lineage(store, taskId, store.tasks[taskId].userId) == Ok(nodes)
    requires query.fromLatestCompaction
    requires LatestCheckpoint(Eligible(store, nodes, query.before)).Some?
    requires History(store, taskId, query, build) == Ok(messages)
    ensures var rows := Eligible(store, nodes, query.before);
            var checkpoint := rows[LatestCheckpoint(rows).value];
            && (exists m <- messages :: Marked(m))
            && MarksKept(checkpoint, messages)
            && (MarksOnlyFrom(checkpoint, messages)
                <==> forall row <- Window(rows, query.limit, true) :: !OtherMarks(row))
  {
    var rows := Eligible(store, nodes, query.before);
    var window := Window(rows, query.limit, true);
    var checkpoint := rows[LatestCheckpoint(rows).value];
    WindowHoldsLatestCheckpoint(rows, query.limit);
    forall row <- window
      ensures InHistory(row)
    {
      EligibleMembers(store, nodes, query.before, row);
    }
    assert Respond(window, |window|, build) == Ok(messages);
    assert UniqueIds(window) by {
      HistoryRowsUnique(store, taskId, query, nodes);
    }
    hide *;
    FirstMarksSurvive(window, checkpoint, build, messages);
    OnlyFirstMarksIff(window, checkpoint, build, messages);
  }

  lemma OnlyFirstMarksIff(window: seq<SubtaskRow>, checkpoint: SubtaskRow, build: UserContent, messages: seq<Message>)
    requires window != [] && window[0] == checkpoint && HasSummaryCheckpoint(checkpoint) && UniqueIds(window)
    requires forall row <- window :: InHistory(row)
    requires forall j :: 0 < j < |window| ==> !HasSummaryCheckpoint(window[j])
    requires Respond(window, |window|, build) == Ok(messages)
    ensures MarksOnlyFrom(checkpoint, messages) <==> forall row <- window :: !OtherMarks(row)
  {
    if row :| row in window && OtherMarks(row) {
      hide Respond, OtherMarks, HasSummaryCheckpoint, IsMarkedEntry, Marked;
      var m := StrayMark(window, build, messages, row);
    } else {
      hide *;
      OnlyFirstMarks(window, checkpoint, build, messages);
    }
  }

  // A turn of a third role answers with a mark that is not the checkpoint's.
  lemma StrayMark(window: seq<SubtaskRow>, build: UserContent, messages: seq<Message>, row: SubtaskRow)
    returns (m: Message)
    requires window != [] && HasSummaryCheckpoint(window[0]) && UniqueIds(window)
    requires Respond(window, |window|, build) == Ok(messages)
    requires row in window && OtherMarks(row)
    ensures m in messages && Marked(m) && forall i :: !IsMarkedEntry(window[0], m, i)
  {
    var k :| 0 <= k < |window| && window[k] == row;
    var i := SomeMark(row);
    hide Respond, MessagesOf, MarksSummary, AssistantMessages, Chain;
    m := CheckpointKeepsMarks(row, build, i);
    RespondMembers(window, |window|, build, m);
    assert m in MessagesOf(window[k], build).value;
    assert k != 0;
    forall j: nat
      ensures !IsMarkedEntry(window[0], m, j)
    {
      if IsMarkedEntry(window[0], m, j) {
        MessageIdInjective(row.id, Some(i), window[0].id, Some(j));
      }
    }
  }

  lemma MarksOfWindow(window: seq<SubtaskRow>, checkpoint: SubtaskRow, build: UserContent, messages: seq<Message>)
    requires window != [] && window[0] == checkpoint && HasSummaryCheckpoint(checkpoint)
    requires forall row <- window :: InHistory(row) && UserOrAssistant(row)
    requires forall j :: 0 < j < |window| ==> !HasSummaryCheckpoint(window[j])
    requires Respond(window, |window|, build) == Ok(messages)
    ensures exists m <- messages :: Marked(m)
    ensures MarksOnlyFrom(checkpoint, messages)
    ensures MarksKept(checkpoint, messages)
  {
    hide Respond, Chain, HasSummaryCheckpoint, InHistory, MarksKept, MarksOnlyFrom, Marked;
    assert forall row <- window :: !OtherMarks(row);
    hide *;
    FirstMarksSurvive(window, checkpoint, build, messages);
    OnlyFirstMarks(window, checkpoint, build, messages);
  }

  lemma OnlyFirstMarks(window: seq<SubtaskRow>, checkpoint: SubtaskRow, build: UserContent, messages: seq<Message>)
    requires window != [] && window[0] == checkpoint
    requires forall row <- window :: InHistory(row) && !OtherMarks(row)
    requires forall j :: 0 < j < |window| ==> !HasSummaryCheckpoint(window[j])
    requires Respond(window, |window|, build) == Ok(messages)
    ensures MarksOnlyFrom(checkpoint, messages)
  {
    hide Respond, OtherMarks, InHistory, HasSummaryCheckpoint, IsMarkedEntry, Marked;
    forall m | m in messages && Marked(m)
      ensures exists i :: IsMarkedEntry(checkpoint, m, i)
    {
      MarkComesFromFirst(window, build, messages, m);
    }
  }

  lemma FirstMarksSurvive(window: seq<SubtaskRow>, checkpoint: SubtaskRow, build: UserContent, messages: seq<Message>)
    requires window != [] && window[0] == checkpoint && HasSummaryCheckpoint(checkpoint)
    requires Respond(window, |window|, build) == Ok(messages)
    ensures exists m <- messages :: Marked(m)
    ensures MarksKept(checkpoint, messages)
  {
    hide Respond, HasSummaryCheckpoint, IsMarkedEntry, Marked, MarksSummary, Chain;
    var some := SomeMark(checkpoint);
    forall i: nat | i < |Chain(checkpoint).value| && MarksSummary(Chain(checkpoint).value[i])
      ensures exists m <- messages :: Marked(m) && IsMarkedEntry(checkpoint, m, i)
    {
      var m := FirstKeepsMark(window, build, messages, i);
    }
  }

  lemma SomeMark(row: SubtaskRow) returns (i: nat)
    requires HasSummaryCheckpoint(row) || OtherMarks(row)
    ensures Chain(row).Some? && i < |Chain(row).value| && MarksSummary(Chain(row).value[i])
  {
    var chain := Chain(row).value;
    var msg :| msg in chain && MarksSummary(msg);
    i :| 0 <= i < |chain| && chain[i] == msg;
  }

  lemma MarkComesFromFirst(window: seq<SubtaskRow>, build: UserContent, messages: seq<Message>, m: Message)
    requires window != []
    requires forall row <- window :: InHistory(row) && !OtherMarks(row)
    requires forall j :: 0 < j < |window| ==> !HasSummaryCheckpoint(window[j])
    requires Respond(window, |window|, build) == Ok(messages) && m in messages && Marked(m)
    ensures exists i :: IsMarkedEntry(window[0], m, i)
  {
    hide *;
    RespondMembers(window, |window|, build, m);
    var k :| 0 <= k < |window| && m in MessagesOf(window[k], build).value;
    assert window[k] in window;
    MarkedComesFromCheckpoint(window[k], build, m);
  }

  lemma FirstKeepsMark(window: seq<SubtaskRow>, build: UserContent, messages: seq<Message>, i: nat)
    returns (m: Message)
    requires window != [] && HasSummaryCheckpoint(window[0])
    requires Respond(window, |window|, build) == Ok(messages)
    requires i < |Chain(window[0]).value| && MarksSummary(Chain(window[0]).value[i])
    ensures m in messages && Marked(m) && IsMarkedEntry(window[0], m, i)
  {
    hide *;
    m := CheckpointKeepsMarks(window[0], build, i);
    RespondMembers(window, |window|, build, m);
    assert m in MessagesOf(window[0], build).value;
  }

  // Such a turn, which the two roles the table declares rule out.
  lemma OtherRolesLeakMarkers() returns (row: SubtaskRow)
    ensures InHistory(row) && OtherMarks(row) && !HasSummaryCheckpoint(row)
    ensures exists m <- AssistantMessages(row) :: Marked(m)
  {
    var marked := Obj(map["additional_kwargs" := SUMMARY_METADATA]);
    var result := Obj(map["messages_chain" := Arr([marked])]);
    row := SubtaskRow(1, 1, "SYSTEM", "COMPLETED", None, None, 0, Some(result));
    var chain := [marked];
    assert Chain(row) == Some(chain);
    assert MarksSummary(chain[0]);
    ExpansionLaw(row, chain);
    KeptLaw(chain, 1);
    var out, kept := AssistantMessages(row), Kept(chain, 1);
    assert 0 in kept;
    var k :| 0 <= k < |kept| && kept[k] == 0;
    assert out[k].(loadedSkills := None) == Entry(row, chain[0], 0);
    assert Marked(out[k]);
  }

  /* ---------- Distinct ids ---------- */

  ghost predicate UniqueIds(rows: seq<SubtaskRow>) {
    forall i, j :: 0 <= i < j < |rows| ==> rows[i].id != rows[j].id
  }

  ghost predicate NotAmong(rows: seq<SubtaskRow>, id: int) {
    forall row <- rows :: row.id != id
  }

  // Subtask ids are primary keys across all tasks.
  ghost predicate PrimaryKeys(store: Store) {
    && (forall taskId :: UniqueIds(store.ListSubtasks(taskId)))
    && (forall taskId, other, row | taskId != other && row in store.ListSubtasks(taskId) ::
          NotAmong(store.ListSubtasks(other), row.id))
  }

  lemma {:induction false} UniqueFilter(rows: seq<SubtaskRow>, p: SubtaskRow -> bool)
    requires UniqueIds(rows)
    ensures UniqueIds(Filter(rows, p))
  {
    if rows != [] {
      UniqueFilter(rows[1..], p);
      FilterMembers(rows[1..], p);
      assert forall row <- rows[1..] :: row.id != rows[0].id;
    }
  }

  lemma {:induction false} InsertMembers(rows: seq<SubtaskRow>, row: SubtaskRow, x: SubtaskRow)
    ensures x in Insert(rows, row) <==> x in rows || x == row
  {
    InsertMultiset(rows, row);
    assert x in Insert(rows, row) <==> x in multiset(Insert(rows, row));
  }

  lemma {:induction false} UniqueInsert(rows: seq<SubtaskRow>, row: SubtaskRow)
    requires UniqueIds(rows) && NotAmong(rows, row.id)
    ensures UniqueIds(Insert(rows, row))
  {
    if rows != [] && !Leq(rows[|rows| - 1], row) {
      var rest, last := rows[..|rows| - 1], rows[|rows| - 1];
      UniqueInsert(rest, row);
      forall x | x in Insert(rest, row)
        ensures x.id != last.id
      {
        InsertMembers(rest, row, x);
      }
    }
  }

  lemma {:induction false} UniqueSort(rows: seq<SubtaskRow>)
    requires UniqueIds(rows)
    ensures UniqueIds(Sort(rows))
  {
    if rows != [] {
      var rest, last := rows[..|rows| - 1], rows[|rows| - 1];
      UniqueSort(rest);
      SortLaw(rest);
      forall x | x in Sort(rest)
        ensures x.id != last.id
      {
        assert x in multiset(Sort(rest));
        assert x in rest;
      }
      UniqueInsert(Sort(rest), last);
    }
  }

  lemma {:induction false} UniqueSubsequence(sub: seq<SubtaskRow>, rows: seq<SubtaskRow>)
    requires UniqueIds(rows) && IsSubsequence(sub, rows)
    ensures UniqueIds(sub) && forall row <- sub :: row in rows
  {
    if sub != [] {
      if sub[0] == rows[0] && IsSubsequence(sub[1..], rows[1..]) {
        UniqueSubsequence(sub[1..], rows[1..]);
        assert forall row <- rows[1..] :: row.id != rows[0].id && row in rows;
        forall j | 1 <= j < |sub|
          ensures sub[j].id != sub[0].id && sub[j] in rows
        {
          assert sub[j] == sub[1..][j - 1];
          assert sub[1..][j - 1] in rows[1..];
        }
        assert sub == [sub[0]] + sub[1..];
      } else {
        UniqueSubsequence(sub, rows[1..]);
      }
    }
  }

  lemma {:induction false} CollectMembers(store: Store, nodes: seq<Node>, before: Option<int>, row: SubtaskRow)
    requires row in Collect(store, nodes, before)
    ensures exists i :: 0 <= i < |nodes| && row in store.ListSubtasks(nodes[i].taskId)
  {
    FilterMembers(store.ListSubtasks(nodes[0].taskId), Admits(nodes[0].cutoff, before));
    if row !in Share(store, nodes[0], before) {
      CollectMembers(store, nodes[1..], before, row);
      var i :| 0 <= i < |nodes[1..]| && row in store.ListSubtasks(nodes[1..][i].taskId);
      assert nodes[1..][i] == nodes[i + 1];
    } else {
      assert row in store.ListSubtasks(nodes[0].taskId);
    }
  }

  lemma {:induction false} UniqueCollect(store: Store, nodes: seq<Node>, before: Option<int>)
    requires PrimaryKeys(store) && NoRepeat(nodes)
    ensures UniqueIds(Collect(store, nodes, before))
  {
    if nodes != [] {
      var own, rest := Share(store, nodes[0], before), Collect(store, nodes[1..], before);
      UniqueCollect(store, nodes[1..], before);
      UniqueFilter(store.ListSubtasks(nodes[0].taskId), Admits(nodes[0].cutoff, before));
      forall x, y | x in own && y in rest
        ensures x.id != y.id
      {
        FilterMembers(store.ListSubtasks(nodes[0].taskId), Admits(nodes[0].cutoff, before));
        CollectMembers(store, nodes[1..], before, y);
      }
      UniqueConcat(own, rest);
    }
  }

  lemma UniqueConcat(a: seq<SubtaskRow>, b: seq<SubtaskRow>)
    requires UniqueIds(a) && UniqueIds(b)
    requires forall x <- a, y <- b :: x.id != y.id
    ensures UniqueIds(a + b)
  {
  }

  ghost predicate DistinctMessageIds(messages: seq<Message>) {
    forall i, j :: 0 <= i < j < |messages| ==> messages[i].id != messages[j].id
  }

  ghost predicate IdFrom(m: Message, rowId: int) {
    exists index :: m.id == MessageId(rowId, index)
  }

  // The messages of one row carry that row's id and differ in their index.
  lemma RowMessageIds(row: SubtaskRow, build: UserContent, messages: seq<Message>)
    requires MessagesOf(row, build) == Ok(messages)
    ensures DistinctMessageIds(messages)
    ensures forall m <- messages :: IdFrom(m, row.id)
  {
    if row.role != "USER" && row.status != "CANCELLED" && row.status != "FAILED"
       && Chain(row).Some? && Chain(row).value != [] {
      var chain := Chain(row).value;
      ExpansionLaw(row, chain);
      KeptLaw(chain, |chain|);
      ChainMessageIds(row, chain, messages);
    } else {
      assert |messages| <= 1;
      assert messages != [] ==> messages[0].id == MessageId(row.id, None);
    }
  }

  lemma ChainMessageIds(row: SubtaskRow, chain: seq<Json>, messages: seq<Message>)
    requires var kept := Kept(chain, |chain|);
             && Ascending(kept) && |messages| == |kept|
             && forall k :: 0 <= k < |messages| ==>
                  kept[k] < |chain| && messages[k].(loadedSkills := None) == Entry(row, chain[kept[k]], kept[k])
    ensures DistinctMessageIds(messages)
    ensures forall m <- messages :: IdFrom(m, row.id)
  {
    var kept := Kept(chain, |chain|);
    assert forall k :: 0 <= k < |messages| ==> messages[k].id == MessageId(row.id, Some(kept[k]));
    forall i, j | 0 <= i < j < |messages|
      ensures messages[i].id != messages[j].id
    {
      if messages[i].id == messages[j].id {
        MessageIdInjective(row.id, Some(kept[i]), row.id, Some(kept[j]));
      }
    }
  }

  lemma {:induction false} ResponseIds(rows: seq<SubtaskRow>, n: nat, build: UserContent, messages: seq<Message>)
    requires n <= |rows| && UniqueIds(rows)
    requires Respond(rows, n, build) == Ok(messages)
    ensures DistinctMessageIds(messages)
    ensures forall m <- messages :: exists k :: 0 <= k < n && IdFrom(m, rows[k].id)
  {
    if n > 0 {
      var earlier := Respond(rows, n - 1, build).value;
      var own := MessagesOf(rows[n - 1], build).value;
      ResponseIds(rows, n - 1, build, earlier);
      RowMessageIds(rows[n - 1], build, own);
      hide MessagesOf;
      assert messages == earlier + own;
      forall x, y | x in earlier && y in own
        ensures x.id != y.id
      {
        var k :| 0 <= k < n - 1 && IdFrom(x, rows[k].id);
        var i :| x.id == MessageId(rows[k].id, i);
        var j :| y.id == MessageId(rows[n - 1].id, j);
        if x.id == y.id {
          MessageIdInjective(rows[k].id, i, rows[n - 1].id, j);
        }
      }
    }
  }

  // No row appears twice in a window.
  lemma HistoryRowsUnique(store: Store, taskId: int, query: Query, nodes: seq<Node>)
    requires PrimaryKeys(store)
    requires taskId in store.tasks && Lineage(store, taskId, store.tasks[taskId].userId) == Ok(nodes)
    ensures HistoryRows(store, taskId, query).Ok? && UniqueIds(HistoryRows(store, taskId, query).value)
  {
    var userId := store.tasks[taskId].userId;
    LineageExact(store, taskId, userId, Ok(nodes));
    UniqueCollect(store, nodes, query.before);
    UniqueSort(Collect(store, nodes, query.before));
    UniqueFilter(Sort(Collect(store, nodes, query.before)), InHistory);
    ResolvedWindow(store, taskId, userId, query.before, query.limit, query.fromLatestCompaction, nodes);
    UniqueSubsequence(HistoryRows(store, taskId, query).value, Eligible(store, nodes, query.before));
  }

  // Over the whole response no two messages share an id.
  lemma HistoryIdsDistinct(
    store: Store, taskId: int, query: Query, build: UserContent, messages: seq<Message>)
    requires PrimaryKeys(store)
    requires History(store, taskId, query, build) == Ok(messages)
    ensures DistinctMessageIds(messages)
  {
    var nodes := Lineage(store, taskId, store.tasks[taskId].userId).value;
    HistoryRowsUnique(store, taskId, query, nodes);
    var window := HistoryRows(store, taskId, query).value;
    ResponseIds(window, |window|, build, messages);
  }
}
