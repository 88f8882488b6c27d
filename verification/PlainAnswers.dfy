// What the messages of a history response are: their order, and every field in
// terms of the stored JSON.
module PlainAnswers {
  import opened Wrappers
  import opened JsonValues
  import opened Text
  import opened ForkHistory
  import opened HistoryWindow
  import opened HistoryMessages
  import opened HistoryLaws
  import opened PlainHistory

  /* ---------- Order and number ---------- */

  // Where the messages of row `k` begin.
  ghost function StartOf(rows: seq<SubtaskRow>, k: nat, build: UserContent): nat
    requires k <= |rows|
  {
    if k == 0 then 0
    else StartOf(rows, k - 1, build)
         + (match MessagesOf(rows[k - 1], build) case Ok(own) => |own| case Err(_) => 0)
  }

  // `messages` are those of the first `n` rows, one row after the other, and
  // nothing else.
  ghost predicate RowByRow(rows: seq<SubtaskRow>, n: nat, build: UserContent, messages: seq<Message>)
    requires n <= |rows|
  {
    && |messages| == StartOf(rows, n, build)
    && forall k :: 0 <= k < n ==> AnswersRow(rows, k, build, messages)
  }

  ghost predicate AnswersRow(rows: seq<SubtaskRow>, k: nat, build: UserContent, messages: seq<Message>)
    requires k < |rows|
  {
    && MessagesOf(rows[k], build).Ok?
    && StartOf(rows, k, build) <= StartOf(rows, k + 1, build) <= |messages|
    && messages[StartOf(rows, k, build)..StartOf(rows, k + 1, build)] == MessagesOf(rows[k], build).value
  }

  lemma {:induction false} RespondRowByRow(rows: seq<SubtaskRow>, n: nat, build: UserContent, messages: seq<Message>)
    requires n <= |rows| && Respond(rows, n, build) == Ok(messages)
    ensures RowByRow(rows, n, build, messages)
  {
    hide MessagesOf;
    if n > 0 {
      var earlier := Respond(rows, n - 1, build).value;
      var own := MessagesOf(rows[n - 1], build).value;
      RespondRowByRow(rows, n - 1, build, earlier);
      hide Respond;
      assert messages == earlier + own;
      forall k | 0 <= k < n
        ensures AnswersRow(rows, k, build, messages)
      {
        assert k < n - 1 ==> AnswersRow(rows, k, build, earlier);
      }
    }
  }

  // A response answers the rows of its window one after the other, each with all
  // of its messages.
  lemma AnswerRowByRow(store: Store, taskId: int, query: Query, build: UserContent, messages: seq<Message>)
    requires History(store, taskId, query, build) == Ok(messages)
    ensures HistoryRows(store, taskId, query).Ok?
    ensures var rows := HistoryRows(store, taskId, query).value;
            RowByRow(rows, |rows|, build, messages)
  {
    hide HistoryRows, Respond, RowByRow;
    var rows := HistoryRows(store, taskId, query).value;
    RespondRowByRow(rows, |rows|, build, messages);
  }

  // A request is refused for an unknown task, with the error of its lineage, or
  // because some row has none; otherwise it answers the window it asked for.
  lemma AnswerWindow(store: Store, taskId: int, query: Query, build: UserContent)
    ensures taskId !in store.tasks ==> History(store, taskId, query, build) == Err(TaskNotFound)
    ensures taskId in store.tasks ==>
              match Lineage(store, taskId, store.tasks[taskId].userId)
              case Err(error) => History(store, taskId, query, build) == Err(error)
              case Ok(nodes) =>
                && HistoryRows(store, taskId, query).Ok?
                && var window := HistoryRows(store, taskId, query).value;
                && IsAskedFor(Eligible(store, nodes, query.before), query, window)
                && (History(store, taskId, query, build).Ok? <==> forall row <- window :: MessagesOf(row, build).Ok?)
  {
    if taskId in store.tasks && Lineage(store, taskId, store.tasks[taskId].userId).Ok? {
      var userId := store.tasks[taskId].userId;
      var nodes := Lineage(store, taskId, userId).value;
      ResolvedWindow(store, taskId, userId, query.before, query.limit, query.fromLatestCompaction, nodes);
      hide Lineage, Resolve, Eligible, IsWindow, MessagesOf, Respond;
      var window := HistoryRows(store, taskId, query).value;
      RespondOkIff(window, |window|, build);
    }
  }

  // The window reaches from the latest checkpoint when that is asked for and
  // there is one, and over all rows otherwise, as far as the limit allows.
  ghost predicate IsAskedFor(rows: seq<SubtaskRow>, query: Query, window: seq<SubtaskRow>) {
    if query.fromLatestCompaction && exists row <- rows :: HasSummaryCheckpoint(row) then
      exists k: nat :: IsLatestCheckpoint(rows, Some(k)) && IsWindow(rows[k..], query.limit, true, window)
    else
      IsWindow(rows, query.limit, false, window)
  }

  lemma {:induction false} RespondOkIff(rows: seq<SubtaskRow>, n: nat, build: UserContent)
    requires n <= |rows|
    ensures Respond(rows, n, build).Ok? <==> forall k :: 0 <= k < n ==> MessagesOf(rows[k], build).Ok?
  {
    hide MessagesOf;
    if n > 0 {
      RespondOkIff(rows, n - 1, build);
    }
  }

  // The message answers row `i`, as a whole or its chain entry `index`.
  ghost predicate IdOfRow(rows: seq<SubtaskRow>, i: nat, index: Option<nat>, m: Message)
    requires i < |rows|
  {
    m.id == match index case None => Render(rows[i].id) case Some(k) => Render(rows[i].id) + "-" + Digits(k)
  }

  // Ids ascend with the rows and, within a row, with the chain.
  ghost predicate IdsAscend(rows: seq<SubtaskRow>, messages: seq<Message>) {
    forall p, q, i: nat, j: nat, x, y |
      && 0 <= p < q < |messages| && i < |rows| && j < |rows|
      && IdOfRow(rows, i, x, messages[p]) && IdOfRow(rows, j, y, messages[q]) ::
      i < j || (i == j && x.Some? && y.Some? && x.value < y.value)
  }

  lemma RowIdsAscend(row: SubtaskRow, build: UserContent, own: seq<Message>, p: nat, q: nat)
    requires MessagesOf(row, build) == Ok(own) && p < q < |own|
    ensures exists a, b :: a < b && own[p].id == MessageId(row.id, Some(a)) && own[q].id == MessageId(row.id, Some(b))
  {
    var chain := Chain(row).value;
    ExpansionLaw(row, chain);
    KeptLaw(chain, |chain|);
    var kept := Kept(chain, |chain|);
    assert own[p].(loadedSkills := None) == Entry(row, chain[kept[p]], kept[p]);
    assert own[q].(loadedSkills := None) == Entry(row, chain[kept[q]], kept[q]);
  }

  lemma {:induction false} RespondIdsAscend(rows: seq<SubtaskRow>, n: nat, build: UserContent, messages: seq<Message>)
    requires n <= |rows| && UniqueIds(rows) && Respond(rows, n, build) == Ok(messages)
    ensures IdsAscend(rows, messages)
  {
    hide MessagesOf, IdsAscend, UniqueIds, DistinctMessageIds, IdFrom;
    if n > 0 {
      var earlier := Respond(rows, n - 1, build).value;
      var own := MessagesOf(rows[n - 1], build).value;
      RespondIdsAscend(rows, n - 1, build, earlier);
      ResponseIds(rows, n - 1, build, earlier);
      RowMessageIds(rows[n - 1], build, own);
      assert messages == earlier + own;
      hide Respond;
      IdsAscendStep(rows, n, build, earlier, own);
    } else {
      NoIds(rows, messages);
    }
  }

  lemma NoIds(rows: seq<SubtaskRow>, messages: seq<Message>)
    requires messages == []
    ensures IdsAscend(rows, messages)
  {
  }

  lemma IdsAscendStep(rows: seq<SubtaskRow>, n: nat, build: UserContent, earlier: seq<Message>, own: seq<Message>)
    requires 0 < n <= |rows| && UniqueIds(rows) && MessagesOf(rows[n - 1], build) == Ok(own)
    requires IdsAscend(rows, earlier)
    requires forall m <- earlier :: exists k :: 0 <= k < n - 1 && IdFrom(m, rows[k].id)
    requires forall m <- own :: IdFrom(m, rows[n - 1].id)
    ensures IdsAscend(rows, earlier + own)
  {
    hide MessagesOf, UniqueIds, IdFrom;
    var messages := earlier + own;
    forall p, q, i: nat, j: nat, x, y |
      && 0 <= p < q < |messages| && i < |rows| && j < |rows|
      && IdOfRow(rows, i, x, messages[p]) && IdOfRow(rows, j, y, messages[q])
      ensures i < j || (i == j && x.Some? && y.Some? && x.value < y.value)
    {
      if q < |earlier| {
        assert earlier[p] == messages[p] && earlier[q] == messages[q];
      } else {
        AscendsInto(rows, n, build, earlier, own, p, q, i, j, x, y);
      }
    }
  }

  lemma AscendsInto(
    rows: seq<SubtaskRow>, n: nat, build: UserContent, earlier: seq<Message>, own: seq<Message>,
    p: nat, q: nat, i: nat, j: nat, x: Option<nat>, y: Option<nat>)
    requires 0 < n <= |rows| && UniqueIds(rows) && MessagesOf(rows[n - 1], build) == Ok(own)
    requires forall m <- earlier :: exists k :: 0 <= k < n - 1 && IdFrom(m, rows[k].id)
    requires forall m <- own :: IdFrom(m, rows[n - 1].id)
    requires p < q < |earlier + own| && |earlier| <= q && i < |rows| && j < |rows|
    requires IdOfRow(rows, i, x, (earlier + own)[p]) && IdOfRow(rows, j, y, (earlier + own)[q])
    ensures i < j || (i == j && x.Some? && y.Some? && x.value < y.value)
  {
    hide MessagesOf, UniqueIds, IdFrom, IdOfRow;
    var second := own[q - |earlier|];
    assert second in own;
    RowOfMessage(rows, n - 1, j, y, second);
    if p < |earlier| {
      var first := earlier[p];
      assert first in earlier;
      var k :| 0 <= k < n - 1 && IdFrom(first, rows[k].id);
      RowOfMessage(rows, k, i, x, first);
    } else {
      var first := own[p - |earlier|];
      assert first in own;
      RowOfMessage(rows, n - 1, i, x, first);
      IndexesAscend(rows, n - 1, build, own, p - |earlier|, q - |earlier|, x, y);
    }
  }

  lemma RowOfMessage(rows: seq<SubtaskRow>, k: nat, i: nat, x: Option<nat>, m: Message)
    requires UniqueIds(rows) && k < |rows| && i < |rows| && IdFrom(m, rows[k].id) && IdOfRow(rows, i, x, m)
    ensures i == k
  {
    var index :| m.id == MessageId(rows[k].id, index);
    MessageIdInjective(rows[k].id, index, rows[i].id, x);
  }

  lemma IndexesAscend(
    rows: seq<SubtaskRow>, k: nat, build: UserContent, own: seq<Message>,
    p: nat, q: nat, x: Option<nat>, y: Option<nat>)
    requires k < |rows| && MessagesOf(rows[k], build) == Ok(own) && p < q < |own|
    requires IdOfRow(rows, k, x, own[p]) && IdOfRow(rows, k, y, own[q])
    ensures x.Some? && y.Some? && x.value < y.value
  {
    RowIdsAscend(rows[k], build, own, p, q);
    var a, b :| a < b && own[p].id == MessageId(rows[k].id, Some(a)) && own[q].id == MessageId(rows[k].id, Some(b));
    MessageIdInjective(rows[k].id, Some(a), rows[k].id, x);
    MessageIdInjective(rows[k].id, Some(b), rows[k].id, y);
  }

  // In every response, of two messages the first answers an earlier row, or an
  // earlier entry of the same row's chain.
  lemma AnswerIdsAscend(store: Store, taskId: int, query: Query, build: UserContent, messages: seq<Message>)
    requires PrimaryKeys(store) && History(store, taskId, query, build) == Ok(messages)
    ensures HistoryRows(store, taskId, query).Ok?
    ensures IdsAscend(HistoryRows(store, taskId, query).value, messages)
  {
    hide IdsAscend, PrimaryKeys, UniqueIds, Respond;
    var nodes := Lineage(store, taskId, store.tasks[taskId].userId).value;
    HistoryRowsUnique(store, taskId, query, nodes);
    var rows := HistoryRows(store, taskId, query).value;
    RespondIdsAscend(rows, |rows|, build, messages);
  }

  /* ---------- JSON values ---------- */

  // A member that is there and not null.
  ghost function Field(value: Json, key: string): Option<Json> {
    if value.Obj? && key in value.fields && value.fields[key] != Null then Some(value.fields[key]) else None
  }

  ghost predicate Falsy(value: Json) {
    || value == Null || value == Bool(false) || value == Int(0) || value == Float(0.0)
    || value == Str("") || value == Arr([]) || value == Obj(map[])
  }

  // The member's value; the empty text if it is absent.
  ghost function TextOr(value: Json, key: string): Json {
    if value.Obj? && key in value.fields then value.fields[key] else Str("")
  }

  ghost function RoleIn(msg: Json): string {
    if msg.Obj? && "role" in msg.fields && msg.fields["role"].Str? then msg.fields["role"].s else "assistant"
  }

  lemma FalsyIff(value: Json)
    ensures Falsy(value) <==> !Truthy(value)
  {
  }

  /* ---------- Chain entries ---------- */

  // No content, tool calls, reasoning or compaction mark.
  ghost predicate SaysNothing(msg: Json) {
    && RoleIn(msg) == "assistant"
    && Falsy(TextOr(msg, "content"))
    && (Field(msg, "tool_calls").Some? ==> Falsy(Field(msg, "tool_calls").value))
    && (Field(msg, "reasoning_content").Some? ==> Falsy(Field(msg, "reasoning_content").value))
    && !SaysCompacted(msg)
  }

  // All fields but the skills.
  ghost predicate AnswersEntry(row: SubtaskRow, msg: Json, index: nat, m: Message) {
    && m.id == Render(row.id) + "-" + Digits(index)
    && m.role == RoleIn(msg)
    && m.content == Value(TextOr(msg, "content"))
    && m.name == Field(msg, "name")
    && m.toolCallId == Field(msg, "tool_call_id")
    && m.toolCalls == Field(msg, "tool_calls")
    && m.reasoningContent == Field(msg, "reasoning_content")
    && m.modelInfo == Field(msg, "model_info")
    && m.createdAt == row.createdAt
    && m.metadata == (if SaysCompacted(msg) then Some(Obj(map["summary_compacted" := Bool(true)])) else None)
  }

  lemma EntryFields(row: SubtaskRow, msg: Json, index: nat)
    ensures AnswersEntry(row, msg, index, Entry(row, msg, index))
    ensures EmptyAssistant(msg) <==> SaysNothing(msg)
  {
    FalsyIff(TextOr(msg, "content"));
    hide Digits, Render;
    if Get(msg, "tool_calls").Some? {
      FalsyIff(Get(msg, "tool_calls").value);
    }
    if Get(msg, "reasoning_content").Some? {
      FalsyIff(Get(msg, "reasoning_content").value);
    }
  }

  // A turn with a chain answers with one message for each entry that says
  // anything, in order, and gives the loaded skills to the last assistant one.
  lemma ChainAnswer(row: SubtaskRow, chain: seq<Json>, build: UserContent) returns (places: seq<nat>)
    requires row.role != "USER" && row.status != "CANCELLED" && row.status != "FAILED"
    requires HasChain(row, chain) && chain != []
    ensures Ascending(places) && forall i: nat :: i in places <==> i < |chain| && !SaysNothing(chain[i])
    ensures MessagesOf(row, build).Ok?
    ensures var out := MessagesOf(row, build).value;
            && |out| == |places|
            && (forall k :: 0 <= k < |out| ==>
                  places[k] < |chain| && AnswersEntry(row, chain[places[k]], places[k], out[k]))
            && (forall k :: 0 <= k < |out| ==> SkillsAt(row, out, k))
  {
    places := Kept(chain, |chain|);
    KeptLaw(chain, |chain|);
    ExpansionLaw(row, chain);
    var out := AssistantMessages(row);
    forall i: nat | i < |chain|
      ensures AnswersEntry(row, chain[i], i, Entry(row, chain[i], i))
      ensures EmptyAssistant(chain[i]) <==> SaysNothing(chain[i])
    {
      EntryFields(row, chain[i], i);
    }
    hide Entry, EmptyAssistant, AssistantMessages, SaysNothing, Kept;
    forall k | 0 <= k < |out|
      ensures places[k] < |chain| && AnswersEntry(row, chain[places[k]], places[k], out[k])
      ensures SkillsAt(row, out, k)
    {
      assert out[k].(loadedSkills := None) == Entry(row, chain[places[k]], places[k]);
      assert out[k] in out;
      SkillsWhere(row, out, k);
    }
  }

  // The message carries the skills exactly if there are any to load and it is
  // the last assistant one.
  ghost predicate SkillsAt(row: SubtaskRow, out: seq<Message>, k: nat)
    requires k < |out| && row.result.Some?
  {
    var last := out[k].role == "assistant" && forall i :: k < i < |out| ==> out[i].role != "assistant";
    var skills := Field(row.result.value, "loaded_skills");
    out[k].loadedSkills == if last && skills.Some? && !Falsy(skills.value) then skills else None
  }

  lemma SkillsWhere(row: SubtaskRow, out: seq<Message>, k: nat)
    requires k < |out| && row.result.Some? && row.result.value.Obj?
    requires var skills := Get(ResultOf(row), "loaded_skills");
             && (out[k].loadedSkills.Some? <==> skills.Some? && Truthy(skills.value) && LastAssistant(out) == Some(k))
             && (out[k].loadedSkills.Some? ==> out[k].loadedSkills == skills)
    ensures SkillsAt(row, out, k)
  {
    var skills := Get(ResultOf(row), "loaded_skills");
    if skills.Some? {
      FalsyIff(skills.value);
    }
  }

  /* ---------- Other turns ---------- */

  // A message that carries nothing but these fields.
  ghost function Simple(row: SubtaskRow, role: string, content: Content): Message {
    Message(Render(row.id), role, content, None, None, None, None, row.createdAt, None, None, None)
  }

  ghost function ResultField(row: SubtaskRow, key: string): Option<Json> {
    if row.result.Some? then Field(row.result.value, key) else None
  }

  // A user turn answers with its content; a failed one with what an assistant
  // left, if that is anything; a turn without a chain with its stored value.
  lemma OtherAnswers(row: SubtaskRow, build: UserContent)
    requires row.role == "USER" || row.status == "FAILED" ||
             (row.status != "CANCELLED" && forall chain :: HasChain(row, chain) ==> chain == [])
    ensures MessagesOf(row, build)
            == if row.role == "USER" then
                 (match build(row)
                  case None => Err(ContentFailed)
                  case Some(content) => Ok([Simple(row, "user", content)]))
               else
                 var value := ResultField(row, "value");
                 if value.None? || Falsy(value.value) || (row.status == "FAILED" && row.role != "ASSISTANT") then Ok([])
                 else if row.status == "FAILED" then Ok([Simple(row, "assistant", Value(value.value))])
                 else
                   Ok([Simple(row, "assistant", Value(value.value))
                       .(loadedSkills := ResultField(row, "loaded_skills"),
                         modelInfo := ResultField(row, "model_info"))])
  {
    if row.result.Some? {
      FalsyIff(TextOr(row.result.value, "value"));
    }
    if Chain(row).Some? {
      assert HasChain(row, Chain(row).value);
    }
  }

  // A cancelled turn answers with the visible text an assistant left, followed
  // by the note.
  lemma CancelledAnswer(row: SubtaskRow, build: UserContent)
    requires row.role != "USER" && row.status == "CANCELLED"
    ensures MessagesOf(row, build).Ok?
    ensures var out := MessagesOf(row, build).value;
            var value := ResultField(row, "value");
            if row.role == "ASSISTANT" && value.Some? && value.value.Str?
               && exists c <- value.value.s :: !IsSpace(c) then
              exists visible :: visible <= value.value.s && EndsVisibly(visible, value.value.s) &&
                out == [Simple(row, "assistant",
                               Plain(visible + "\n\n" + "[Previous assistant response was interrupted by the user.]"))]
            else out == []
  {
    CancelledLaw(row);
    var value := ResultField(row, "value");
    if row.role == "ASSISTANT" && value.Some? && value.value.Str? && exists c <- value.value.s :: !IsSpace(c) {
      var visible := TrimEnd(value.value.s);
      TrimEndLaw(value.value.s);
      assert EndsVisibly(visible, value.value.s);
      hide TrimEnd, Render, EndsVisibly, Trim;
      assert MessagesOf(row, build).value
             == [Simple(row, "assistant",
                        Plain(visible + "\n\n" + "[Previous assistant response was interrupted by the user.]"))];
    }
  }

  // `text` goes on after `visible` with space only, and `visible` ends in none.
  ghost predicate EndsVisibly(visible: string, text: string)
    requires visible <= text
  {
    visible != "" && !IsSpace(visible[|visible| - 1]) && forall c <- text[|visible|..] :: IsSpace(c)
  }
}
