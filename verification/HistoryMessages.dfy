// Turning the rows of a history window into response messages.
module HistoryMessages {
  import opened Wrappers
  import opened JsonValues
  import opened Text
  import opened ForkHistory
  import opened HistoryWindow

  // A plain text, any JSON value, or the blocks of a user turn.
  datatype Content = Plain(text: string) | Value(value: Json) | Blocks(blocks: seq<Json>)

  datatype Message = Message(
    id: string,
    role: string,
    content: Content,
    name: Option<Json>,
    toolCallId: Option<Json>,
    toolCalls: Option<Json>,
    reasoningContent: Option<Json>,
    createdAt: Option<int>,
    loadedSkills: Option<Json>,
    modelInfo: Option<Json>,
    metadata: Option<Json>)

  const CANCELLED_NOTE := "[Previous assistant response was interrupted by the user.]"

  /* ---------- Message ids ---------- */

  // A row's only message carries the row id; a chain message adds its index.
  function MessageId(rowId: int, index: Option<nat>): string {
    match index
    case None => Render(rowId)
    case Some(i) => Render(rowId) + "-" + Digits(i)
  }

  lemma NoDashInDigits(n: nat)
    ensures '-' !in Digits(n)
  {
  }

  // The digits after an optional sign.
  function Unsigned(id: string): string {
    if id != "" && id[0] == '-' then id[1..] else id
  }

  function Magnitude(i: int): nat {
    if i < 0 then -i else i
  }

  lemma UnsignedMessageId(rowId: int, index: Option<nat>)
    ensures var id := MessageId(rowId, index);
            && id != ""
            && (id[0] == '-' <==> rowId < 0)
            && Unsigned(id) == Digits(Magnitude(rowId)) + (if index.Some? then "-" + Digits(index.value) else "")
  {
    RenderSign(rowId);
    hide Digits;
    var id := MessageId(rowId, index);
    assert id[0] == Render(rowId)[0];
    if rowId < 0 {
      assert id[1..] == Digits(-rowId) + (if index.Some? then "-" + Digits(index.value) else "");
    }
  }

  // An id determines the row it came from and the place in its chain.
  lemma MessageIdInjective(a: int, i: Option<nat>, b: int, j: Option<nat>)
    requires MessageId(a, i) == MessageId(b, j)
    ensures a == b && i == j
  {
    UnsignedMessageId(a, i);
    UnsignedMessageId(b, j);
    var m, n := Digits(Magnitude(a)), Digits(Magnitude(b));
    var rest := Unsigned(MessageId(a, i));
    NoDashInDigits(Magnitude(a));
    NoDashInDigits(Magnitude(b));
    hide MessageId, Digits, Render;
    if i.Some? {
      assert rest == m + ['-'] + Digits(i.value);
      assert rest[|m|] == '-';
    }
    if j.Some? {
      assert rest == n + ['-'] + Digits(j.value);
      assert rest[|n|] == '-';
    }
    if i.Some? && j.Some? {
      SeparatorUnique(m, Digits(i.value), n, Digits(j.value), '-');
      DigitsInjective(i.value, j.value);
    } else {
      assert i.None? ==> rest == m && '-' !in rest;
      assert j.None? ==> rest == n && '-' !in rest;
    }
    DigitsInjective(Magnitude(a), Magnitude(b));
  }

  /* ---------- One assistant turn ---------- */

  function Bare(id: string, role: string, content: Content, createdAt: Option<int>): Message {
    Message(id, role, content, None, None, None, None, createdAt, None, None, None)
  }

  // The stored result when it is an object, else an empty object.
  function ResultOf(row: SubtaskRow): Json {
    if row.result.Some? && row.result.value.Obj? then row.result.value else Obj(map[])
  }

  // An explicit null counts as absent.
  function OptionalRaw(value: Json, key: string): Option<Json> {
    if Get(value, key) == Some(Null) then None else Get(value, key)
  }

  function RoleOf(msg: Json): string {
    match Get(msg, "role")
    case Some(Str(role)) => role
    case _ => "assistant"
  }

  function ContentOf(value: Json, key: string): Json {
    GetOr(value, key, Str(""))
  }

  // An assistant entry without content, tool calls, reasoning or marker.
  predicate EmptyAssistant(msg: Json) {
    && RoleOf(msg) == "assistant"
    && !Truthy(ContentOf(msg, "content"))
    && !TruthyAt(msg, "tool_calls")
    && !TruthyAt(msg, "reasoning_content")
    && !MarksSummary(msg)
  }

  const SUMMARY_METADATA := Obj(map["summary_compacted" := Bool(true)])

  predicate Marked(message: Message) {
    message.metadata == Some(SUMMARY_METADATA)
  }

  function Entry(row: SubtaskRow, msg: Json, index: nat): Message {
    Message(
      MessageId(row.id, Some(index)), RoleOf(msg), Value(ContentOf(msg, "content")),
      OptionalRaw(msg, "name"), OptionalRaw(msg, "tool_call_id"), OptionalRaw(msg, "tool_calls"),
      OptionalRaw(msg, "reasoning_content"), row.createdAt, None, OptionalRaw(msg, "model_info"),
      if MarksSummary(msg) then Some(SUMMARY_METADATA) else None)
  }

  // The messages of the first `n` chain entries.
  function Expand(row: SubtaskRow, chain: seq<Json>, n: nat): seq<Message>
    requires n <= |chain|
  {
    if n == 0 then []
    else Expand(row, chain, n - 1)
         + (if EmptyAssistant(chain[n - 1]) then [] else [Entry(row, chain[n - 1], n - 1)])
  }

  function LastAssistant(messages: seq<Message>): (k: Option<nat>)
    ensures k.Some? ==> k.value < |messages| && messages[k.value].role == "assistant"
    ensures forall i :: 0 <= i < |messages| && (k.None? || k.value < i) ==> messages[i].role != "assistant"
  {
    if messages == [] then None
    else if messages[|messages| - 1].role == "assistant" then Some(|messages| - 1)
    else LastAssistant(messages[..|messages| - 1])
  }

  function AttachSkills(messages: seq<Message>, skills: Option<Json>): seq<Message> {
    var k := LastAssistant(messages);
    if skills.Some? && Truthy(skills.value) && k.Some?
    then messages[k.value := messages[k.value].(loadedSkills := skills)]
    else messages
  }

  function CancelledMessages(row: SubtaskRow): seq<Message> {
    match Get(ResultOf(row), "value")
    case Some(Str(text)) =>
      if row.role != "ASSISTANT" || Blank(text) then []
      else [Bare(MessageId(row.id, None), "assistant",
                 Plain(TrimEnd(text) + "\n\n" + CANCELLED_NOTE), row.createdAt)]
    case _ => []
  }

  function FailedMessages(row: SubtaskRow): seq<Message> {
    var content := ContentOf(ResultOf(row), "value");
    if row.role != "ASSISTANT" || !Truthy(content) then []
    else [Bare(MessageId(row.id, None), "assistant", Value(content), row.createdAt)]
  }

  // Rows stored before chains were recorded.
  function LegacyMessages(row: SubtaskRow): seq<Message> {
    var result := ResultOf(row);
    var content := ContentOf(result, "value");
    if !Truthy(content) then []
    else [Bare(MessageId(row.id, None), "assistant", Value(content), row.createdAt)
          .(loadedSkills := OptionalRaw(result, "loaded_skills"), modelInfo := OptionalRaw(result, "model_info"))]
  }

  function AssistantMessages(row: SubtaskRow): seq<Message> {
    if row.status == "CANCELLED" then CancelledMessages(row)
    else if row.status == "FAILED" then FailedMessages(row)
    else match Chain(row)
      case Some(chain) =>
        if chain == [] then LegacyMessages(row)
        else AttachSkills(Expand(row, chain, |chain|), Get(ResultOf(row), "loaded_skills"))
      case None => LegacyMessages(row)
  }

  method BuildAssistantMessages(row: SubtaskRow) returns (messages: seq<Message>)
    ensures messages == AssistantMessages(row)
  {
    if row.status == "CANCELLED" {
      return CancelledMessages(row);
    }
    if row.status == "FAILED" {
      return FailedMessages(row);
    }
    var stored := Chain(row);
    if stored.None? || stored.value == [] {
      return LegacyMessages(row);
    }
    var chain := stored.value;
    messages := [];
    hide EmptyAssistant, Entry;
    for index := 0 to |chain|
      invariant messages == Expand(row, chain, index)
    {
      if !EmptyAssistant(chain[index]) {
        messages := messages + [Entry(row, chain[index], index)];
      }
    }
    messages := AttachToLastAssistant(messages, Get(ResultOf(row), "loaded_skills"));
  }

  // The backward scan for the message that takes the skills.
  method AttachToLastAssistant(responses: seq<Message>, skills: Option<Json>) returns (messages: seq<Message>)
    ensures messages == AttachSkills(responses, skills)
  {
    messages := responses;
    if skills.Some? && Truthy(skills.value) {
      var k := |messages|;
      while k > 0
        invariant 0 <= k <= |responses| && messages == responses
        invariant forall i :: k <= i < |responses| ==> responses[i].role != "assistant"
      {
        k := k - 1;
        if messages[k].role == "assistant" {
          assert LastAssistant(responses) == Some(k);
          messages := messages[k := messages[k].(loadedSkills := skills)];
          break;
        }
      }
    }
  }

  /* ---------- What the expansion keeps ---------- */

  // The places of the chain that are kept, in order.
  function Kept(chain: seq<Json>, n: nat): seq<nat>
    requires n <= |chain|
  {
    if n == 0 then []
    else Kept(chain, n - 1) + (if EmptyAssistant(chain[n - 1]) then [] else [n - 1])
  }

  lemma {:induction false} KeptLaw(chain: seq<Json>, n: nat)
    requires n <= |chain|
    ensures forall i: nat :: i in Kept(chain, n) <==> i < n && !EmptyAssistant(chain[i])
    ensures Ascending(Kept(chain, n))
  {
    hide EmptyAssistant;
    if n > 0 {
      KeptLaw(chain, n - 1);
      var kept := Kept(chain, n - 1);
      forall a | 0 <= a < |kept|
        ensures kept[a] < n - 1
      {
        assert kept[a] in kept;
      }
      if !EmptyAssistant(chain[n - 1]) {
        AscendingStep(kept, n - 1);
      }
    }
  }

  ghost predicate Ascending(s: seq<nat>) {
    forall a, b :: 0 <= a < b < |s| ==> s[a] < s[b]
  }

  lemma AscendingStep(s: seq<nat>, x: nat)
    requires Ascending(s) && forall a :: 0 <= a < |s| ==> s[a] < x
    ensures Ascending(s + [x])
    ensures forall i: nat :: i in s + [x] <==> i in s || i == x
  {
  }

  lemma {:induction false} ExpandIsKept(row: SubtaskRow, chain: seq<Json>, n: nat)
    requires n <= |chain|
    ensures var kept := Kept(chain, n);
            && |Expand(row, chain, n)| == |kept|
            && forall k :: 0 <= k < |kept| ==>
                 kept[k] < |chain| && Expand(row, chain, n)[k] == Entry(row, chain[kept[k]], kept[k])
  {
    hide EmptyAssistant, Entry;
    if n > 0 {
      ExpandIsKept(row, chain, n - 1);
    }
  }

  lemma SkillsLaw(messages: seq<Message>, skills: Option<Json>)
    requires forall m <- messages :: m.loadedSkills == None
    ensures var out := AttachSkills(messages, skills);
            && |out| == |messages|
            && (forall k :: 0 <= k < |out| ==> out[k].(loadedSkills := None) == messages[k])
            && (forall k :: 0 <= k < |out| ==>
                  (out[k].loadedSkills.Some? <==>
                     skills.Some? && Truthy(skills.value) && LastAssistant(messages) == Some(k)))
            && (forall m <- out :: m.loadedSkills.Some? ==> m.loadedSkills == skills)
  {
  }

  // A completed turn with a chain answers with the chain in order, minus exactly
  // its empty assistant entries; only its last assistant message may carry the
  // loaded skills, and it does whenever there are any.
  lemma ExpansionLaw(row: SubtaskRow, chain: seq<Json>)
    requires row.status != "CANCELLED" && row.status != "FAILED"
    requires Chain(row) == Some(chain) && chain != []
    ensures var kept := Kept(chain, |chain|);
            var out := AssistantMessages(row);
            var skills := Get(ResultOf(row), "loaded_skills");
            && |out| == |kept|
            && (forall k :: 0 <= k < |out| ==>
                  kept[k] < |chain| && out[k].(loadedSkills := None) == Entry(row, chain[kept[k]], kept[k]))
            && (forall k :: 0 <= k < |out| ==>
                  (out[k].loadedSkills.Some? <==>
                     skills.Some? && Truthy(skills.value) && LastAssistant(out) == Some(k)))
            && (forall m <- out :: m.loadedSkills.Some? ==> m.loadedSkills == skills)
  {
    var messages := Expand(row, chain, |chain|);
    var skills := Get(ResultOf(row), "loaded_skills");
    assert AssistantMessages(row) == AttachSkills(messages, skills);
    hide AssistantMessages, AttachSkills;
    ExpandIsKept(row, chain, |chain|);
    assert forall k :: 0 <= k < |messages| ==> messages[k].loadedSkills == None;
    hide Entry, EmptyAssistant;
    SkillsLaw(messages, skills);
    SameLastAssistant(messages, AttachSkills(messages, skills));
  }

  lemma SameLastAssistant(a: seq<Message>, b: seq<Message>)
    requires |a| == |b| && forall k :: 0 <= k < |a| ==> a[k].role == b[k].role
    ensures LastAssistant(a) == LastAssistant(b)
  {
  }

  // A cancelled turn is answered if and only if it is an assistant's and left
  // any visible text: that text up to its last visible character, closed by the
  // note that it was interrupted.
  lemma CancelledLaw(row: SubtaskRow)
    requires row.status == "CANCELLED"
    ensures var out := AssistantMessages(row);
            var value := Get(ResultOf(row), "value");
            && |out| <= 1
            && (out != [] <==> row.role == "ASSISTANT" && value.Some? && value.value.Str?
                               && exists c <- value.value.s :: !IsSpace(c))
            && (out != [] ==> exists visible :: ClosesTurn(out[0], value.value.s, visible))
  {
    var value := Get(ResultOf(row), "value");
    if value.Some? && value.value.Str? {
      var text := value.value.s;
      BlankIff(text);
      TrimEndLaw(text);
      hide TrimEnd, Trim, Blank;
      if AssistantMessages(row) != [] {
        assert ClosesTurn(AssistantMessages(row)[0], text, TrimEnd(text));
      }
    }
  }

  ghost predicate ClosesTurn(message: Message, text: string, visible: string) {
    && visible != "" && visible <= text
    && !IsSpace(visible[|visible| - 1]) && (forall c <- text[|visible|..] :: IsSpace(c))
    && message.content == Plain(visible + "\n\n" + CANCELLED_NOTE)
    && message.role == "assistant" && message.metadata == None
  }

  /* ---------- The response ---------- */

  // What a user turn answers with: its content is built elsewhere from the
  // prompt and its attachments, and building it may fail.
  type UserContent = SubtaskRow -> Option<Content>

  function UserMessage(row: SubtaskRow, content: Content): Message {
    Bare(MessageId(row.id, None), "user", content, row.createdAt)
  }

  function MessagesOf(row: SubtaskRow, build: UserContent): Result<seq<Message>, HistoryError> {
    if row.role == "USER" then
      match build(row)
      case None => Err(ContentFailed)
      case Some(content) => Ok([UserMessage(row, content)])
    else Ok(AssistantMessages(row))
  }

  // The messages of the first `n` rows; the first failing row fails the request.
  function Respond(rows: seq<SubtaskRow>, n: nat, build: UserContent): Result<seq<Message>, HistoryError>
    requires n <= |rows|
  {
    if n == 0 then Ok([])
    else match Respond(rows, n - 1, build)
      case Err(error) => Err(error)
      case Ok(earlier) =>
        match MessagesOf(rows[n - 1], build)
        case Err(error) => Err(error)
        case Ok(messages) => Ok(earlier + messages)
  }

  // Parse `task-<id>` or `subtask-<id>`.
  function ParseSessionId(sessionId: string): Option<(string, int)> {
    match SplitOnce(sessionId, '-')
    case None => None
    case Some((kind, id)) =>
      if kind != "task" && kind != "subtask" then None
      else match ParseI64(id)
        case None => None
        case Some(value) => Some((kind, value))
  }

  lemma SessionIdRoundTrip(kind: string, id: int)
    requires kind == "task" || kind == "subtask"
    requires I64_MIN <= id <= I64_MAX
    ensures ParseSessionId(kind + "-" + Render(id)) == Some((kind, id))
  {
    SplitOnceOf(kind, Render(id), '-');
    ParseI64OfRender(id);
  }

  // A session id is one of the two kinds, a dash, and a decimal number that fits
  // into 64 bits.
  lemma SessionIdIff(sessionId: string, kind: string, id: int)
    ensures ParseSessionId(sessionId) == Some((kind, id)) <==>
            && (kind == "task" || kind == "subtask")
            && exists text :: sessionId == kind + "-" + text && ParseI64(text) == Some(id)
  {
    hide ParseI64;
    forall text | sessionId == kind + "-" + text && (kind == "task" || kind == "subtask")
      ensures SplitOnce(sessionId, '-') == Some((kind, text))
    {
      assert sessionId == kind + ['-'] + text;
      SplitOnceOf(kind, text, '-');
    }
    if ParseSessionId(sessionId) == Some((kind, id)) {
      var (before, text) := SplitOnce(sessionId, '-').value;
      assert sessionId == before + "-" + text;
    }
  }

  // Every task id a request can carry reaches that task's history.
  lemma TaskSession(store: Store, taskId: int, query: Query, build: UserContent)
    requires I64_MIN <= taskId <= I64_MAX
    ensures SessionHistory(store, "task" + "-" + Render(taskId), query, build)
            == match History(store, taskId, query, build)
               case Err(error) => Err(Failed(error))
               case Ok(messages) => Ok(messages)
    ensures SessionHistory(store, "subtask" + "-" + Render(taskId), query, build) == Err(NotATask)
    ensures forall sessionId | ParseSessionId(sessionId) == None ::
              SessionHistory(store, sessionId, query, build) == Err(BadSession)
  {
    SessionIdRoundTrip("task", taskId);
    SessionIdRoundTrip("subtask", taskId);
    hide History, ParseSessionId;
  }

  datatype Query = Query(limit: Option<int>, before: Option<int>, fromLatestCompaction: bool)

  // Why a request is refused.
  datatype Refusal = BadSession | NotATask | Failed(error: HistoryError)

  // The window of a task's history, resolved on behalf of the task's owner.
  function HistoryRows(store: Store, taskId: int, query: Query): Result<seq<SubtaskRow>, HistoryError> {
    if taskId !in store.tasks then Err(TaskNotFound)
    else Resolve(store, taskId, store.tasks[taskId].userId, query.before, query.limit, query.fromLatestCompaction)
  }

  function History(store: Store, taskId: int, query: Query, build: UserContent)
    : Result<seq<Message>, HistoryError>
  {
    match HistoryRows(store, taskId, query)
    case Err(error) => Err(error)
    case Ok(rows) => Respond(rows, |rows|, build)
  }

  // The same by session id; only task sessions have a history.
  function SessionHistory(store: Store, sessionId: string, query: Query, build: UserContent)
    : Result<seq<Message>, Refusal>
  {
    match ParseSessionId(sessionId)
    case None => Err(BadSession)
    case Some((kind, taskId)) =>
      if kind != "task" then Err(NotATask)
      else match History(store, taskId, query, build)
        case Err(error) => Err(Failed(error))
        case Ok(messages) => Ok(messages)
  }

  method GetChatHistory(store: Store, sessionId: string, query: Query, build: UserContent)
    returns (r: Result<seq<Message>, Refusal>)
    ensures r == SessionHistory(store, sessionId, query, build)
  {
    var session := ParseSessionId(sessionId);
    if session.None? {
      return Err(BadSession);
    }
    if session.value.0 != "task" {
      return Err(NotATask);
    }
    var answer := TaskHistory(store, session.value.1, query, build);
    match answer
    case Err(error) => return Err(Failed(error));
    case Ok(messages) => return Ok(messages);
  }

  method TaskHistory(store: Store, taskId: int, query: Query, build: UserContent)
    returns (r: Result<seq<Message>, HistoryError>)
    ensures r == History(store, taskId, query, build)
  {
    if taskId !in store.tasks {
      return Err(TaskNotFound);
    }
    var userId := store.tasks[taskId].userId;
    var resolved := ResolveHistorySubtasks(
      store, taskId, userId, query.before, query.limit, query.fromLatestCompaction);
    if resolved.Err? {
      return Err(resolved.error);
    }
    var subtasks := resolved.value;
    var messages := [];
    for n := 0 to |subtasks|
      invariant Respond(subtasks, n, build) == Ok(messages)
    {
      var subtask := subtasks[n];
      if subtask.role == "USER" {
        var content := build(subtask);
        if content.None? {
          RespondFails(subtasks, n + 1, build);
          return Err(ContentFailed);
        }
        messages := messages + [UserMessage(subtask, content.value)];
      } else {
        var own := BuildAssistantMessages(subtask);
        messages := messages + own;
      }
    }
    return Ok(messages);
  }

  lemma {:induction false} RespondFails(rows: seq<SubtaskRow>, n: nat, build: UserContent)
    requires n <= |rows| && Respond(rows, n, build).Err?
    ensures Respond(rows, |rows|, build) == Respond(rows, n, build)
    decreases |rows| - n
  {
    hide MessagesOf;
    if n < |rows| {
      RespondFails(rows, n + 1, build);
    }
  }
}
