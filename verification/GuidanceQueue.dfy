// The guidance queue of one chat turn: a shared list that producers append to,
// consumers pop from, and an expiry drains in two separate commands.
module GuidanceQueue {
  import opened Wrappers
  import opened JsonValues
  import opened Text

  /* ---------- Keys ---------- */

  const KEY_PREFIX := "chat:guidance:"

  function QueueKey(taskId: int, subtaskId: int): string {
    KEY_PREFIX + (Render(taskId) + ":" + Render(subtaskId))
  }

  lemma {:induction false} NoColonInRender(i: int)
    ensures ':' !in Render(i)
  {
  }

  lemma SamePrefix(prefix: string, x: string, y: string)
    requires prefix + x == prefix + y
    ensures x == y
  {
    assert x == (prefix + x)[|prefix|..] && y == (prefix + y)[|prefix|..];
  }

  // The name of a turn's list, and that different turns never share one.
  lemma QueueKeyText(taskId: int, subtaskId: int)
    ensures QueueKey(taskId, subtaskId) == "chat:guidance:" + Render(taskId) + ":" + Render(subtaskId)
  {
    hide Render;
    assert QueueKey(taskId, subtaskId) == KEY_PREFIX + (Render(taskId) + ":" + Render(subtaskId));
    assert KEY_PREFIX + (Render(taskId) + ":" + Render(subtaskId))
           == KEY_PREFIX + Render(taskId) + ":" + Render(subtaskId);
  }

  lemma QueueKeyInjective(a: int, b: int, c: int, d: int)
    requires QueueKey(a, b) == QueueKey(c, d)
    ensures a == c && b == d
  {
    NoColonInRender(a);
    NoColonInRender(c);
    hide Render;
    SamePrefix(KEY_PREFIX, Render(a) + ":" + Render(b), Render(c) + ":" + Render(d));
    SeparatorUnique(Render(a), Render(b), Render(c), Render(d), ':');
    RenderInjective(a, c);
    RenderInjective(b, d);
  }

  /* ---------- Items ---------- */

  // A stored item: bytes that are not JSON, or the value they decode to.
  datatype Raw = Broken | Doc(value: Json)

  // The text of a float, an array or an object.
  type Renderer = Json -> string

  // `str(value)` of a truthy value.
  function PythonStr(value: Json, render: Renderer): Option<string> {
    if !Truthy(value) then None
    else match value
      case Bool(_) => Some("True")
      case Int(i) => Some(Render(i))
      case Str(s) => Some(s)
      case _ => Some(render(value))
  }

  function GuidanceId(item: Raw, render: Renderer): Option<string>
    requires item.Doc?
  {
    match Get(item.value, "guidance_id")
    case None => None
    case Some(field) => PythonStr(field, render)
  }

  // The id an expiry takes from an item, if any.
  function IdIn(item: Raw, render: Renderer): Option<string> {
    if item.Broken? then None else GuidanceId(item, render)
  }

  predicate HasId(item: Raw, render: Renderer) {
    IdIn(item, render).Some?
  }

  // The id by kind of value: a text as it is, an integer in decimals, `True`,
  // and anything else that is not empty or zero as rendered.
  ghost predicate Identifies(value: Json, render: Renderer, id: string) {
    && value.Obj? && "guidance_id" in value.fields
    && match value.fields["guidance_id"]
       case Null => false
       case Bool(b) => b && id == "True"
       case Int(i) => i != 0 && id == Render(i)
       case Float(f) => f != 0.0 && id == render(value.fields["guidance_id"])
       case Str(s) => s != "" && id == s
       case Arr(items) => |items| > 0 && id == render(value.fields["guidance_id"])
       case Obj(fields) => |fields| > 0 && id == render(value.fields["guidance_id"])
  }

  lemma IdIff(item: Raw, render: Renderer, id: string)
    ensures IdIn(item, render) == Some(id) <==> item.Doc? && Identifies(item.value, render, id)
  {
    hide Render;
  }

  datatype Failure = Unhandled

  // The ids of the first `n` items; an undecodable item fails the request.
  function ExpiredIds(items: seq<Raw>, n: nat, render: Renderer): Result<seq<string>, Failure>
    requires n <= |items|
  {
    if n == 0 then Ok([])
    else match ExpiredIds(items, n - 1, render)
      case Err(error) => Err(error)
      case Ok(ids) =>
        if items[n - 1].Broken? then Err(Unhandled)
        else match GuidanceId(items[n - 1], render)
          case None => Ok(ids)
          case Some(id) => Ok(ids + [id])
  }

  lemma {:induction false} ExpiredIdsFails(items: seq<Raw>, n: nat, render: Renderer)
    requires n <= |items|
    ensures ExpiredIds(items, n, render).Err? <==> exists k :: 0 <= k < n && items[k].Broken?
  {
    if n > 0 {
      ExpiredIdsFails(items, n - 1, render);
    }
  }

  method ParseExpiredIds(items: seq<Raw>, render: Renderer) returns (r: Result<seq<string>, Failure>)
    ensures r == ExpiredIds(items, |items|, render)
  {
    var expiredIds := [];
    for n := 0 to |items|
      invariant ExpiredIds(items, n, render) == Ok(expiredIds)
    {
      if items[n].Broken? {
        ExpiredIdsFails(items, |items|, render);
        assert ExpiredIds(items, |items|, render).error == Unhandled;
        return Err(Unhandled);
      }
      var field := Get(items[n].value, "guidance_id");
      if field.None? {
        continue;
      }
      var guidanceId := PythonStr(field.value, render);
      if guidanceId.Some? {
        expiredIds := expiredIds + [guidanceId.value];
      }
    }
    return Ok(expiredIds);
  }

  // An item as producers write it: an object with a non-empty text id.
  predicate WellFormed(item: Raw) {
    && item.Doc?
    && Get(item.value, "guidance_id").Some?
    && Get(item.value, "guidance_id").value.Str?
    && Get(item.value, "guidance_id").value.s != ""
  }

  function IdOf(item: Raw): string
    requires WellFormed(item)
  {
    Get(item.value, "guidance_id").value.s
  }

  // An answer holds the ids of the items that have one, in order and no others.
  ghost function IdsIn(items: seq<Raw>, render: Renderer): seq<string> {
    if items == [] then []
    else
      var last := |items| - 1;
      IdsIn(items[..last], render)
      + (match IdIn(items[last], render) case None => [] case Some(id) => [id])
  }

  lemma {:induction false} ExpiredIdsAre(items: seq<Raw>, n: nat, render: Renderer)
    requires n <= |items| && ExpiredIds(items, n, render).Ok?
    ensures ExpiredIds(items, n, render).value == IdsIn(items[..n], render)
  {
    if n > 0 {
      ExpiredIdsAre(items, n - 1, render);
      assert items[..n][..n - 1] == items[..n - 1];
      hide PythonStr;
    }
  }

  lemma {:induction false} OwnIdIn(items: seq<Raw>, k: nat, render: Renderer)
    requires k < |items| && HasId(items[k], render)
    ensures IdIn(items[k], render).value in IdsIn(items, render)
  {
    hide IdIn;
    if k < |items| - 1 {
      OwnIdIn(items[..|items| - 1], k, render);
    }
  }

  lemma WellFormedId(item: Raw, render: Renderer)
    requires WellFormed(item)
    ensures IdIn(item, render) == Some(IdOf(item))
  {
  }

  // The item a producer stores; `rest` are its other fields.
  function NewItem(guidanceId: Option<string>, uuid: string, rest: map<string, Json>): Raw {
    var id := if guidanceId.Some? && guidanceId.value != "" then guidanceId.value else "guidance-" + uuid;
    Doc(Obj(rest["guidance_id" := Str(id)]))
  }

  // It always has a text id, the one given if that is not empty, and all other
  // fields as they are.
  lemma NewItemWellFormed(guidanceId: Option<string>, uuid: string, rest: map<string, Json>)
    ensures WellFormed(NewItem(guidanceId, uuid, rest))
    ensures IdOf(NewItem(guidanceId, uuid, rest))
            == if guidanceId.None? || guidanceId.value == "" then "guidance-" + uuid else guidanceId.value
    ensures forall key <- rest | key != "guidance_id" ::
              Get(NewItem(guidanceId, uuid, rest).value, key) == Some(rest[key])
  {
  }

  // Well-formed items are all reported, in order, each by its own id.
  lemma {:induction false} WellFormedReported(items: seq<Raw>, n: nat, render: Renderer)
    requires n <= |items| && forall k :: 0 <= k < n ==> WellFormed(items[k])
    ensures var r := ExpiredIds(items, n, render);
            r.Ok? && |r.value| == n && forall k :: 0 <= k < n ==> r.value[k] == IdOf(items[k])
  {
    if n > 0 {
      WellFormedReported(items, n - 1, render);
    }
  }

  /* ---------- The shared list and its two endpoints ---------- */

  class RedisList {
    var items: seq<Raw>

    constructor ()
      ensures items == []
    {
      items := [];
    }

    method RPush(item: Raw)
      modifies this
      ensures items == old(items) + [item]
    {
      items := items + [item];
    }

    // A producer appends an item with the id it was given, or a generated one.
    method Enqueue(guidanceId: Option<string>, uuid: string, rest: map<string, Json>)
      modifies this
      ensures items == old(items) + [NewItem(guidanceId, uuid, rest)]
      ensures WellFormed(NewItem(guidanceId, uuid, rest))
    {
      NewItemWellFormed(guidanceId, uuid, rest);
      RPush(NewItem(guidanceId, uuid, rest));
    }

    method LPop() returns (item: Option<Raw>)
      modifies this
      ensures old(items) == [] ==> item == None && items == []
      ensures old(items) != [] ==> item == Some(old(items)[0]) && items == old(items)[1..]
    {
      if items == [] {
        return None;
      }
      item := Some(items[0]);
      items := items[1..];
    }

    method LRange() returns (all: seq<Raw>)
      ensures all == items
    {
      all := items;
    }

    method Del()
      modifies this
      ensures items == []
    {
      items := [];
    }

    // A consumer pops the oldest item and announces it; one it cannot decode or
    // announce is gone all the same.
    method Consume(decodes: Json -> bool, announced: bool) returns (r: Result<Option<Json>, Failure>)
      modifies this
      ensures old(items) == [] ==> r == Ok(None) && items == []
      ensures old(items) != [] ==>
                && items == old(items)[1..]
                && r == (match old(items)[0]
                         case Broken => Err(Unhandled)
                         case Doc(value) =>
                           if decodes(value) && announced then Ok(Some(value)) else Err(Unhandled))
    {
      var raw := LPop();
      if raw.None? {
        return Ok(None);
      }
      if raw.value.Broken? || !decodes(raw.value.value) {
        return Err(Unhandled);
      }
      if !announced {
        return Err(Unhandled);
      }
      return Ok(Some(raw.value.value));
    }

    // Undisturbed, an expiry empties the list and answers for what it held,
    // unless an undecodable item makes it fail after the deletion.
    method Expire(render: Renderer) returns (r: Result<seq<string>, Failure>)
      modifies this
      ensures items == []
      ensures r == ExpiredIds(old(items), |old(items)|, render)
    {
      var rawItems := LRange();
      Del();
      r := ParseExpiredIds(rawItems, render);
    }
  }

  /* ---------- Interleaving ---------- */

  // Items are told apart by their ticket: their position among all items ever
  // enqueued.  A drain in flight holds what it read, and how far the enqueuing,
  // popping and draining had come when it read.
  datatype Drain = Drain(snapshot: seq<nat>, enqueuedAt: nat, poppedAt: nat, finishedAt: nat)

  // A completed drain: what its deletion removed, and how far things had come.
  datatype Finished = Finished(drain: Drain, deleted: seq<nat>, enqueuedTo: nat, poppedTo: nat, finishedTo: nat)

  datatype State = State(
    enqueued: seq<Raw>, queue: seq<nat>, popped: seq<nat>, drains: map<nat, Drain>, finished: seq<Finished>)

  datatype Step = Enqueue(item: Raw) | Pop | Read(id: nat) | Delete(id: nat)

  const EMPTY := State([], [], [], map[], [])

  // The state after a step, or None where the step is not enabled.  Popping an
  // empty list changes nothing; any number of drains may be in flight.
  function Apply(s: State, step: Step): Option<State> {
    match step
    case Enqueue(item) =>
      Some(s.(enqueued := s.enqueued + [item], queue := s.queue + [|s.enqueued|]))
    case Pop =>
      if s.queue == [] then Some(s)
      else Some(s.(queue := s.queue[1..], popped := s.popped + [s.queue[0]]))
    case Read(id) =>
      if id in s.drains then None
      else Some(s.(drains := s.drains[id := Drain(s.queue, |s.enqueued|, |s.popped|, |s.finished|)]))
    case Delete(id) =>
      if id !in s.drains then None
      else Some(s.(
        queue := [], drains := s.drains - {id},
        finished := s.finished
          + [Finished(s.drains[id], s.queue, |s.enqueued|, |s.popped|, |s.finished|)]))
  }

  function Run(s: State, steps: seq<Step>): Option<State>
    decreases steps
  {
    if steps == [] then Some(s)
    else match Apply(s, steps[0])
      case None => None
      case Some(t) => Run(t, steps[1..])
  }

  // The numbers from `lo` up to `hi`.
  ghost predicate IsRange(tickets: seq<nat>, lo: int, hi: int) {
    && |tickets| == hi - lo
    && forall i :: 0 <= i < |tickets| ==> tickets[i] == lo + i
  }

  lemma RangeMembers(tickets: seq<nat>, lo: int, hi: int, t: nat)
    requires IsRange(tickets, lo, hi)
    ensures t in tickets <==> lo <= t < hi
  {
    if lo <= t < hi {
      assert tickets[t - lo] == t;
    }
  }

  // The first ticket still queued.
  ghost function Head(s: State): int {
    |s.enqueued| - |s.queue|
  }

  ghost function First(d: Drain): int {
    d.enqueuedAt - |d.snapshot|
  }

  ghost function FirstDeleted(f: Finished): int {
    f.enqueuedTo - |f.deleted|
  }

  ghost predicate DrainInv(s: State, d: Drain) {
    && IsRange(d.snapshot, First(d), d.enqueuedAt)
    && 0 <= First(d) <= Head(s)
    && d.enqueuedAt <= |s.enqueued|
    && d.poppedAt <= |s.popped| && d.finishedAt <= |s.finished|
    && (forall p :: 0 <= p < d.poppedAt ==> s.popped[p] < First(d))
    && (forall k :: 0 <= k < d.finishedAt ==> s.finished[k].enqueuedTo <= First(d))
  }

  ghost predicate FinishedInv(s: State, k: nat)
    requires k < |s.finished|
  {
    var f := s.finished[k];
    && IsRange(f.drain.snapshot, First(f.drain), f.drain.enqueuedAt)
    && IsRange(f.deleted, FirstDeleted(f), f.enqueuedTo)
    && 0 <= First(f.drain) <= FirstDeleted(f)
    && f.drain.enqueuedAt <= f.enqueuedTo <= Head(s)
    && f.drain.poppedAt <= f.poppedTo <= |s.popped|
    && f.drain.finishedAt <= f.finishedTo == k
    && (forall p :: 0 <= p < f.drain.poppedAt ==> s.popped[p] < First(f.drain))
    && (forall p :: f.drain.poppedAt <= p < f.poppedTo ==> s.popped[p] < FirstDeleted(f))
    && (forall p :: f.poppedTo <= p < |s.popped| ==> s.popped[p] >= f.enqueuedTo)
    && (forall j :: 0 <= j < f.drain.finishedAt ==> s.finished[j].enqueuedTo <= First(f.drain))
    && (forall j :: 0 <= j < k ==> s.finished[j].enqueuedTo <= FirstDeleted(f))
  }

  // A ticket that left the queue was popped or deleted.
  ghost predicate Gone(s: State, t: nat) {
    t in s.popped || exists k :: 0 <= k < |s.finished| && FirstDeleted(s.finished[k]) <= t < s.finished[k].enqueuedTo
  }

  ghost predicate Inv(s: State) {
    && IsRange(s.queue, Head(s), |s.enqueued|) && 0 <= Head(s)
    && (forall p, q :: 0 <= p < q < |s.popped| ==> s.popped[p] < s.popped[q])
    && (forall p :: 0 <= p < |s.popped| ==> s.popped[p] < Head(s))
    && (forall id <- s.drains :: DrainInv(s, s.drains[id]))
    && (forall k :: 0 <= k < |s.finished| ==> FinishedInv(s, k))
    && (forall t: nat :: t < Head(s) ==> Gone(s, t))
  }

  lemma EmptyInv()
    ensures Inv(EMPTY)
  {
  }

  // Nothing about a drain or a finished drain changes while the head advances
  // and enqueuing, popping and draining go on.
  lemma DrainKept(s: State, t: State, d: Drain)
    requires DrainInv(s, d) && Head(s) <= Head(t)
    requires |s.enqueued| <= |t.enqueued| && s.popped <= t.popped && s.finished <= t.finished
    ensures DrainInv(t, d)
  {
    assert forall p :: 0 <= p < |s.popped| ==> t.popped[p] == s.popped[p];
    assert forall k :: 0 <= k < |s.finished| ==> t.finished[k] == s.finished[k];
  }

  lemma FinishedKept(s: State, t: State, k: nat)
    requires k < |s.finished| && FinishedInv(s, k) && Head(s) <= Head(t)
    requires s.popped <= t.popped && s.finished <= t.finished
    requires forall p :: |s.popped| <= p < |t.popped| ==> t.popped[p] >= Head(s)
    ensures FinishedInv(t, k)
  {
    assert forall p :: 0 <= p < |s.popped| ==> t.popped[p] == s.popped[p];
    assert forall j :: 0 <= j < |s.finished| ==> t.finished[j] == s.finished[j];
  }

  lemma GoneKept(s: State, t: State, ticket: nat)
    requires Gone(s, ticket) && s.popped <= t.popped && s.finished <= t.finished
    ensures Gone(t, ticket)
  {
    if ticket in s.popped {
      var p :| 0 <= p < |s.popped| && s.popped[p] == ticket;
      assert t.popped[p] == ticket;
    } else {
      var k :| 0 <= k < |s.finished| && FirstDeleted(s.finished[k]) <= ticket < s.finished[k].enqueuedTo;
      assert t.finished[k] == s.finished[k];
    }
  }

  lemma OthersKept(s: State, t: State)
    requires Inv(s) && Head(s) <= Head(t)
    requires |s.enqueued| <= |t.enqueued| && s.popped <= t.popped && s.finished <= t.finished
    requires forall p :: |s.popped| <= p < |t.popped| ==> t.popped[p] >= Head(s)
    ensures forall id <- s.drains :: DrainInv(t, s.drains[id])
    ensures forall k :: 0 <= k < |s.finished| ==> FinishedInv(t, k)
    ensures forall ticket: nat :: ticket < Head(s) ==> Gone(t, ticket)
  {
    hide DrainInv, FinishedInv, Gone;
    forall id | id in s.drains
      ensures DrainInv(t, s.drains[id])
    {
      DrainKept(s, t, s.drains[id]);
    }
    forall k | 0 <= k < |s.finished|
      ensures FinishedInv(t, k)
    {
      FinishedKept(s, t, k);
    }
    forall ticket: nat | ticket < Head(s)
      ensures Gone(t, ticket)
    {
      GoneKept(s, t, ticket);
    }
  }

  lemma PopKeeps(s: State, t: State)
    requires Inv(s) && s.queue != [] && Apply(s, Pop) == Some(t)
    ensures Inv(t)
  {
    OthersKept(s, t);
    hide DrainInv, FinishedInv;
    assert s.queue[0] == Head(s);
    assert t.popped[|s.popped|] == Head(s);
    forall ticket: nat | ticket < Head(t)
      ensures Gone(t, ticket)
    {
      if ticket == Head(s) {
        assert t.popped[|s.popped|] == ticket;
      }
    }
  }

  lemma ReadKeeps(s: State, t: State, id: nat)
    requires Inv(s) && Apply(s, Read(id)) == Some(t)
    ensures Inv(t)
  {
    OthersKept(s, t);
    NewDrain(s, t, id);
    hide DrainInv, FinishedInv, Gone;
  }

  lemma NewDrain(s: State, t: State, id: nat)
    requires Inv(s) && Apply(s, Read(id)) == Some(t)
    ensures DrainInv(t, t.drains[id])
  {
    var d := t.drains[id];
    assert First(d) == Head(s) == Head(t);
    forall k | 0 <= k < |s.finished|
      ensures s.finished[k].enqueuedTo <= Head(s)
    {
      assert FinishedInv(s, k);
    }
  }

  lemma DeleteKeeps(s: State, t: State, id: nat)
    requires Inv(s) && Apply(s, Delete(id)) == Some(t)
    ensures Inv(t)
  {
    OthersKept(s, t);
    var k := |s.finished|;
    NewFinished(s, t, id);
    hide DrainInv, FinishedInv;
    forall ticket: nat | ticket < Head(t)
      ensures Gone(t, ticket)
    {
      if ticket >= Head(s) {
        assert FirstDeleted(t.finished[k]) <= ticket < t.finished[k].enqueuedTo;
      }
    }
  }

  lemma NewFinished(s: State, t: State, id: nat)
    requires Inv(s) && Apply(s, Delete(id)) == Some(t)
    ensures FinishedInv(t, |s.finished|)
  {
    var d := s.drains[id];
    assert DrainInv(s, d);
    assert forall j :: 0 <= j < |s.finished| ==> FinishedInv(s, j) && t.finished[j] == s.finished[j];
  }

  lemma StepKeeps(s: State, step: Step, t: State)
    requires Inv(s) && Apply(s, step) == Some(t)
    ensures Inv(t)
  {
    match step
    case Enqueue(_) =>
      OthersKept(s, t);
      hide DrainInv, FinishedInv, Gone;
    case Pop =>
      if s.queue != [] {
        PopKeeps(s, t);
      }
    case Read(id) => ReadKeeps(s, t, id);
    case Delete(id) => DeleteKeeps(s, t, id);
  }

  lemma {:induction false} RunKeeps(s: State, steps: seq<Step>, t: State)
    requires Inv(s) && Run(s, steps) == Some(t)
    ensures Inv(t)
    decreases steps
  {
    if steps != [] {
      StepKeeps(s, steps[0], Apply(s, steps[0]).value);
      RunKeeps(Apply(s, steps[0]).value, steps[1..], t);
    }
  }

  /* ---------- What every interleaving guarantees ---------- */

  ghost predicate DeletedBy(s: State, t: nat, k: nat) {
    k < |s.finished| && t in s.finished[k].deleted
  }

  ghost predicate ReadBy(s: State, t: nat, k: nat) {
    k < |s.finished| && t in s.finished[k].drain.snapshot
  }

  // The items behind tickets.
  ghost function ItemsOf(s: State, tickets: seq<nat>): seq<Raw> {
    seq(|tickets|, i requires 0 <= i < |tickets| =>
      if tickets[i] < |s.enqueued| then s.enqueued[tickets[i]] else Broken)
  }

  // What drain `k` answered, from the items it had read.
  ghost function Answer(s: State, k: nat, render: Renderer): Result<seq<string>, Failure>
    requires k < |s.finished|
  {
    var items := ItemsOf(s, s.finished[k].drain.snapshot);
    ExpiredIds(items, |items|, render)
  }

  // Drain `k` read the ticket's item and answered, its id among the ids.
  ghost predicate ReportedBy(s: State, t: nat, k: nat, render: Renderer) {
    && ReadBy(s, t, k)
    && t < |s.enqueued|
    && HasId(s.enqueued[t], render)
    && Answer(s, k, render).Ok?
    && IdIn(s.enqueued[t], render).value in Answer(s, k, render).value
  }

  // Drain `k` read an item that is not JSON.
  ghost predicate Spoiled(s: State, k: nat) {
    exists t: nat :: t < |s.enqueued| && ReadBy(s, t, k) && s.enqueued[t].Broken?
  }

  ghost predicate PoppedAs(s: State, t: nat, p: nat) {
    p < |s.popped| && s.popped[p] == t
  }

  ghost predicate Reachable(s: State) {
    exists steps :: Run(EMPTY, steps) == Some(s)
  }

  lemma ReachableInv(s: State)
    requires Reachable(s)
    ensures Inv(s)
  {
    hide Run, Inv;
    var steps :| Run(EMPTY, steps) == Some(s);
    EmptyInv();
    RunKeeps(EMPTY, steps, s);
  }

  // Pops come in the order of enqueuing, so no item is popped twice.
  lemma PopsAreFifo(s: State)
    requires Reachable(s)
    ensures forall p, q :: 0 <= p < q < |s.popped| ==> s.popped[p] < s.popped[q]
    ensures forall p :: 0 <= p < |s.popped| ==> s.popped[p] < |s.enqueued|
  {
    ReachableInv(s);
    hide DrainInv, FinishedInv, Gone;
  }

  lemma DeletedRange(s: State, t: nat, k: nat)
    requires Inv(s) && k < |s.finished|
    ensures DeletedBy(s, t, k) <==> FirstDeleted(s.finished[k]) <= t < s.finished[k].enqueuedTo
    ensures ReadBy(s, t, k) <==> First(s.finished[k].drain) <= t < s.finished[k].drain.enqueuedAt
  {
    var f := s.finished[k];
    assert FinishedInv(s, k);
    RangeMembers(f.deleted, FirstDeleted(f), f.enqueuedTo, t);
    RangeMembers(f.drain.snapshot, First(f.drain), f.drain.enqueuedAt, t);
  }

  // What a drain deleted lies between what was popped before and after.
  lemma DeletedApart(s: State, t: nat, k: nat)
    requires Inv(s) && DeletedBy(s, t, k)
    ensures t < Head(s)
    ensures t !in s.popped
    ensures forall l :: k < l < |s.finished| ==> t < FirstDeleted(s.finished[l])
  {
    DeletedRange(s, t, k);
    var f := s.finished[k];
    assert FinishedInv(s, k);
    hide Gone, DrainInv, IsRange;
    forall l | k < l < |s.finished|
      ensures t < FirstDeleted(s.finished[l])
    {
      assert FinishedInv(s, l);
    }
    hide FinishedInv;
    forall p | 0 <= p < |s.popped|
      ensures s.popped[p] != t
    {
      PoppedApart(s, k, p);
    }
  }

  lemma PoppedApart(s: State, k: nat, p: nat)
    requires Inv(s) && k < |s.finished| && p < |s.popped|
    ensures s.popped[p] < FirstDeleted(s.finished[k]) || s.popped[p] >= s.finished[k].enqueuedTo
  {
    assert FinishedInv(s, k);
  }

  // Every enqueued item is queued, popped, or removed by one drain, and only
  // one of these.
  lemma OneFateEach(s: State, t: nat)
    requires Reachable(s) && t < |s.enqueued|
    ensures t in s.queue || t in s.popped || exists k :: DeletedBy(s, t, k)
    ensures t in s.queue ==> t !in s.popped
    ensures t in s.queue || t in s.popped ==> forall k :: !DeletedBy(s, t, k)
    ensures forall k, l :: DeletedBy(s, t, k) && DeletedBy(s, t, l) ==> k == l
  {
    ReachableInv(s);
    hide Reachable, DrainInv, FinishedInv;
    RangeMembers(s.queue, Head(s), |s.enqueued|, t);
    if t < Head(s) {
      assert Gone(s, t);
      if t !in s.popped {
        var k: nat :| k < |s.finished| && FirstDeleted(s.finished[k]) <= t < s.finished[k].enqueuedTo;
        DeletedRange(s, t, k);
      }
    }
    forall k, l | DeletedBy(s, t, k) && DeletedBy(s, t, l)
      ensures k == l
    {
      DeletedApart(s, t, k);
      DeletedApart(s, t, l);
      DeletedRange(s, t, k);
      DeletedRange(s, t, l);
    }
    forall k | DeletedBy(s, t, k)
      ensures t < Head(s) && t !in s.popped
    {
      DeletedApart(s, t, k);
    }
  }

  // The drain answers with the ids of the items it read that have one, in order
  // and without exception, unless one of them is not JSON: then it fails.
  lemma AnswerExact(s: State, k: nat, render: Renderer)
    requires Reachable(s) && k < |s.finished|
    ensures Answer(s, k, render).Err? <==> Spoiled(s, k)
    ensures Answer(s, k, render).Ok? ==>
              Answer(s, k, render).value == IdsIn(ItemsOf(s, s.finished[k].drain.snapshot), render)
  {
    ReachableInv(s);
    assert FinishedInv(s, k);
    hide Reachable, Inv, Gone;
    var f := s.finished[k];
    var items := ItemsOf(s, f.drain.snapshot);
    ExpiredIdsFails(items, |items|, render);
    assert forall i :: 0 <= i < |items| ==> items[i] == s.enqueued[f.drain.snapshot[i]];
    if Spoiled(s, k) {
      var t: nat :| t < |s.enqueued| && ReadBy(s, t, k) && s.enqueued[t].Broken?;
      var i :| 0 <= i < |items| && f.drain.snapshot[i] == t;
      assert items[i].Broken?;
    }
    if Answer(s, k, render).Err? {
      var i :| 0 <= i < |items| && items[i].Broken?;
      assert ReadBy(s, f.drain.snapshot[i], k);
    } else {
      ExpiredIdsAre(items, |items|, render);
      assert items[..|items|] == items;
    }
  }

  // So an item is reported exactly if it was read, has an id, and nothing that
  // was read with it spoils the answer.
  lemma ReportedIff(s: State, t: nat, k: nat, render: Renderer)
    requires Reachable(s) && k < |s.finished| && t < |s.enqueued|
    ensures ReportedBy(s, t, k, render) <==>
            ReadBy(s, t, k) && HasId(s.enqueued[t], render) && !Spoiled(s, k)
  {
    AnswerExact(s, k, render);
    hide Reachable, Spoiled, HasId;
    if ReadBy(s, t, k) && HasId(s.enqueued[t], render) {
      var snapshot := s.finished[k].drain.snapshot;
      var i :| 0 <= i < |snapshot| && snapshot[i] == t;
      OwnIdIn(ItemsOf(s, snapshot), i, render);
    }
  }

  // What can go wrong with a drain, exactly.  An item it removes goes unreported
  // if and only if it was enqueued between the drain's two steps, has no id of
  // its own, or was read together with one that is not JSON.  An item it reports
  // but does not remove was popped, or removed by another drain, in between.
  lemma DrainWindow(s: State, k: nat, t: nat, render: Renderer)
    requires Reachable(s) && k < |s.finished| && t < |s.enqueued|
    ensures var f := s.finished[k];
            && (DeletedBy(s, t, k) && !ReportedBy(s, t, k, render) <==>
                  && FirstDeleted(f) <= t < f.enqueuedTo
                  && (t >= f.drain.enqueuedAt || !HasId(s.enqueued[t], render) || Spoiled(s, k)))
            && (ReportedBy(s, t, k, render) && !DeletedBy(s, t, k) <==>
                  && First(f.drain) <= t < f.drain.enqueuedAt && t < FirstDeleted(f)
                  && HasId(s.enqueued[t], render) && !Spoiled(s, k))
            && (forall p: nat :: ReadBy(s, t, k) && PoppedAs(s, t, p) ==> f.drain.poppedAt <= p < f.poppedTo)
            && (forall l: nat :: ReadBy(s, t, k) && DeletedBy(s, t, l) ==> f.drain.finishedAt <= l <= k)
            && (ReadBy(s, t, k) ==> t !in s.queue)
  {
    ReportedIff(s, t, k, render);
    ReachableInv(s);
    hide Reachable, Gone, DrainInv, ReportedBy, Spoiled, HasId;
    var f := s.finished[k];
    DeletedRange(s, t, k);
    assert FinishedInv(s, k);
    RangeMembers(s.queue, Head(s), |s.enqueued|, t);
    forall l: nat | ReadBy(s, t, k) && DeletedBy(s, t, l)
      ensures f.drain.finishedAt <= l <= k
    {
      DeletedRange(s, t, l);
      EarlierDeletes(s, k, l);
    }
  }

  lemma EarlierDeletes(s: State, k: nat, l: nat)
    requires Inv(s) && k < |s.finished| && l < |s.finished|
    ensures l < s.finished[k].drain.finishedAt ==> s.finished[l].enqueuedTo <= First(s.finished[k].drain)
    ensures l > k ==> s.finished[k].enqueuedTo <= FirstDeleted(s.finished[l])
  {
    assert FinishedInv(s, k);
    assert FinishedInv(s, l);
  }

  // Nothing happened between the two steps of drain `k`.
  ghost predicate Undisturbed(s: State, k: nat)
    requires k < |s.finished|
  {
    var f := s.finished[k];
    f.drain.enqueuedAt == f.enqueuedTo && f.drain.poppedAt == f.poppedTo && f.drain.finishedAt == f.finishedTo
  }

  // An undisturbed drain removes exactly what it read.
  lemma UndisturbedReads(s: State, k: nat, t: nat)
    requires Reachable(s) && k < |s.finished| && Undisturbed(s, k)
    ensures ReadBy(s, t, k) <==> DeletedBy(s, t, k)
    ensures ReadBy(s, t, k) ==> t < |s.enqueued|
  {
    ReachableInv(s);
    DeletedRange(s, t, k);
    assert FinishedInv(s, k);
    if ReadBy(s, t, k) {
      DrainWindow(s, k, t, (value: Json) => "");
      hide Gone, DrainInv, IsRange, FinishedInv, Inv, ReadBy;
      forall p: nat | p < |s.popped|
        ensures s.popped[p] != t
      {
        assert PoppedAs(s, t, p) <==> s.popped[p] == t;
      }
      OneFateEach(s, t);
      var l: nat :| DeletedBy(s, t, l);
    }
  }

  // It reports exactly what it removes if and only if everything it removes has
  // an id.
  lemma UndisturbedDrain(s: State, k: nat, render: Renderer)
    requires Reachable(s) && k < |s.finished| && Undisturbed(s, k)
    ensures (forall t: nat :: ReportedBy(s, t, k, render) <==> DeletedBy(s, t, k))
            <==>
            (forall t: nat | t < |s.enqueued| && DeletedBy(s, t, k) :: HasId(s.enqueued[t], render))
  {
    forall t: nat
      ensures ReadBy(s, t, k) <==> DeletedBy(s, t, k)
      ensures ReadBy(s, t, k) ==> t < |s.enqueued|
    {
      UndisturbedReads(s, k, t);
    }
    forall t: nat | t < |s.enqueued|
      ensures ReportedBy(s, t, k, render) <==>
              ReadBy(s, t, k) && HasId(s.enqueued[t], render) && !Spoiled(s, k)
    {
      ReportedIff(s, t, k, render);
    }
    assert forall item: Raw :: item.Broken? ==> !HasId(item, render);
    hide Reachable, Undisturbed, HasId, DeletedBy, ReadBy, Answer;
  }

  // Queued, popped and reported items cover what was enqueued.
  ghost predicate Covered(s: State, render: Renderer) {
    forall t: nat | t < |s.enqueued| ::
      t in s.queue || t in s.popped || exists k :: ReportedBy(s, t, k, render)
  }

  // When all drains ran undisturbed, an item is at most one of queued, popped
  // and reported, and reported at most once; each item is one of these if and
  // only if all the items the drains removed have an id.
  lemma UndisturbedPartition(s: State, render: Renderer)
    requires Reachable(s)
    requires forall k :: 0 <= k < |s.finished| ==> Undisturbed(s, k)
    ensures forall t: nat | t < |s.enqueued| :: AtMostOneFate(s, t, render)
    ensures Covered(s, render) <==> RemovedHaveIds(s, render)
  {
    forall t: nat | t < |s.enqueued|
      ensures AtMostOneFate(s, t, render)
    {
      ReportedFates(s, t, render);
    }
    if RemovedHaveIds(s, render) {
      forall t: nat | t < |s.enqueued|
        ensures t in s.queue || t in s.popped || exists k :: ReportedBy(s, t, k, render)
      {
        RemovedReported(s, t, render);
      }
    } else {
      var t: nat, k :| t < |s.enqueued| && DeletedBy(s, t, k) && !HasId(s.enqueued[t], render);
      OneFateEach(s, t);
      assert forall l :: !ReportedBy(s, t, l, render);
    }
  }

  ghost predicate AtMostOneFate(s: State, t: nat, render: Renderer) {
    && (t in s.queue ==> t !in s.popped)
    && (t in s.queue || t in s.popped ==> forall k :: !ReportedBy(s, t, k, render))
    && (forall k, l :: ReportedBy(s, t, k, render) && ReportedBy(s, t, l, render) ==> k == l)
  }

  ghost predicate RemovedHaveIds(s: State, render: Renderer) {
    forall t: nat, k | t < |s.enqueued| && DeletedBy(s, t, k) :: HasId(s.enqueued[t], render)
  }

  lemma ReportedFates(s: State, t: nat, render: Renderer)
    requires Reachable(s) && t < |s.enqueued|
    requires forall k :: 0 <= k < |s.finished| ==> Undisturbed(s, k)
    ensures AtMostOneFate(s, t, render)
  {
    OneFateEach(s, t);
    forall k: nat | ReportedBy(s, t, k, render)
      ensures DeletedBy(s, t, k)
    {
      UndisturbedReads(s, k, t);
    }
    hide Reachable, Undisturbed, DeletedBy, ReportedBy;
  }

  lemma RemovedReported(s: State, t: nat, render: Renderer)
    requires Reachable(s) && t < |s.enqueued| && RemovedHaveIds(s, render)
    requires forall k :: 0 <= k < |s.finished| ==> Undisturbed(s, k)
    ensures t in s.queue || t in s.popped || exists k :: ReportedBy(s, t, k, render)
  {
    OneFateEach(s, t);
    if t !in s.queue && t !in s.popped {
      var k: nat :| DeletedBy(s, t, k);
      UndisturbedDrain(s, k, render);
      assert ReportedBy(s, t, k, render);
    }
  }

  // With items as producers write them the condition always holds, and each
  // drain's answer lists the ids of what it removed, in order.
  lemma WellFormedDrains(s: State, render: Renderer)
    requires Reachable(s)
    requires forall k :: 0 <= k < |s.finished| ==> Undisturbed(s, k)
    requires forall item <- s.enqueued :: WellFormed(item)
    ensures Covered(s, render)
    ensures forall k: nat | k < |s.finished| :: WellFormedAnswer(s, k, render)
  {
    UndisturbedPartition(s, render);
    forall t: nat | t < |s.enqueued|
      ensures HasId(s.enqueued[t], render)
    {
      assert s.enqueued[t] in s.enqueued;
      WellFormedId(s.enqueued[t], render);
    }
    forall k: nat | k < |s.finished|
      ensures WellFormedAnswer(s, k, render)
    {
      AnswersWellFormed(s, k, render);
    }
  }

  ghost predicate WellFormedAnswer(s: State, k: nat, render: Renderer)
    requires k < |s.finished| && forall item <- s.enqueued :: WellFormed(item)
  {
    var snapshot := s.finished[k].drain.snapshot;
    && Answer(s, k, render).Ok?
    && |Answer(s, k, render).value| == |snapshot|
    && forall i :: 0 <= i < |snapshot| ==>
         && DeletedBy(s, snapshot[i], k) && snapshot[i] < |s.enqueued|
         && Answer(s, k, render).value[i] == IdOf(s.enqueued[snapshot[i]])
  }

  lemma AnswersWellFormed(s: State, k: nat, render: Renderer)
    requires Reachable(s) && k < |s.finished| && Undisturbed(s, k)
    requires forall item <- s.enqueued :: WellFormed(item)
    ensures WellFormedAnswer(s, k, render)
  {
    var snapshot := s.finished[k].drain.snapshot;
    forall i | 0 <= i < |snapshot|
      ensures DeletedBy(s, snapshot[i], k) && snapshot[i] < |s.enqueued|
    {
      UndisturbedReads(s, k, snapshot[i]);
    }
    var items := ItemsOf(s, snapshot);
    hide Reachable, Undisturbed, DeletedBy, WellFormed;
    assert forall i :: 0 <= i < |items| ==> items[i] == s.enqueued[snapshot[i]];
    WellFormedReported(items, |items|, render);
  }

  lemma RunCons(s: State, step: Step, rest: seq<Step>)
    requires Apply(s, step).Some?
    ensures Run(s, [step] + rest) == Run(Apply(s, step).value, rest)
  {
    assert ([step] + rest)[1..] == rest;
  }

  // All anomalies do occur: an item enqueued in the window vanishes, and an item
  // popped in the window is reported as expired as well.
  lemma WindowAnomalies(item: Raw, render: Renderer) returns (lost: State, doubled: State)
    requires HasId(item, render)
    ensures Reachable(lost) && DeletedBy(lost, 0, 0) && forall k :: !ReportedBy(lost, 0, k, render)
    ensures Reachable(doubled) && PoppedAs(doubled, 0, 0) && ReportedBy(doubled, 0, 0, render)
  {
    var a := Apply(EMPTY, Read(0)).value;
    var b := Apply(a, Enqueue(item)).value;
    lost := Apply(b, Delete(0)).value;
    assert Run(lost, []) == Some(lost);
    RunCons(b, Delete(0), []);
    RunCons(a, Enqueue(item), [Delete(0)] + []);
    RunCons(EMPTY, Read(0), [Enqueue(item)] + ([Delete(0)] + []));
    var c := Apply(EMPTY, Enqueue(item)).value;
    var d := Apply(c, Read(0)).value;
    var e := Apply(d, Pop).value;
    doubled := Apply(e, Delete(0)).value;
    assert Run(doubled, []) == Some(doubled);
    RunCons(e, Delete(0), []);
    RunCons(d, Pop, [Delete(0)] + []);
    RunCons(c, Read(0), [Pop] + ([Delete(0)] + []));
    RunCons(EMPTY, Enqueue(item), [Read(0)] + ([Pop] + ([Delete(0)] + [])));
    hide Run, HasId;
    ReportedIff(doubled, 0, 0, render);
  }

  // And without any disturbance an item that is not JSON takes the others with
  // it: the expiry fails after the list is gone.
  lemma BrokenItemTakesOthers(item: Raw, render: Renderer) returns (s: State)
    requires HasId(item, render)
    ensures |s.finished| == 1 && |s.enqueued| == 2
    ensures Reachable(s) && Undisturbed(s, 0) && Answer(s, 0, render).Err?
    ensures DeletedBy(s, 1, 0) && s.enqueued[1] == item && forall k :: !ReportedBy(s, 1, k, render)
  {
    var a := Apply(EMPTY, Enqueue(Broken)).value;
    var b := Apply(a, Enqueue(item)).value;
    var c := Apply(b, Read(0)).value;
    s := Apply(c, Delete(0)).value;
    assert Run(s, []) == Some(s);
    RunCons(c, Delete(0), []);
    RunCons(b, Read(0), [Delete(0)] + []);
    RunCons(a, Enqueue(item), [Read(0)] + ([Delete(0)] + []));
    RunCons(EMPTY, Enqueue(Broken), [Enqueue(item)] + ([Read(0)] + ([Delete(0)] + [])));
    hide Run, HasId;
    assert s.finished[0].drain.snapshot[0] == 0;
    assert ReadBy(s, 0, 0) && s.enqueued[0].Broken?;
    AnswerExact(s, 0, render);
  }
}
