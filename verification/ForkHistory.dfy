// Fork-aware task history: climbing the chain of forks above a task, and
// collecting the messages every task of the chain contributes.
module ForkHistory {
  import opened Wrappers
  import opened JsonValues
  import opened Sequences

  // Bound on the number of tasks one lineage may hold.
  const MAX_FORK_DEPTH: nat := 50

  datatype ForkSpec = ForkSpec(sourceTaskId: int, afterMessageId: int)

  // A task row; its key in the store is its id.
  datatype TaskRow = TaskRow(userId: int, fork: Option<ForkSpec>)

  // One user or assistant turn.  `createdAt` counts seconds.
  datatype SubtaskRow = SubtaskRow(
    id: int,
    messageId: int,
    role: string,
    status: string,
    createdAt: Option<int>,
    prompt: Option<string>,
    senderUserId: int,
    result: Option<Json>)

  // The task store: tasks by id, and the subtask listing of each task.
  datatype Store = Store(tasks: map<int, TaskRow>, subtasks: map<int, seq<SubtaskRow>>) {
    function ListSubtasks(taskId: int): seq<SubtaskRow> {
      if taskId in subtasks then subtasks[taskId] else []
    }
  }

  datatype HistoryError =
    | TaskNotFound
    | AncestorNotFound(taskId: int)
    | ForkCycle(taskId: int)
    | ContentFailed

  // One task of a lineage; `cutoff` is the message id after which its direct
  // child forked off, and is absent on the requested task itself.
  datatype Node = Node(taskId: int, userId: int, cutoff: Option<int>)

  /* ---------- Resolving the lineage ---------- */

  ghost function Ids(nodes: seq<Node>): (ids: set<int>) {
    set node <- nodes :: node.taskId
  }

  // Continue the climb above `nodes`, which lists the root-most task first.
  function Climb(store: Store, nodes: seq<Node>): Result<seq<Node>, HistoryError>
    requires nodes != [] && nodes[0].taskId in store.tasks
    decreases MAX_FORK_DEPTH - |nodes|
  {
    if |nodes| >= MAX_FORK_DEPTH then Ok(nodes)
    else match store.tasks[nodes[0].taskId].fork
      case None => Ok(nodes)
      case Some(fork) =>
        if exists node <- nodes :: node.taskId == fork.sourceTaskId then
          Err(ForkCycle(fork.sourceTaskId))
        else if fork.sourceTaskId !in store.tasks then
          Err(AncestorNotFound(fork.sourceTaskId))
        else
          Climb(store, [Ancestor(store, fork)] + nodes)
  }

  function Ancestor(store: Store, fork: ForkSpec): Node
    requires fork.sourceTaskId in store.tasks
  {
    Node(fork.sourceTaskId, store.tasks[fork.sourceTaskId].userId, Some(fork.afterMessageId))
  }

  predicate OwnedBy(store: Store, taskId: int, userId: int) {
    taskId in store.tasks && store.tasks[taskId].userId == userId
  }

  function Lineage(store: Store, taskId: int, userId: int): Result<seq<Node>, HistoryError> {
    if OwnedBy(store, taskId, userId) then Climb(store, [Node(taskId, userId, None)])
    else Err(TaskNotFound)
  }

  method ResolveLineage(store: Store, taskId: int, userId: int)
    returns (r: Result<seq<Node>, HistoryError>)
    ensures r == Lineage(store, taskId, userId)
  {
    var nodesReversed: seq<Node> := [];
    var seen: set<int> := {};
    var currentTaskId := taskId;
    var inheritedCutoff: Option<int> := None;
    ghost var nodes: seq<Node> := [];

    for depth := 0 to MAX_FORK_DEPTH
      invariant nodes == Reversed(nodesReversed) && |nodes| == depth
      invariant seen == Ids(nodes)
      invariant depth == 0 ==> currentTaskId == taskId && inheritedCutoff == None
      invariant depth > 0 ==> OwnedBy(store, taskId, userId) && taskId in seen
      invariant depth > 0 ==> nodes[0].taskId in store.tasks && inheritedCutoff.Some?
      invariant depth > 0 ==>
                  store.tasks[nodes[0].taskId].fork == Some(ForkSpec(currentTaskId, inheritedCutoff.value))
      invariant depth > 0 ==> Lineage(store, taskId, userId) == Climb(store, nodes)
    {
      if currentTaskId in seen {
        return Err(ForkCycle(currentTaskId));
      }
      seen := seen + {currentTaskId};
      if currentTaskId == taskId {
        if currentTaskId !in store.tasks || store.tasks[currentTaskId].userId != userId {
          return Err(TaskNotFound);
        }
      } else if currentTaskId !in store.tasks {
        return Err(AncestorNotFound(currentTaskId));
      }
      var task := store.tasks[currentTaskId];
      var node := Node(currentTaskId, task.userId, inheritedCutoff);
      assert (nodesReversed + [node])[..depth] == nodesReversed;
      nodesReversed := nodesReversed + [node];
      if depth > 0 {
        assert node == Ancestor(store, store.tasks[nodes[0].taskId].fork.value);
        assert forall earlier <- nodes :: earlier.taskId in seen;
      } else {
        assert [node] + nodes == [node];
      }
      nodes := [node] + nodes;
      if task.fork.None? {
        return Ok(Reversed(nodesReversed));
      }
      currentTaskId := task.fork.value.sourceTaskId;
      inheritedCutoff := Some(task.fork.value.afterMessageId);
    }
    return Ok(Reversed(nodesReversed));
  }

  /* ---------- What a lineage is ---------- */

  // `nodes` descends, fork by fork, from its first task to the requested one:
  // every node is the fork source of the next and carries the next one's
  // cutoff, no task repeats, and the requested task itself has no cutoff.
  ghost predicate Descent(store: Store, taskId: int, nodes: seq<Node>) {
    && nodes != []
    && (forall node <- nodes :: OwnedBy(store, node.taskId, node.userId))
    && nodes[|nodes| - 1].taskId == taskId
    && nodes[|nodes| - 1].cutoff == None
    && (forall i :: 0 <= i < |nodes| - 1 ==> ForkedFrom(store, nodes[i + 1].taskId, nodes[i]))
    && NoRepeat(nodes)
  }

  ghost predicate NoRepeat(nodes: seq<Node>) {
    forall i, j :: 0 <= i < j < |nodes| ==> nodes[i].taskId != nodes[j].taskId
  }

  lemma NoRepeatExtends(nodes: seq<Node>, node: Node)
    requires NoRepeat(nodes) && node.taskId !in Ids(nodes)
    ensures NoRepeat([node] + nodes)
  {
    assert forall i :: 0 <= i < |nodes| ==> nodes[i].taskId in Ids(nodes);
  }

  ghost predicate ForkedFrom(store: Store, childId: int, parent: Node) {
    && childId in store.tasks
    && parent.cutoff.Some?
    && store.tasks[childId].fork == Some(ForkSpec(parent.taskId, parent.cutoff.value))
  }

  ghost predicate Forks(store: Store, nodes: seq<Node>, sourceTaskId: int)
    requires nodes != []
  {
    && nodes[0].taskId in store.tasks
    && store.tasks[nodes[0].taskId].fork.Some?
    && store.tasks[nodes[0].taskId].fork.value.sourceTaskId == sourceTaskId
  }

  // The declared outcome of resolving a lineage, one case per result.
  ghost predicate LineageOutcome(
    store: Store, taskId: int, userId: int, nodes: seq<Node>, r: Result<seq<Node>, HistoryError>)
  {
    && OwnedBy(store, taskId, userId)
    && Descent(store, taskId, nodes)
    && |nodes| <= MAX_FORK_DEPTH
    && match r
       case Ok(found) =>
         found == nodes
         && (|nodes| == MAX_FORK_DEPTH || store.tasks[nodes[0].taskId].fork.None?)
       case Err(ForkCycle(id)) =>
         |nodes| < MAX_FORK_DEPTH && Forks(store, nodes, id) && id in Ids(nodes)
       case Err(AncestorNotFound(id)) =>
         |nodes| < MAX_FORK_DEPTH && Forks(store, nodes, id) && id !in store.tasks
       case Err(_) => false
  }

  lemma DescentExtends(store: Store, taskId: int, nodes: seq<Node>, fork: ForkSpec)
    requires Descent(store, taskId, nodes)
    requires nodes[0].taskId in store.tasks && store.tasks[nodes[0].taskId].fork == Some(fork)
    requires fork.sourceTaskId in store.tasks && fork.sourceTaskId !in Ids(nodes)
    ensures Descent(store, taskId, [Ancestor(store, fork)] + nodes)
  {
    var node := Ancestor(store, fork);
    var longer := [node] + nodes;
    NoRepeatExtends(nodes, node);
    hide NoRepeat;
    forall i | 0 <= i < |longer| - 1
      ensures ForkedFrom(store, longer[i + 1].taskId, longer[i])
    {
      assert longer[i + 1] == nodes[i];
      if i > 0 {
        assert longer[i] == nodes[i - 1];
      }
    }
  }

  lemma {:induction false} ClimbOutcome(store: Store, taskId: int, userId: int, nodes: seq<Node>)
    returns (top: seq<Node>)
    requires OwnedBy(store, taskId, userId)
    requires Descent(store, taskId, nodes) && |nodes| <= MAX_FORK_DEPTH
    ensures LineageOutcome(store, taskId, userId, top, Climb(store, nodes))
    decreases MAX_FORK_DEPTH - |nodes|
  {
    top := nodes;
    assert OwnedBy(store, nodes[0].taskId, nodes[0].userId);
    if |nodes| < MAX_FORK_DEPTH && store.tasks[nodes[0].taskId].fork.Some? {
      var fork := store.tasks[nodes[0].taskId].fork.value;
      if fork.sourceTaskId in store.tasks && fork.sourceTaskId !in Ids(nodes) {
        DescentExtends(store, taskId, nodes, fork);
        top := ClimbOutcome(store, taskId, userId, [Ancestor(store, fork)] + nodes);
      }
    }
  }

  // Every result of the climb is one of the declared outcomes.
  lemma LineageHasOutcome(store: Store, taskId: int, userId: int)
    ensures var r := Lineage(store, taskId, userId);
            if !OwnedBy(store, taskId, userId) then r == Err(TaskNotFound)
            else exists nodes :: LineageOutcome(store, taskId, userId, nodes, r)
  {
    if OwnedBy(store, taskId, userId) {
      var nodes := ClimbOutcome(store, taskId, userId, [Node(taskId, userId, None)]);
      assert LineageOutcome(store, taskId, userId, nodes, Lineage(store, taskId, userId));
    }
  }

  // Two descents of one task agree from the requested task upwards.
  lemma {:induction false} DescentsAgree(store: Store, taskId: int, a: seq<Node>, b: seq<Node>)
    requires Descent(store, taskId, a) && Descent(store, taskId, b) && |a| <= |b|
    ensures a == b[|b| - |a|..]
  {
    var d := |b| - |a|;
    var k := |a| - 1;
    while k > 0
      invariant 0 <= k < |a|
      invariant forall i :: k <= i < |a| ==> a[i] == b[d + i]
    {
      assert ForkedFrom(store, a[k].taskId, a[k - 1]);
      assert ForkedFrom(store, b[d + k].taskId, b[d + k - 1]);
      assert OwnedBy(store, a[k - 1].taskId, a[k - 1].userId);
      assert OwnedBy(store, b[d + k - 1].taskId, b[d + k - 1].userId);
      k := k - 1;
    }
  }

  // The outcomes exclude one another, so together with `LineageHasOutcome` they
  // say exactly when each result is returned.
  lemma OutcomeUnique(
    store: Store, taskId: int, userId: int,
    a: seq<Node>, ra: Result<seq<Node>, HistoryError>,
    b: seq<Node>, rb: Result<seq<Node>, HistoryError>)
    requires LineageOutcome(store, taskId, userId, a, ra)
    requires LineageOutcome(store, taskId, userId, b, rb)
    ensures a == b && ra == rb
  {
    OutcomeIsLongest(store, taskId, userId, a, ra, b);
    OutcomeIsLongest(store, taskId, userId, b, rb, a);
    DescentsAgree(store, taskId, a, b);
  }

  lemma OutcomeIsLongest(
    store: Store, taskId: int, userId: int, a: seq<Node>, ra: Result<seq<Node>, HistoryError>, b: seq<Node>)
    requires LineageOutcome(store, taskId, userId, a, ra)
    requires Descent(store, taskId, b) && |b| <= MAX_FORK_DEPTH
    ensures |b| <= |a|
  {
    if |a| < |b| {
      var d := |b| - |a|;
      assert ForkedFrom(store, b[d].taskId, b[d - 1]);
      assert OwnedBy(store, b[d - 1].taskId, b[d - 1].userId);
      DescentsAgree(store, taskId, a, b);
    }
  }

  // The same as one equivalence per result.
  lemma LineageExact(store: Store, taskId: int, userId: int, r: Result<seq<Node>, HistoryError>)
    ensures r == Lineage(store, taskId, userId) <==>
            if !OwnedBy(store, taskId, userId) then r == Err(TaskNotFound)
            else exists nodes :: LineageOutcome(store, taskId, userId, nodes, r)
  {
    LineageHasOutcome(store, taskId, userId);
    if OwnedBy(store, taskId, userId) {
      var outcome := Lineage(store, taskId, userId);
      var b :| LineageOutcome(store, taskId, userId, b, outcome);
      forall a | LineageOutcome(store, taskId, userId, a, r)
        ensures r == outcome
      {
        OutcomeUnique(store, taskId, userId, a, r, b, outcome);
      }
    }
  }

  /* ---------- Collecting the messages of a lineage ---------- */

  ghost function UpTo(cutoff: Option<int>): SubtaskRow -> bool {
    (row: SubtaskRow) => cutoff.Some? ==> row.messageId <= cutoff.value
  }

  function Earlier(before: Option<int>): SubtaskRow -> bool {
    (row: SubtaskRow) => before.Some? ==> row.messageId < before.value
  }

  function Admits(cutoff: Option<int>, before: Option<int>): SubtaskRow -> bool {
    (row: SubtaskRow) =>
      (cutoff.Some? ==> row.messageId <= cutoff.value) && (before.Some? ==> row.messageId < before.value)
  }

  lemma AdmitsWhen(cutoff: Option<int>, before: Option<int>, row: SubtaskRow)
    ensures Admits(cutoff, before)(row) <==>
            !(cutoff.Some? && row.messageId > cutoff.value) && !(before.Some? && row.messageId >= before.value)
  {
  }

  // What one node contributes.
  function Share(store: Store, node: Node, before: Option<int>): seq<SubtaskRow> {
    Filter(store.ListSubtasks(node.taskId), Admits(node.cutoff, before))
  }

  function Collect(store: Store, nodes: seq<Node>, before: Option<int>): seq<SubtaskRow> {
    if nodes == [] then [] else Share(store, nodes[0], before) + Collect(store, nodes[1..], before)
  }

  method CollectItems(store: Store, lineage: seq<Node>, before: Option<int>)
    returns (items: seq<SubtaskRow>)
    ensures items == Collect(store, lineage, before)
  {
    items := [];
    hide Filter, Admits, Collect;
    for n := 0 to |lineage|
      invariant items + Collect(store, lineage[n..], before) == Collect(store, lineage, before)
    {
      var node := lineage[n];
      var subtasks := store.ListSubtasks(node.taskId);
      ghost var taken := items;
      ghost var admits := Admits(node.cutoff, before);
      FilterEmpty(subtasks[..0], admits);
      for i := 0 to |subtasks|
        invariant items == taken + Filter(subtasks[..i], admits)
      {
        var subtask := subtasks[i];
        FilterStep(subtasks, i, admits);
        AdmitsWhen(node.cutoff, before, subtask);
        if node.cutoff.Some? && subtask.messageId > node.cutoff.value {
          continue;
        }
        if before.Some? && subtask.messageId >= before.value {
          continue;
        }
        items := items + [subtask];
      }
      assert subtasks[..|subtasks|] == subtasks;
      CollectStep(store, lineage, n, before);
    }
    CollectNone(store, lineage[|lineage|..], before);
  }

  lemma CollectNone(store: Store, nodes: seq<Node>, before: Option<int>)
    requires nodes == []
    ensures Collect(store, nodes, before) == []
  {
  }

  lemma CollectStep(store: Store, nodes: seq<Node>, n: nat, before: Option<int>)
    requires n < |nodes|
    ensures Collect(store, nodes[n..], before)
            == Share(store, nodes[n], before) + Collect(store, nodes[n + 1..], before)
  {
    assert nodes[n..][1..] == nodes[n + 1..];
  }

  /* ---------- The recursive meaning of a fork ---------- */

  // The history of a task: what its fork source's history holds up to the fork
  // point, followed by the task's own messages.  `depth` bounds the ancestors.
  ghost function Meaning(store: Store, taskId: int, depth: nat): Option<seq<SubtaskRow>>
    decreases depth
  {
    if taskId !in store.tasks then None
    else match store.tasks[taskId].fork
      case None => Some(store.ListSubtasks(taskId))
      case Some(fork) =>
        if depth == 0 then None
        else match Meaning(store, fork.sourceTaskId, depth - 1)
          case None => None
          case Some(inherited) =>
            Some(Filter(inherited, UpTo(Some(fork.afterMessageId))) + store.ListSubtasks(taskId))
  }

  lemma {:induction false} MeaningStable(store: Store, taskId: int, depth: nat, more: nat)
    requires Meaning(store, taskId, depth).Some? && depth <= more
    ensures Meaning(store, taskId, more) == Meaning(store, taskId, depth)
    decreases depth
  {
    if store.tasks[taskId].fork.Some? {
      MeaningStable(store, store.tasks[taskId].fork.value.sourceTaskId, depth - 1, more - 1);
    }
  }

  // A chain of forks that reaches a task without one.
  ghost predicate Rooted(store: Store, taskId: int, nodes: seq<Node>) {
    Descent(store, taskId, nodes) && store.tasks[nodes[0].taskId].fork.None?
  }

  ghost function Lower(a: Option<int>, b: Option<int>): Option<int> {
    if a.None? then b else if b.None? || a.value <= b.value then a else b
  }

  // The lowest cutoff from node `j` down the chain.
  ghost function Lowest(nodes: seq<Node>, j: nat): Option<int>
    decreases |nodes| - j
  {
    if j >= |nodes| - 1 then None else Lower(nodes[j].cutoff, Lowest(nodes, j + 1))
  }

  // The messages of nodes `j..`, each cut by every cutoff below it.
  ghost function Tight(store: Store, nodes: seq<Node>, j: nat): seq<SubtaskRow>
    decreases |nodes| - j
  {
    if j >= |nodes| then []
    else Filter(store.ListSubtasks(nodes[j].taskId), UpTo(Lowest(nodes, j))) + Tight(store, nodes, j + 1)
  }

  lemma {:induction false} LowestStep(nodes: seq<Node>, j: nat)
    requires j < |nodes| - 1
    ensures var last := |nodes| - 1;
            Lowest(nodes, j) == Lower(Lowest(nodes[..last], j), nodes[last - 1].cutoff)
    decreases |nodes| - j
  {
    if j < |nodes| - 2 {
      LowestStep(nodes, j + 1);
    }
  }

  lemma FilterTwice(rows: seq<SubtaskRow>, a: Option<int>, b: Option<int>)
    ensures Filter(Filter(rows, UpTo(a)), UpTo(b)) == Filter(rows, UpTo(Lower(a, b)))
  {
    FilterFilter(rows, UpTo(a), UpTo(b), UpTo(Lower(a, b)));
  }

  lemma TightOfLast(store: Store, nodes: seq<Node>)
    requires nodes != []
    ensures Tight(store, nodes, |nodes| - 1) == store.ListSubtasks(nodes[|nodes| - 1].taskId)
  {
    var rows := store.ListSubtasks(nodes[|nodes| - 1].taskId);
    FilterAll(rows, UpTo(None));
    assert rows + [] == rows;
  }

  lemma TightStepAt(store: Store, nodes: seq<Node>, j: nat)
    requires j < |nodes| - 1
    ensures var last := |nodes| - 1;
            var own := Filter(store.ListSubtasks(nodes[j].taskId), UpTo(Lowest(nodes, j)));
            own + Filter(Tight(store, nodes[..last], j + 1), UpTo(nodes[last - 1].cutoff))
            == Filter(Tight(store, nodes[..last], j), UpTo(nodes[last - 1].cutoff))
  {
    hide *;
    var last := |nodes| - 1;
    var shorter := nodes[..last];
    var rows, cut := store.ListSubtasks(nodes[j].taskId), UpTo(nodes[last - 1].cutoff);
    var own, rest := Filter(rows, UpTo(Lowest(shorter, j))), Tight(store, shorter, j + 1);
    TightUnfold(store, shorter, j);
    FilterConcat(own, rest, cut);
    FilterTwice(rows, Lowest(shorter, j), nodes[last - 1].cutoff);
    LowestStep(nodes, j);
    assert Filter(own, cut) == Filter(rows, UpTo(Lowest(nodes, j)));
  }

  // Appending a child to a chain filters everything above it once more.
  lemma {:induction false} TightStep(store: Store, nodes: seq<Node>, j: nat)
    requires |nodes| >= 2 && j <= |nodes| - 1
    ensures var last := |nodes| - 1;
            Tight(store, nodes, j)
            == Filter(Tight(store, nodes[..last], j), UpTo(nodes[last - 1].cutoff))
               + store.ListSubtasks(nodes[last].taskId)
    decreases |nodes| - j
  {
    var last := |nodes| - 1;
    var rows := store.ListSubtasks(nodes[last].taskId);
    var cut := UpTo(nodes[last - 1].cutoff);
    if j == last {
      TightOfLast(store, nodes);
      TightBeyond(store, nodes[..last], j);
      hide *;
      FilterEmpty(Tight(store, nodes[..last], j), cut);
      assert [] + rows == rows;
    } else {
      TightStep(store, nodes, j + 1);
      TightStepAt(store, nodes, j);
      TightUnfold(store, nodes, j);
      hide *;
      var own := Filter(store.ListSubtasks(nodes[j].taskId), UpTo(Lowest(nodes, j)));
      var above := Filter(Tight(store, nodes[..last], j + 1), cut);
      ConcatAssoc(own, above, rows);
    }
  }

  lemma TightUnfold(store: Store, nodes: seq<Node>, j: nat)
    requires j < |nodes|
    ensures Tight(store, nodes, j)
            == Filter(store.ListSubtasks(nodes[j].taskId), UpTo(Lowest(nodes, j))) + Tight(store, nodes, j + 1)
  {
  }

  lemma TightBeyond(store: Store, nodes: seq<Node>, j: nat)
    requires j >= |nodes|
    ensures Tight(store, nodes, j) == []
  {
  }

  // Unfolding the meaning of the last task filters every ancestor's messages
  // by all the cutoffs below it.
  lemma {:induction false} MeaningIsTight(store: Store, taskId: int, nodes: seq<Node>)
    requires Rooted(store, taskId, nodes)
    ensures Meaning(store, taskId, |nodes| - 1) == Some(Tight(store, nodes, 0))
    decreases |nodes|
  {
    var last := |nodes| - 1;
    assert OwnedBy(store, nodes[last].taskId, nodes[last].userId);
    if last == 0 {
      TightOfLast(store, nodes);
    } else {
      assert ForkedFrom(store, nodes[last].taskId, nodes[last - 1]);
      MeaningOfPrefix(store, taskId, nodes);
      TightStep(store, nodes, 0);
    }
  }

  lemma {:induction false} MeaningOfPrefix(store: Store, taskId: int, nodes: seq<Node>)
    requires Rooted(store, taskId, nodes) && |nodes| >= 2
    ensures var last := |nodes| - 1;
            Meaning(store, nodes[last - 1].taskId, last - 1) == Some(Tight(store, nodes[..last], 0))
    decreases |nodes|, 0
  {
    // A lineage of the parent ends in a node without a cutoff, which `Tight`
    // never reads.
    var last := |nodes| - 1;
    var parent := nodes[..last][last - 1 := nodes[last - 1].(cutoff := None)];
    ParentRooted(store, taskId, nodes, parent);
    hide Rooted, Descent, Meaning, Tight;
    MeaningIsTight(store, nodes[last - 1].taskId, parent);
    TightIgnoresLastCutoff(store, nodes[..last], parent, 0);
  }

  lemma ParentRooted(store: Store, taskId: int, nodes: seq<Node>, parent: seq<Node>)
    requires Rooted(store, taskId, nodes) && |nodes| >= 2
    requires parent == nodes[..|nodes| - 1][|nodes| - 2 := nodes[|nodes| - 2].(cutoff := None)]
    ensures Rooted(store, nodes[|nodes| - 2].taskId, parent)
  {
    var last := |nodes| - 1;
    assert forall i :: 0 <= i < last - 1 ==> parent[i] == nodes[i];
    assert forall i :: 0 <= i < last ==> parent[i].taskId == nodes[i].taskId && parent[i].userId == nodes[i].userId;
    forall i | 0 <= i < last
      ensures OwnedBy(store, parent[i].taskId, parent[i].userId)
    {
      assert OwnedBy(store, nodes[i].taskId, nodes[i].userId);
    }
    hide OwnedBy;
    forall i | 0 <= i < last - 1
      ensures ForkedFrom(store, parent[i + 1].taskId, parent[i])
    {
      assert ForkedFrom(store, nodes[i + 1].taskId, nodes[i]);
    }
    hide ForkedFrom;
  }

  lemma {:induction false} LowestIgnoresLastCutoff(a: seq<Node>, b: seq<Node>, j: nat)
    requires |a| == |b|
    requires forall i :: 0 <= i < |a| - 1 ==> a[i] == b[i]
    ensures Lowest(a, j) == Lowest(b, j)
    decreases |a| - j
  {
    if j < |a| - 1 {
      LowestIgnoresLastCutoff(a, b, j + 1);
    }
  }

  lemma {:induction false} TightIgnoresLastCutoff(store: Store, a: seq<Node>, b: seq<Node>, j: nat)
    requires |a| == |b|
    requires forall i :: 0 <= i < |a| ==> a[i].taskId == b[i].taskId
    requires forall i :: 0 <= i < |a| - 1 ==> a[i] == b[i]
    ensures Tight(store, a, j) == Tight(store, b, j)
    decreases |a| - j
  {
    if j < |a| {
      LowestIgnoresLastCutoff(a, b, j);
      TightIgnoresLastCutoff(store, a, b, j + 1);
    }
  }

  // No message passes its direct child's cutoff and yet lies after a cutoff
  // further down the chain.
  ghost predicate NoLeak(store: Store, nodes: seq<Node>, j: nat) {
    forall i :: j <= i < |nodes| ==> NoLeakAt(store, nodes, i)
  }

  ghost predicate NoLeakAt(store: Store, nodes: seq<Node>, i: nat)
    requires i < |nodes|
  {
    forall k, row | i < k < |nodes| - 1 && row in store.ListSubtasks(nodes[i].taskId) ::
      UpTo(nodes[i].cutoff)(row) ==> UpTo(nodes[k].cutoff)(row)
  }

  lemma {:induction false} LowestBounds(nodes: seq<Node>, j: nat, row: SubtaskRow)
    ensures UpTo(Lowest(nodes, j))(row) <==> forall k :: j <= k < |nodes| - 1 ==> UpTo(nodes[k].cutoff)(row)
    decreases |nodes| - j
  {
    if j < |nodes| - 1 {
      LowestBounds(nodes, j + 1, row);
    }
  }

  // From node `j` on, the flat collection holds at least what the recursive
  // meaning holds, and the same exactly when nothing leaks.
  lemma {:induction false} TightVersusFlat(store: Store, nodes: seq<Node>, j: nat)
    requires j <= |nodes|
    requires nodes != [] ==> nodes[|nodes| - 1].cutoff == None
    ensures |Tight(store, nodes, j)| <= |Collect(store, nodes[j..], None)|
    ensures Tight(store, nodes, j) == Collect(store, nodes[j..], None) <==> NoLeak(store, nodes, j)
    decreases |nodes| - j
  {
    if j < |nodes| {
      TightVersusFlat(store, nodes, j + 1);
      assert nodes[j..][1..] == nodes[j + 1..];
      ShareVersusTight(store, nodes, j);
      SameLengthParts(
        Filter(store.ListSubtasks(nodes[j].taskId), UpTo(Lowest(nodes, j))), Tight(store, nodes, j + 1),
        Share(store, nodes[j], None), Collect(store, nodes[j + 1..], None));
      assert NoLeak(store, nodes, j) <==> NoLeakAt(store, nodes, j) && NoLeak(store, nodes, j + 1);
    }
  }

  lemma ShareVersusTight(store: Store, nodes: seq<Node>, j: nat)
    requires j < |nodes| && nodes[|nodes| - 1].cutoff == None
    ensures var tight := Filter(store.ListSubtasks(nodes[j].taskId), UpTo(Lowest(nodes, j)));
            && |tight| <= |Share(store, nodes[j], None)|
            && (tight == Share(store, nodes[j], None) <==> NoLeakAt(store, nodes, j))
  {
    var rows := store.ListSubtasks(nodes[j].taskId);
    var cutoff := nodes[j].cutoff;
    var loose := Share(store, nodes[j], None);
    FilterSame(rows, Admits(cutoff, None), UpTo(cutoff));
    FilterTwice(rows, cutoff, Lowest(nodes, j));
    FilterAll(loose, UpTo(Lowest(nodes, j)));
    FilterMembers(rows, UpTo(cutoff));
    forall row | row in rows
      ensures UpTo(Lowest(nodes, j))(row) <==> forall k :: j <= k < |nodes| - 1 ==> UpTo(nodes[k].cutoff)(row)
    {
      LowestBounds(nodes, j, row);
    }
  }

  lemma SameLengthParts<T>(a: seq<T>, b: seq<T>, c: seq<T>, d: seq<T>)
    requires |a| <= |c| && |b| <= |d|
    ensures a + b == c + d <==> a == c && b == d
  {
    if a + b == c + d {
      assert |a + b| == |c + d|;
      assert a == (a + b)[..|a|] && c == (c + d)[..|a|];
      assert b == (a + b)[|a|..] && d == (c + d)[|a|..];
    }
  }

  ghost predicate FlatIsMeaning(store: Store, taskId: int, nodes: seq<Node>)
    requires nodes != []
  {
    Meaning(store, taskId, |nodes| - 1) == Some(Collect(store, nodes, None))
  }

  // Cutting every ancestor only by its direct child's fork point gives the
  // recursive history of the fork exactly when nothing leaks.
  lemma FlatIsMeaningIff(store: Store, taskId: int, nodes: seq<Node>)
    requires Rooted(store, taskId, nodes)
    ensures FlatIsMeaning(store, taskId, nodes) <==> NoLeak(store, nodes, 0)
  {
    MeaningIsTight(store, taskId, nodes);
    TightVersusFlat(store, nodes, 0);
    assert nodes[0..] == nodes;
  }

  // Forks taken at later and later messages on the way down.
  ghost predicate NonDecreasing(nodes: seq<Node>) {
    forall i, k :: 0 <= i < k < |nodes| - 1 ==> Lower(nodes[i].cutoff, nodes[k].cutoff) == nodes[i].cutoff
  }

  // For a lineage that reaches its root, whatever messages the tasks hold: the
  // flat collection is the recursive history exactly when the cutoffs never
  // decrease from root to leaf.
  lemma FlatIsMeaningForAllMessages(tasks: map<int, TaskRow>, taskId: int, userId: int, nodes: seq<Node>)
    requires Lineage(Store(tasks, map[]), taskId, userId) == Ok(nodes)
    requires nodes != [] && nodes[0].taskId in tasks && tasks[nodes[0].taskId].fork == None
    ensures NonDecreasing(nodes) <==>
            forall subtasks :: FlatIsMeaning(Store(tasks, subtasks), taskId, nodes)
  {
    LineageExact(Store(tasks, map[]), taskId, userId, Ok(nodes));
    forall subtasks
      ensures Rooted(Store(tasks, subtasks), taskId, nodes)
      ensures FlatIsMeaning(Store(tasks, subtasks), taskId, nodes) <==> NoLeak(Store(tasks, subtasks), nodes, 0)
    {
      SameTasksSameDescent(Store(tasks, map[]), Store(tasks, subtasks), taskId, nodes);
      FlatIsMeaningIff(Store(tasks, subtasks), taskId, nodes);
    }
    hide FlatIsMeaning, Rooted, Descent, Lineage;
    if NonDecreasing(nodes) {
      forall subtasks
        ensures FlatIsMeaning(Store(tasks, subtasks), taskId, nodes)
      {
        NonDecreasingNeverLeaks(Store(tasks, subtasks), nodes);
      }
    } else {
      var subtasks := LeakingMessages(tasks, taskId, nodes);
    }
  }

  lemma SameTasksSameDescent(a: Store, b: Store, taskId: int, nodes: seq<Node>)
    requires a.tasks == b.tasks && Descent(a, taskId, nodes)
    ensures Descent(b, taskId, nodes)
  {
    forall node <- nodes
      ensures OwnedBy(b, node.taskId, node.userId)
    {
      assert OwnedBy(a, node.taskId, node.userId);
    }
    forall i | 0 <= i < |nodes| - 1
      ensures ForkedFrom(b, nodes[i + 1].taskId, nodes[i])
    {
      assert ForkedFrom(a, nodes[i + 1].taskId, nodes[i]);
    }
  }

  lemma NonDecreasingNeverLeaks(store: Store, nodes: seq<Node>)
    requires NonDecreasing(nodes)
    ensures NoLeak(store, nodes, 0)
  {
    forall i, k, row | 0 <= i < k < |nodes| - 1 && UpTo(nodes[i].cutoff)(row)
      ensures UpTo(nodes[k].cutoff)(row)
    {
      assert Lower(nodes[i].cutoff, nodes[k].cutoff) == nodes[i].cutoff;
    }
  }

  // One message, sent right at a cutoff that a lower one undercuts, leaks.
  lemma LeakingMessages(tasks: map<int, TaskRow>, taskId: int, nodes: seq<Node>)
    returns (subtasks: map<int, seq<SubtaskRow>>)
    requires Rooted(Store(tasks, map[]), taskId, nodes) && !NonDecreasing(nodes)
    ensures !FlatIsMeaning(Store(tasks, subtasks), taskId, nodes)
  {
    forall i | 0 <= i < |nodes| - 1
      ensures nodes[i].cutoff.Some?
    {
      assert ForkedFrom(Store(tasks, map[]), nodes[i + 1].taskId, nodes[i]);
    }
    var i, k :| 0 <= i < k < |nodes| - 1 && Lower(nodes[i].cutoff, nodes[k].cutoff) != nodes[i].cutoff;
    var row := SubtaskRow(1, nodes[i].cutoff.value, "USER", "COMPLETED", None, None, 0, None);
    subtasks := map[nodes[i].taskId := [row]];
    var store := Store(tasks, subtasks);
    assert row in store.ListSubtasks(nodes[i].taskId);
    assert UpTo(nodes[i].cutoff)(row) && !UpTo(nodes[k].cutoff)(row);
    assert !NoLeakAt(store, nodes, i);
    SameTasksSameDescent(Store(tasks, map[]), store, taskId, nodes);
    hide FlatIsMeaning, Descent;
    FlatIsMeaningIff(store, taskId, nodes);
  }

  // Three tasks whose history differs from its meaning: the second forks off
  // the first after message 10, the third off the second after message 5, and
  // message 7 of the first reaches the third.
  lemma DecreasingCutoffsLeak() returns (store: Store, nodes: seq<Node>)
    ensures Lineage(store, 3, 1) == Ok(nodes) && |nodes| == 3 && !NonDecreasing(nodes)
    ensures Rooted(store, 3, nodes) && !FlatIsMeaning(store, 3, nodes)
  {
    var tasks := map[
      1 := TaskRow(1, None),
      2 := TaskRow(1, Some(ForkSpec(1, 10))),
      3 := TaskRow(1, Some(ForkSpec(2, 5)))];
    var row := SubtaskRow(1, 7, "USER", "COMPLETED", None, None, 0, None);
    store := Store(tasks, map[1 := [row]]);
    nodes := [Node(1, 1, Some(10)), Node(2, 1, Some(5)), Node(3, 1, None)];
    assert ForkedFrom(store, nodes[1].taskId, nodes[0]) && ForkedFrom(store, nodes[2].taskId, nodes[1]);
    assert Descent(store, 3, nodes);
    assert LineageOutcome(store, 3, 1, nodes, Ok(nodes));
    LineageExact(store, 3, 1, Ok(nodes));
    hide Lineage, LineageOutcome, Descent, FlatIsMeaning;
    FlatIsMeaningIff(store, 3, nodes);
    assert row in store.ListSubtasks(nodes[0].taskId);
    assert UpTo(nodes[0].cutoff)(row) && !UpTo(nodes[1].cutoff)(row);
    assert !NoLeakAt(store, nodes, 0);
  }
}
