// Chains of forks deeper than the bound: the lineage keeps the lower part of
// the chain, and this is exactly when the cut answer is still the history.
module ForkDepth {
  import opened Wrappers
  import opened Sequences
  import opened ForkHistory
  import opened HistoryLaws

  // What nodes `j` up to `d` hold within every cutoff below them.
  ghost function Dropped(store: Store, nodes: seq<Node>, j: nat, d: nat): seq<SubtaskRow>
    requires d <= |nodes|
    decreases d - j
  {
    if j >= d then []
    else Filter(store.ListSubtasks(nodes[j].taskId), UpTo(Lowest(nodes, j))) + Dropped(store, nodes, j + 1, d)
  }

  lemma {:induction false} TightSplit(store: Store, nodes: seq<Node>, j: nat, d: nat)
    requires j <= d <= |nodes|
    ensures Tight(store, nodes, j) == Dropped(store, nodes, j, d) + Tight(store, nodes, d)
    decreases d - j
  {
    hide Filter, Lowest;
    if j < d {
      TightSplit(store, nodes, j + 1, d);
      TightUnfold(store, nodes, j);
      hide Tight;
      ConcatAssoc(
        Filter(store.ListSubtasks(nodes[j].taskId), UpTo(Lowest(nodes, j))),
        Dropped(store, nodes, j + 1, d), Tight(store, nodes, d));
    } else {
      hide Tight;
      assert [] + Tight(store, nodes, d) == Tight(store, nodes, d);
    }
  }

  lemma {:induction false} LowestOfSuffix(nodes: seq<Node>, d: nat, j: nat)
    requires d <= |nodes|
    ensures Lowest(nodes, d + j) == Lowest(nodes[d..], j)
    decreases |nodes| - j
  {
    if d + j < |nodes| - 1 {
      LowestOfSuffix(nodes, d, j + 1);
    }
  }

  lemma {:induction false} TightOfSuffix(store: Store, nodes: seq<Node>, d: nat, j: nat)
    requires d <= |nodes|
    ensures Tight(store, nodes, d + j) == Tight(store, nodes[d..], j)
    decreases |nodes| - j
  {
    hide Filter, Lowest;
    if d + j < |nodes| {
      LowestOfSuffix(nodes, d, j);
      TightOfSuffix(store, nodes, d, j + 1);
    }
  }

  lemma {:induction false} DroppedMembers(store: Store, nodes: seq<Node>, j: nat, d: nat, row: SubtaskRow)
    requires d <= |nodes| && row in Dropped(store, nodes, j, d)
    ensures exists i :: j <= i < d && row in store.ListSubtasks(nodes[i].taskId)
    decreases d - j
  {
    FilterMembers(store.ListSubtasks(nodes[j].taskId), UpTo(Lowest(nodes, j)));
    hide Filter, Lowest;
    if row in Dropped(store, nodes, j + 1, d) {
      DroppedMembers(store, nodes, j + 1, d, row);
    } else {
      assert row in store.ListSubtasks(nodes[j].taskId);
    }
  }

  // No row is both above and below the cut.
  lemma DroppedApart(store: Store, nodes: seq<Node>, d: nat, row: SubtaskRow)
    requires PrimaryKeys(store) && NoRepeat(nodes) && d <= |nodes|
    requires row in Dropped(store, nodes, 0, d)
    ensures row !in Collect(store, nodes[d..], None)
  {
    hide Collect, Dropped, PrimaryKeys;
    DroppedMembers(store, nodes, 0, d, row);
    var i :| 0 <= i < d && row in store.ListSubtasks(nodes[i].taskId);
    if row in Collect(store, nodes[d..], None) {
      CollectMembers(store, nodes[d..], None, row);
      var k :| 0 <= k < |nodes[d..]| && row in store.ListSubtasks(nodes[d..][k].taskId);
      assert nodes[d..][k] == nodes[d + k];
      RowOfOneTask(store, nodes[i].taskId, nodes[d + k].taskId, row);
    }
  }

  lemma RowOfOneTask(store: Store, taskId: int, other: int, row: SubtaskRow)
    requires PrimaryKeys(store) && row in store.ListSubtasks(taskId) && row in store.ListSubtasks(other)
    ensures taskId == other
  {
    assert taskId != other ==> NotAmong(store.ListSubtasks(other), row.id);
  }

  lemma RootedParts(store: Store, taskId: int, nodes: seq<Node>)
    requires Rooted(store, taskId, nodes)
    ensures nodes != [] && NoRepeat(nodes) && nodes[|nodes| - 1].cutoff == None
  {
  }

  // The lower part of a chain, collected flat, is the recursive history of its
  // last task exactly if nothing within all cutoffs is dropped and nothing leaks
  // below.
  lemma CutMeaningIff(store: Store, taskId: int, full: seq<Node>, d: nat)
    requires PrimaryKeys(store) && Rooted(store, taskId, full) && d < |full|
    ensures Meaning(store, taskId, |full| - 1) == Some(Collect(store, full[d..], None))
            <==> Dropped(store, full, 0, d) == [] && NoLeak(store, full[d..], 0)
  {
    hide Dropped, Tight, Collect, NoLeak, Meaning, PrimaryKeys, Rooted;
    RootedParts(store, taskId, full);
    MeaningIsTight(store, taskId, full);
    TightSplit(store, full, 0, d);
    TightOfSuffix(store, full, d, 0);
    TightVersusFlat(store, full[d..], 0);
    assert full[d..][0..] == full[d..];
    var dropped, below := Dropped(store, full, 0, d), Tight(store, full[d..], 0);
    if dropped == [] {
      assert dropped + below == below;
    } else {
      DroppedApart(store, full, d, dropped[0]);
      assert (dropped + below)[0] == dropped[0];
    }
  }

  // A resolved lineage is the lower part of the whole chain, of at most
  // `MAX_FORK_DEPTH` tasks.
  lemma LineageIsLowerPart(store: Store, taskId: int, userId: int, nodes: seq<Node>, full: seq<Node>)
    requires Lineage(store, taskId, userId) == Ok(nodes) && Rooted(store, taskId, full)
    ensures |nodes| == if |full| <= MAX_FORK_DEPTH then |full| else MAX_FORK_DEPTH
    ensures nodes == full[|full| - |nodes|..]
  {
    LineageExact(store, taskId, userId, Ok(nodes));
    hide Lineage;
    NoLongerThanRooted(store, taskId, nodes, full);
    DescentsAgree(store, taskId, nodes, full);
    if |nodes| < |full| {
      var k := |full| - |nodes|;
      assert ForkedFrom(store, full[k].taskId, full[k - 1]);
    }
  }

  // Nothing lies above a task without a fork.
  lemma NoLongerThanRooted(store: Store, taskId: int, nodes: seq<Node>, full: seq<Node>)
    requires Descent(store, taskId, nodes) && Rooted(store, taskId, full)
    ensures |nodes| <= |full|
  {
    if |full| < |nodes| {
      DescentsAgree(store, taskId, full, nodes);
      BelowTop(store, taskId, nodes, |nodes| - |full|);
    }
  }

  lemma BelowTop(store: Store, taskId: int, nodes: seq<Node>, k: nat)
    requires Descent(store, taskId, nodes) && 0 < k < |nodes|
    ensures nodes[k].taskId in store.tasks && store.tasks[nodes[k].taskId].fork.Some?
  {
    assert ForkedFrom(store, nodes[k].taskId, nodes[k - 1]);
  }

  // A resolved lineage of any depth collects the recursive history exactly if no
  // task beyond the bound has a message within all cutoffs below it, and nothing
  // leaks among the tasks kept.
  lemma LineageIsMeaningIff(store: Store, taskId: int, userId: int, nodes: seq<Node>, full: seq<Node>)
    requires PrimaryKeys(store)
    requires Lineage(store, taskId, userId) == Ok(nodes) && Rooted(store, taskId, full)
    ensures |nodes| <= |full|
    ensures Meaning(store, taskId, |full| - 1) == Some(Collect(store, nodes, None))
            <==> Dropped(store, full, 0, |full| - |nodes|) == [] && NoLeak(store, nodes, 0)
  {
    hide Lineage, Meaning, Collect, Dropped, NoLeak, PrimaryKeys, Rooted;
    LineageIsLowerPart(store, taskId, userId, nodes, full);
    RootedParts(store, taskId, full);
    LineageNotEmpty(store, taskId, userId, nodes);
    CutMeaningIff(store, taskId, full, |full| - |nodes|);
  }

  lemma LineageNotEmpty(store: Store, taskId: int, userId: int, nodes: seq<Node>)
    requires Lineage(store, taskId, userId) == Ok(nodes)
    ensures nodes != []
  {
    LineageExact(store, taskId, userId, Ok(nodes));
  }

  // A message before every fork keeps the cut part from being the history.
  lemma DroppedRow(store: Store, nodes: seq<Node>, d: nat, row: SubtaskRow)
    requires 0 < d <= |nodes| && row in store.ListSubtasks(nodes[0].taskId)
    requires forall k :: 0 <= k < |nodes| - 1 ==> UpTo(nodes[k].cutoff)(row)
    ensures Dropped(store, nodes, 0, d) != []
  {
    LowestBounds(nodes, 0, row);
    FilterMembers(store.ListSubtasks(nodes[0].taskId), UpTo(Lowest(nodes, 0)));
    hide Filter, Lowest;
  }

  // A chain of one task more than the bound, each forked from the one before.
  ghost function DeepTasks(): map<int, TaskRow> {
    map taskId: int | 1 <= taskId <= MAX_FORK_DEPTH + 1 :: DeepTask(taskId)
  }

  function DeepTask(taskId: int): TaskRow {
    TaskRow(1, if taskId == 1 then None else Some(ForkSpec(taskId - 1, 10)))
  }

  ghost function DeepChain(): seq<Node> {
    seq(MAX_FORK_DEPTH + 1, i => Node(i + 1, 1, if i == MAX_FORK_DEPTH then None else Some(10)))
  }

  lemma DeepChainRooted(store: Store)
    requires store.tasks == DeepTasks()
    ensures Rooted(store, MAX_FORK_DEPTH + 1, DeepChain())
    ensures Lineage(store, MAX_FORK_DEPTH + 1, 1) == Ok(DeepChain()[1..])
  {
    var taskId: int := MAX_FORK_DEPTH + 1;
    var full := DeepChain();
    assert Rooted(store, taskId, full);
    var nodes := full[1..];
    forall i | 0 <= i < |nodes| - 1
      ensures ForkedFrom(store, nodes[i + 1].taskId, nodes[i])
    {
      assert nodes[i] == full[i + 1] && nodes[i + 1] == full[i + 2];
    }
    assert Descent(store, taskId, nodes);
    assert LineageOutcome(store, taskId, 1, nodes, Ok(nodes));
    LineageExact(store, taskId, 1, Ok(nodes));
  }

  // Its last task is answered without the first task's message, although that
  // was sent before every fork.
  lemma DeepChainLosesMessage() returns (store: Store, nodes: seq<Node>)
    ensures Lineage(store, MAX_FORK_DEPTH + 1, 1) == Ok(nodes)
    ensures NonDecreasing(nodes)
    ensures Meaning(store, MAX_FORK_DEPTH + 1, MAX_FORK_DEPTH).Some?
    ensures Meaning(store, MAX_FORK_DEPTH + 1, MAX_FORK_DEPTH) != Some(Collect(store, nodes, None))
  {
    hide Lineage, Meaning, Collect, Dropped, NoLeak, Rooted, DeepTasks, DeepChain, PrimaryKeys, NonDecreasing;
    var row := SubtaskRow(1, 5, "USER", "COMPLETED", None, None, 0, None);
    store := Store(DeepTasks(), map[1 := [row]]);
    var full := DeepChain();
    OneRowKeys(DeepTasks(), row);
    DeepCutoffs(row);
    nodes := full[1..];
    DeepChainRooted(store);
    MeaningIsTight(store, MAX_FORK_DEPTH + 1, full);
    DroppedRow(store, full, 1, row);
    LineageIsMeaningIff(store, MAX_FORK_DEPTH + 1, 1, nodes, full);
  }

  lemma OneRowKeys(tasks: map<int, TaskRow>, row: SubtaskRow)
    ensures PrimaryKeys(Store(tasks, map[1 := [row]]))
  {
  }

  lemma DeepCutoffs(row: SubtaskRow)
    requires row.messageId == 5
    ensures |DeepChain()| == MAX_FORK_DEPTH + 1 && DeepChain()[0].taskId == 1
    ensures forall k :: 0 <= k < |DeepChain()| - 1 ==> UpTo(DeepChain()[k].cutoff)(row)
    ensures NonDecreasing(DeepChain()[1..])
  {
  }
}
