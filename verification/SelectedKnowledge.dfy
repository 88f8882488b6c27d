// Merging knowledge references and letting a turn's explicit selection
// override the task's.
module SelectedKnowledge {
  import opened Wrappers
  import opened JsonValues
  import opened OrderedSets

  datatype Resource = Resource(
    scopeType: string,
    resourceId: Option<string>,
    resourceName: Option<string>,
    resourcePath: Option<string>,
    resourceUrl: Option<string>)

  // One knowledge base and the resources selected in it; no resources means
  // the whole base.
  datatype Ref = Ref(
    provider: string,
    knowledgeBaseId: string,
    name: string,
    resources: seq<Resource>,
    summary: Option<string>,
    topics: seq<string>,
    capabilities: map<string, Json>)

  type Key = (string, string)
  type Scope = (string, Option<string>)

  function KeyOf(ref: Ref): Key {
    (ref.provider, ref.knowledgeBaseId)
  }

  function ScopeOf(resource: Resource): Scope {
    (resource.scopeType, resource.resourceId)
  }

  function TopicOf(topic: string): string {
    topic
  }

  // Python's `a or b` on optional strings, on strings and on dictionaries.
  function OrSummary(a: Option<string>, b: Option<string>): Option<string> {
    if a.Some? && a.value != "" then a else b
  }

  function OrName(a: string, b: string): string {
    if a != "" then a else b
  }

  function OrCapabilities(a: map<string, Json>, b: map<string, Json>): map<string, Json> {
    if a != map[] then a else b
  }

  /* ---------- Merging two references to one base ---------- */

  function MergeTopics(a: seq<string>, b: seq<string>): seq<string> {
    Dedup(a + b, TopicOf)
  }

  function MergeResources(a: seq<Resource>, b: seq<Resource>): seq<Resource> {
    Dedup(a + b, ScopeOf)
  }

  method CollectResources(a: seq<Resource>, b: seq<Resource>) returns (resources: seq<Resource>)
    ensures resources == MergeResources(a, b)
  {
    var indexes: map<Scope, nat> := map[];
    resources := [];
    resources, indexes := CollectGroup(resources, indexes, [], a);
    assert [] + a == a;
    resources, indexes := CollectGroup(resources, indexes, a, b);
  }

  // The inner loop: one group of resources after those in `seen`.
  method CollectGroup(
    collected: seq<Resource>, known: map<Scope, nat>, ghost seen: seq<Resource>, group: seq<Resource>)
    returns (resources: seq<Resource>, indexes: map<Scope, nat>)
    requires collected == Dedup(seen, ScopeOf) && known.Keys == Keys(collected, ScopeOf)
    ensures resources == Dedup(seen + group, ScopeOf) && indexes.Keys == Keys(resources, ScopeOf)
  {
    hide Dedup, Keys, AddNew;
    resources, indexes := collected, known;
    assert seen + group[..0] == seen;
    for i := 0 to |group|
      invariant resources == Dedup(seen + group[..i], ScopeOf)
      invariant indexes.Keys == Keys(resources, ScopeOf)
    {
      var resource := group[i];
      CollectStep(resources, seen, group, i);
      if ScopeOf(resource) in indexes {
        continue;
      }
      indexes := indexes[ScopeOf(resource) := |resources|];
      resources := resources + [resource];
    }
    assert group[..|group|] == group;
  }

  lemma CollectStep(resources: seq<Resource>, seen: seq<Resource>, group: seq<Resource>, i: nat)
    requires i < |group| && resources == Dedup(seen + group[..i], ScopeOf)
    ensures var next := if ScopeOf(group[i]) in Keys(resources, ScopeOf) then resources else resources + [group[i]];
            && Dedup(seen + group[..i + 1], ScopeOf) == next
            && Keys(next, ScopeOf) == Keys(resources, ScopeOf) + {ScopeOf(group[i])}
  {
    hide Dedup, Keys, AddNew;
    DedupStep(seen, group, i);
    AddNewKeys(resources, group[i], ScopeOf);
    AddNewWhen(resources, group[i], ScopeOf);
  }

  lemma DedupStep(seen: seq<Resource>, group: seq<Resource>, i: nat)
    requires i < |group|
    ensures Dedup(seen + group[..i + 1], ScopeOf) == AddNew(Dedup(seen + group[..i], ScopeOf), group[i], ScopeOf)
  {
    hide AddNew;
    assert seen + group[..i + 1] == seen + group[..i] + [group[i]];
    AbsorbStep([], seen + group[..i], group[i], ScopeOf);
  }

  // A later reference joins an earlier one with the same key: the whole base
  // absorbs, otherwise resources, topics and missing metadata are merged.
  function Combine(current: Ref, ref: Ref): Ref {
    if current.resources == [] then current
    else if ref.resources == [] then ref
    else Ref(
        current.provider, current.knowledgeBaseId, current.name,
        MergeResources(current.resources, ref.resources),
        OrSummary(current.summary, ref.summary),
        MergeTopics(current.topics, ref.topics),
        OrCapabilities(current.capabilities, ref.capabilities))
  }

  lemma MergedResourcesNonempty(a: seq<Resource>, b: seq<Resource>)
    requires a != []
    ensures MergeResources(a, b) != []
  {
    AbsorbKeys([], a + b, ScopeOf);
    assert (a + b)[0] in a + b;
    assert ScopeOf((a + b)[0]) in Keys(MergeResources(a, b), ScopeOf);
  }

  // Exactly, down to order and metadata.
  lemma CombineAssociative(a: Ref, b: Ref, c: Ref)
    requires KeyOf(a) == KeyOf(b) == KeyOf(c)
    ensures Combine(Combine(a, b), c) == Combine(a, Combine(b, c))
  {
    if a.resources != [] && b.resources != [] {
      MergedResourcesNonempty(a.resources, b.resources);
      MergedResourcesNonempty(b.resources, c.resources);
      if c.resources != [] {
        DedupAssociative(a.resources, b.resources, c.resources, ScopeOf);
        DedupAssociative(a.topics, b.topics, c.topics, TopicOf);
      }
    }
  }

  /* ---------- Merging a list of references ---------- */

  function IndexOf(refs: seq<Ref>, key: Key): (index: Option<nat>)
    ensures index.Some? ==> index.value < |refs| && KeyOf(refs[index.value]) == key
    ensures index.None? ==> forall i :: 0 <= i < |refs| ==> KeyOf(refs[i]) != key
  {
    if refs == [] then None
    else if KeyOf(refs[|refs| - 1]) == key then Some(|refs| - 1)
    else IndexOf(refs[..|refs| - 1], key)
  }

  function AddRef(merged: seq<Ref>, ref: Ref): seq<Ref> {
    match IndexOf(merged, KeyOf(ref))
    case None => merged + [ref]
    case Some(i) => merged[i := Combine(merged[i], ref)]
  }

  function AddRefs(merged: seq<Ref>, refs: seq<Ref>): seq<Ref> {
    if refs == [] then merged else AddRef(AddRefs(merged, refs[..|refs| - 1]), refs[|refs| - 1])
  }

  function Merge(refs: seq<Ref>): seq<Ref> {
    AddRefs([], refs)
  }

  ghost predicate Unique(refs: seq<Ref>) {
    DistinctKeys(refs, KeyOf)
  }

  lemma CombineKey(a: Ref, b: Ref)
    requires KeyOf(a) == KeyOf(b)
    ensures KeyOf(Combine(a, b)) == KeyOf(a)
  {
  }

  lemma AddRefUnique(merged: seq<Ref>, ref: Ref)
    requires Unique(merged)
    ensures Unique(AddRef(merged, ref))
    ensures |merged| <= |AddRef(merged, ref)|
    ensures forall i :: 0 <= i < |merged| ==> KeyOf(AddRef(merged, ref)[i]) == KeyOf(merged[i])
  {
  }

  // In a sequence without repeats the position of a key is its only one.
  lemma IndexIs(refs: seq<Ref>, i: nat)
    requires Unique(refs) && i < |refs|
    ensures IndexOf(refs, KeyOf(refs[i])) == Some(i)
  {
  }

  lemma {:induction false} AddRefsUnique(merged: seq<Ref>, refs: seq<Ref>)
    requires Unique(merged)
    ensures Unique(AddRefs(merged, refs))
    ensures |merged| <= |AddRefs(merged, refs)|
    ensures forall i :: 0 <= i < |merged| ==> KeyOf(AddRefs(merged, refs)[i]) == KeyOf(merged[i])
  {
    if refs != [] {
      AddRefsUnique(merged, refs[..|refs| - 1]);
      AddRefUnique(AddRefs(merged, refs[..|refs| - 1]), refs[|refs| - 1]);
    }
  }

  lemma AddRefsStep(merged: seq<Ref>, refs: seq<Ref>, ref: Ref)
    ensures AddRefs(merged, refs + [ref]) == AddRef(AddRefs(merged, refs), ref)
  {
    assert (refs + [ref])[..|refs|] == refs;
  }

  lemma {:induction false} AddRefsConcat(merged: seq<Ref>, a: seq<Ref>, b: seq<Ref>)
    ensures AddRefs(merged, a + b) == AddRefs(AddRefs(merged, a), b)
  {
    if b == [] {
      assert a + b == a;
    } else {
      var n := |b| - 1;
      AddRefsConcat(merged, a, b[..n]);
      assert a + b == (a + b[..n]) + [b[n]];
      AddRefsStep(merged, a + b[..n], b[n]);
    }
  }

  // The dictionary `merged` with its keys in insertion order, read as the
  // sequence of its values.
  ghost predicate Represents(merged: map<Key, Ref>, order: seq<Key>, values: seq<Ref>) {
    && Unique(values)
    && |order| == |values|
    && (forall j :: 0 <= j < |order| ==>
          order[j] == KeyOf(values[j]) && order[j] in merged && merged[order[j]] == values[j])
    && (forall key <- merged :: key in order)
  }

  lemma DictionaryAdd(merged: map<Key, Ref>, order: seq<Key>, values: seq<Ref>, ref: Ref)
    requires Represents(merged, order, values) && KeyOf(ref) !in merged
    ensures AddRef(values, ref) == values + [ref]
    ensures Represents(merged[KeyOf(ref) := ref], order + [KeyOf(ref)], values + [ref])
  {
    assert forall j :: 0 <= j < |values| ==> order[j] != KeyOf(ref);
  }

  lemma DictionarySet(merged: map<Key, Ref>, order: seq<Key>, values: seq<Ref>, ref: Ref)
    requires Represents(merged, order, values) && KeyOf(ref) in merged
    ensures var combined := Combine(merged[KeyOf(ref)], ref);
            Represents(merged[KeyOf(ref) := combined], order, AddRef(values, ref))
  {
    var key := KeyOf(ref);
    var j :| 0 <= j < |order| && order[j] == key;
    IndexIs(values, j);
    AddRefUnique(values, ref);
    CombineKey(values[j], ref);
    hide Combine;
    assert AddRef(values, ref) == values[j := Combine(values[j], ref)];
  }

  method MergeRefs(refs: seq<Ref>) returns (result: seq<Ref>)
    ensures result == Merge(refs)
  {
    var merged: map<Key, Ref> := map[];
    var order: seq<Key> := [];
    ghost var values: seq<Ref> := [];
    for i := 0 to |refs|
      invariant values == Merge(refs[..i]) && Represents(merged, order, values)
    {
      hide Represents, MergeTopics;
      var ref := refs[i];
      var key := KeyOf(ref);
      assert refs[..i + 1] == refs[..i] + [ref];
      AddRefsStep([], refs[..i], ref);
      values := AddRef(values, ref);
      if key !in merged {
        DictionaryAdd(merged, order, Merge(refs[..i]), ref);
        merged := merged[key := ref];
        order := order + [key];
        continue;
      }
      DictionarySet(merged, order, Merge(refs[..i]), ref);
      var current := merged[key];
      if current.resources == [] {
        assert merged[key := current] == merged;
        continue;
      }
      if ref.resources == [] {
        merged := merged[key := ref];
        continue;
      }
      var resources := CollectResources(current.resources, ref.resources);
      merged := merged[key := Ref(
        current.provider, current.knowledgeBaseId, current.name, resources,
        OrSummary(current.summary, ref.summary),
        MergeTopics(current.topics, ref.topics),
        OrCapabilities(current.capabilities, ref.capabilities))];
    }
    assert refs[..|refs|] == refs;
    result := seq(|order|, k requires 0 <= k < |order| && order[k] in merged => merged[order[k]]);
  }

  /* ---------- Merging is a homomorphism ---------- */

  // Adding two references with different keys, one of them already present,
  // works in either order.
  lemma AddRefCommutes(merged: seq<Ref>, known: Ref, other: Ref)
    requires Unique(merged) && KeyOf(known) != KeyOf(other)
    requires IndexOf(merged, KeyOf(known)).Some?
    ensures AddRef(AddRef(merged, known), other) == AddRef(AddRef(merged, other), known)
  {
    hide IndexOf, AddRef, Combine, Unique, KeyOf;
    var i := IndexOf(merged, KeyOf(known)).value;
    AddRefUnique(merged, known);
    AddRefUnique(merged, other);
    AddRefAt(merged, known, i);
    var a, b := AddRef(merged, known), AddRef(merged, other);
    if IndexOf(merged, KeyOf(other)).Some? {
      var j := IndexOf(merged, KeyOf(other)).value;
      AddRefAt(merged, other, j);
      AddRefAt(b, known, i);
      AddRefAt(a, other, j);
    } else {
      AddRefNew(merged, other);
      AddRefAt(b, known, i);
      AddRefNew(a, other);
    }
  }

  lemma AddRefAt(merged: seq<Ref>, ref: Ref, i: nat)
    requires Unique(merged) && i < |merged| && KeyOf(merged[i]) == KeyOf(ref)
    ensures AddRef(merged, ref) == merged[i := Combine(merged[i], ref)]
  {
    hide Combine, Unique, IndexOf;
    IndexIs(merged, i);
  }

  lemma AddRefNew(merged: seq<Ref>, ref: Ref)
    requires forall k :: 0 <= k < |merged| ==> KeyOf(merged[k]) != KeyOf(ref)
    ensures AddRef(merged, ref) == merged + [ref]
  {
  }

  lemma {:induction false} AddRefsCommutes(merged: seq<Ref>, known: Ref, others: seq<Ref>)
    requires Unique(merged) && IndexOf(merged, KeyOf(known)).Some?
    requires forall other <- others :: KeyOf(other) != KeyOf(known)
    ensures AddRefs(AddRef(merged, known), others) == AddRef(AddRefs(merged, others), known)
  {
    if others != [] {
      var n := |others| - 1;
      var i := IndexOf(merged, KeyOf(known)).value;
      AddRefsCommutes(merged, known, others[..n]);
      AddRefsUnique(merged, others[..n]);
      IndexIs(AddRefs(merged, others[..n]), i);
      AddRefCommutes(AddRefs(merged, others[..n]), known, others[n]);
    }
  }

  // Adding a combined reference is adding both, one after the other.
  lemma AddCombined(merged: seq<Ref>, a: Ref, b: Ref)
    requires Unique(merged) && KeyOf(a) == KeyOf(b)
    ensures AddRef(merged, Combine(a, b)) == AddRef(AddRef(merged, a), b)
    ensures IndexOf(AddRef(merged, a), KeyOf(b)).Some?
  {
    CombineKey(a, b);
    AddRefUnique(merged, a);
    match IndexOf(merged, KeyOf(a))
    case None =>
      IndexIs(merged + [a], |merged|);
    case Some(i) =>
      CombineKey(merged[i], a);
      CombineAssociative(merged[i], a, b);
      IndexIs(AddRef(merged, a), i);
  }

  // Adding `ref` to a merged list first, or after the whole list was added.
  lemma AddThroughMerged(merged: seq<Ref>, list: seq<Ref>, ref: Ref)
    requires Unique(merged) && Unique(list)
    ensures AddRefs(merged, AddRef(list, ref)) == AddRef(AddRefs(merged, list), ref)
  {
    match IndexOf(list, KeyOf(ref))
    case None => AddRefsStep(merged, list, ref);
    case Some(j) =>
      var before, m, rest := list[..j], list[j], list[j + 1..];
      var combined := Combine(m, ref);
      hide Combine;
      CombineKey(m, ref);
      assert list == (before + [m]) + rest;
      assert AddRef(list, ref) == (before + [combined]) + rest;
      AddRefsConcat(merged, before + [m], rest);
      AddRefsConcat(merged, before + [combined], rest);
      AddRefsStep(merged, before, m);
      AddRefsStep(merged, before, combined);
      AddRefsUnique(merged, before);
      var start := AddRefs(merged, before);
      AddCombined(start, m, ref);
      AddRefUnique(start, m);
      AddRefsCommutes(AddRef(start, m), ref, rest);
  }

  lemma {:induction false} AddMerged(merged: seq<Ref>, refs: seq<Ref>)
    requires Unique(merged)
    ensures AddRefs(merged, Merge(refs)) == AddRefs(merged, refs)
  {
    if refs != [] {
      var n := |refs| - 1;
      AddMerged(merged, refs[..n]);
      AddRefsUnique([], refs[..n]);
      AddThroughMerged(merged, Merge(refs[..n]), refs[n]);
    }
  }

  // Merging two lists at once, or each on its own and then the results, gives
  // the very same references in the same order.
  lemma MergeHomomorphism(xs: seq<Ref>, ys: seq<Ref>)
    ensures Merge(xs + ys) == Merge(Merge(xs) + Merge(ys))
    ensures Merge(Merge(xs)) == Merge(xs)
  {
    AddMerged([], xs);
    AddRefsConcat([], xs, ys);
    AddRefsConcat([], Merge(xs), Merge(ys));
    AddRefsUnique([], xs);
    AddMerged(Merge(xs), ys);
  }

  /* ---------- What a merged list means ---------- */

  ghost predicate WholeBase(refs: seq<Ref>, key: Key) {
    exists i :: 0 <= i < |refs| && KeyOf(refs[i]) == key && refs[i].resources == []
  }

  ghost function Scopes(refs: seq<Ref>, key: Key): set<Scope> {
    set ref <- refs, resource <- ref.resources | KeyOf(ref) == key :: ScopeOf(resource)
  }

  // Entry `i` of the merged list stands for all references with its key.
  ghost predicate Means(merged: seq<Ref>, refs: seq<Ref>, i: nat)
    requires i < |merged|
  {
    var key := KeyOf(merged[i]);
    && (merged[i].resources == [] <==> WholeBase(refs, key))
    && (merged[i].resources != [] ==> Keys(merged[i].resources, ScopeOf) == Scopes(refs, key))
  }

  lemma ScopesStep(refs: seq<Ref>, ref: Ref, key: Key)
    ensures Scopes(refs + [ref], key)
            == Scopes(refs, key) + (if KeyOf(ref) == key then Keys(ref.resources, ScopeOf) else {})
  {
    var all := refs + [ref];
    assert forall r :: r in all <==> r in refs || r == ref;
  }

  lemma WholeBaseStep(refs: seq<Ref>, ref: Ref, key: Key)
    ensures WholeBase(refs + [ref], key) <==> WholeBase(refs, key) || (KeyOf(ref) == key && ref.resources == [])
  {
    var all := refs + [ref];
    assert all[|refs|] == ref;
    if WholeBase(refs, key) {
      var i :| 0 <= i < |refs| && KeyOf(refs[i]) == key && refs[i].resources == [];
      assert all[i] == refs[i];
    }
  }

  lemma NothingMeant(refs: seq<Ref>, key: Key)
    requires key !in Keys(refs, KeyOf)
    ensures !WholeBase(refs, key) && Scopes(refs, key) == {}
  {
  }

  lemma MeansStep(merged: seq<Ref>, refs: seq<Ref>, ref: Ref, i: nat)
    requires Unique(merged) && Keys(merged, KeyOf) == Keys(refs, KeyOf)
    requires forall k :: 0 <= k < |merged| ==> Means(merged, refs, k)
    requires i < |AddRef(merged, ref)|
    ensures Means(AddRef(merged, ref), refs + [ref], i)
  {
    var out := AddRef(merged, ref);
    AddRefUnique(merged, ref);
    var key := KeyOf(out[i]);
    ScopesStep(refs, ref, key);
    WholeBaseStep(refs, ref, key);
    if i == |merged| {
      assert out[i] == ref;
      assert key !in Keys(merged, KeyOf);
      NothingMeant(refs, key);
    } else if key == KeyOf(ref) {
      assert Means(merged, refs, i);
      IndexIs(merged, i);
      CombinedScopes(merged[i], ref);
    } else {
      assert Means(merged, refs, i);
    }
  }

  lemma CombinedScopes(a: Ref, b: Ref)
    requires KeyOf(a) == KeyOf(b)
    ensures Combine(a, b).resources == [] <==> a.resources == [] || b.resources == []
    ensures Combine(a, b).resources != [] ==>
              Keys(Combine(a, b).resources, ScopeOf) == Keys(a.resources, ScopeOf) + Keys(b.resources, ScopeOf)
  {
    if a.resources != [] && b.resources != [] {
      MergedResourcesNonempty(a.resources, b.resources);
      AbsorbKeys([], a.resources + b.resources, ScopeOf);
      KeysConcat(a.resources, b.resources, ScopeOf);
    }
  }

  lemma AddRefKeys(merged: seq<Ref>, ref: Ref)
    requires Unique(merged)
    ensures Keys(AddRef(merged, ref), KeyOf) == Keys(merged, KeyOf) + {KeyOf(ref)}
  {
    match IndexOf(merged, KeyOf(ref))
    case None =>
      AddNewKeys(merged, ref, KeyOf);
      AddNewWhen(merged, ref, KeyOf);
    case Some(j) =>
      CombineKey(merged[j], ref);
      SameKeys(merged, AddRef(merged, ref));
      assert merged[j] in merged;
  }

  lemma SameKeys(a: seq<Ref>, b: seq<Ref>)
    requires |a| == |b| && forall i :: 0 <= i < |a| ==> KeyOf(a[i]) == KeyOf(b[i])
    ensures Keys(a, KeyOf) == Keys(b, KeyOf)
  {
    forall key | key in Keys(a, KeyOf)
      ensures key in Keys(b, KeyOf)
    {
      var i :| 0 <= i < |a| && KeyOf(a[i]) == key;
      assert b[i] in b;
    }
    forall key | key in Keys(b, KeyOf)
      ensures key in Keys(a, KeyOf)
    {
      var i :| 0 <= i < |b| && KeyOf(b[i]) == key;
      assert a[i] in a;
    }
  }

  // A merged list has one entry per key; the entry is the whole base exactly
  // when some reference to it is, and else selects the union of their scopes.
  lemma {:induction false} MergeMeaning(refs: seq<Ref>)
    ensures Unique(Merge(refs)) && Keys(Merge(refs), KeyOf) == Keys(refs, KeyOf)
    ensures forall i :: 0 <= i < |Merge(refs)| ==> Means(Merge(refs), refs, i)
  {
    if refs != [] {
      var n := |refs| - 1;
      MergeMeaning(refs[..n]);
      assert refs == refs[..n] + [refs[n]];
      assert Merge(refs) == AddRef(Merge(refs[..n]), refs[n]);
      hide Merge, AddRef, Means, Keys;
      AddRefKeys(Merge(refs[..n]), refs[n]);
      KeysStep(refs[..n], refs[n]);
      AddRefUnique(Merge(refs[..n]), refs[n]);
      forall i | 0 <= i < |Merge(refs)|
        ensures Means(Merge(refs), refs, i)
      {
        MeansStep(Merge(refs[..n]), refs[..n], refs[n], i);
      }
    }
  }

  lemma KeysStep(refs: seq<Ref>, ref: Ref)
    ensures Keys(refs + [ref], KeyOf) == Keys(refs, KeyOf) + {KeyOf(ref)}
  {
    KeysConcat(refs, [ref], KeyOf);
    assert ref in [ref];
    assert Keys([ref], KeyOf) == {KeyOf(ref)};
  }

  // So the order of the input does not matter for what is selected.
  lemma MergeOrderIrrelevant(xs: seq<Ref>, ys: seq<Ref>, i: nat, j: nat)
    requires multiset(xs) == multiset(ys)
    requires i < |Merge(xs)| && j < |Merge(ys)| && KeyOf(Merge(xs)[i]) == KeyOf(Merge(ys)[j])
    ensures Merge(xs)[i].resources == [] <==> Merge(ys)[j].resources == []
    ensures Keys(Merge(xs)[i].resources, ScopeOf) == Keys(Merge(ys)[j].resources, ScopeOf)
    ensures Keys(Merge(xs), KeyOf) == Keys(Merge(ys), KeyOf)
  {
    MergeMeaning(xs);
    MergeMeaning(ys);
    var key := KeyOf(Merge(xs)[i]);
    assert Means(Merge(xs), xs, i) && Means(Merge(ys), ys, j);
    hide Merge;
    SameMembers(xs, ys);
    SameWholeBase(xs, ys, key);
    SameWholeBase(ys, xs, key);
  }

  lemma SameMembers(xs: seq<Ref>, ys: seq<Ref>)
    requires multiset(xs) == multiset(ys)
    ensures forall x :: x in xs <==> x in ys
  {
    assert forall x :: (x in xs <==> x in multiset(xs)) && (x in ys <==> x in multiset(ys));
  }

  lemma SameWholeBase(xs: seq<Ref>, ys: seq<Ref>, key: Key)
    requires forall x :: x in xs <==> x in ys
    ensures WholeBase(xs, key) ==> WholeBase(ys, key)
  {
    if WholeBase(xs, key) {
      var i :| 0 <= i < |xs| && KeyOf(xs[i]) == key && xs[i].resources == [];
      assert xs[i] in ys;
      var j :| 0 <= j < |ys| && ys[j] == xs[i];
    }
  }
}
