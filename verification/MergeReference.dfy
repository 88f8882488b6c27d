// An independent description of a merged reference list: what each entry is in
// terms of all references with its key at once, and in which order they stand.
module MergeReference {
  import opened Wrappers
  import opened JsonValues
  import opened Sequences
  import opened OrderedSets
  import opened SelectedKnowledge

  ghost function WithKey(key: Key): Ref -> bool {
    (ref: Ref) => KeyOf(ref) == key
  }

  // The references to one base, in order.
  ghost function Group(refs: seq<Ref>, key: Key): seq<Ref> {
    Filter(refs, WithKey(key))
  }

  ghost function AllResources(group: seq<Ref>): seq<Resource> {
    if group == [] then [] else group[0].resources + AllResources(group[1..])
  }

  ghost function AllTopics(group: seq<Ref>): seq<string> {
    if group == [] then [] else group[0].topics + AllTopics(group[1..])
  }

  // The first summary with text; without any, the last one.
  ghost function FirstSummary(group: seq<Ref>): Option<string>
    requires group != []
  {
    if |group| == 1 || (group[0].summary.Some? && group[0].summary.value != "") then group[0].summary
    else FirstSummary(group[1..])
  }

  ghost function FirstCapabilities(group: seq<Ref>): map<string, Json>
    requires group != []
  {
    if |group| == 1 || group[0].capabilities != map[] then group[0].capabilities
    else FirstCapabilities(group[1..])
  }

  ghost function FirstWhole(group: seq<Ref>): Option<Ref> {
    if group == [] then None
    else if group[0].resources == [] then Some(group[0])
    else FirstWhole(group[1..])
  }

  // What a group amounts to: its first whole-base reference as it is; else a
  // single reference as it is; else the first one's name, all resources and
  // topics without repeats, and the first summary and capabilities there are.
  ghost function Joint(group: seq<Ref>): Ref
    requires group != []
  {
    match FirstWhole(group)
    case Some(whole) => whole
    case None =>
      if |group| == 1 then group[0]
      else Ref(
          group[0].provider, group[0].knowledgeBaseId, group[0].name,
          Dedup(AllResources(group), ScopeOf),
          FirstSummary(group),
          Dedup(AllTopics(group), TopicOf),
          FirstCapabilities(group))
  }

  lemma {:induction false} AllStep(group: seq<Ref>, ref: Ref)
    ensures AllResources(group + [ref]) == AllResources(group) + ref.resources
    ensures AllTopics(group + [ref]) == AllTopics(group) + ref.topics
  {
    var all := group + [ref];
    if group == [] {
      assert all[1..] == [];
    } else {
      assert all[1..] == group[1..] + [ref];
      AllStep(group[1..], ref);
      hide AllResources, AllTopics;
      ConcatAssoc(group[0].resources, AllResources(group[1..]), ref.resources);
      ConcatAssoc(group[0].topics, AllTopics(group[1..]), ref.topics);
    }
  }

  lemma {:induction false} FirstStep(group: seq<Ref>, ref: Ref)
    requires group != []
    ensures FirstSummary(group + [ref]) == OrSummary(FirstSummary(group), ref.summary)
    ensures FirstCapabilities(group + [ref]) == OrCapabilities(FirstCapabilities(group), ref.capabilities)
  {
    var all := group + [ref];
    assert all[1..] == group[1..] + [ref];
    if |group| > 1 {
      FirstStep(group[1..], ref);
    } else {
      assert all[1..] == [ref];
    }
  }

  lemma {:induction false} FirstWholeStep(group: seq<Ref>, ref: Ref)
    ensures FirstWhole(group + [ref])
            == if FirstWhole(group).Some? then FirstWhole(group)
               else if ref.resources == [] then Some(ref) else None
    ensures FirstWhole(group).Some? ==> FirstWhole(group).value.resources == []
    ensures FirstWhole(group).None? && group != [] ==> group[0].resources != []
  {
    var all := group + [ref];
    if group == [] {
      assert all[1..] == [];
    } else {
      assert all[1..] == group[1..] + [ref];
      FirstWholeStep(group[1..], ref);
    }
  }

  lemma AllResourcesNonempty(group: seq<Ref>)
    requires group != [] && group[0].resources != []
    ensures Dedup(AllResources(group), ScopeOf) != []
  {
    var all := AllResources(group);
    assert all != [];
    MergedResourcesNonempty(all, []);
    assert all + [] == all;
  }

  lemma JointOne(ref: Ref)
    ensures Joint([ref]) == ref
  {
    assert [ref][1..] == [];
    assert FirstWhole([ref]) == if ref.resources == [] then Some(ref) else FirstWhole([]);
  }

  lemma JointStep(group: seq<Ref>, ref: Ref)
    requires group != []
    ensures Joint(group + [ref]) == Combine(Joint(group), ref)
  {
    FirstWholeStep(group, ref);
    if FirstWhole(group).None? && ref.resources != [] {
      AllResourcesNonempty(group);
      AllStep(group, ref);
      FirstStep(group, ref);
      DedupLeft(AllResources(group), ref.resources, ScopeOf);
      DedupLeft(AllTopics(group), ref.topics, TopicOf);
      if |group| == 1 {
        assert group == [group[0]] && [group[0]][1..] == [];
        assert AllResources(group) == group[0].resources && AllTopics(group) == group[0].topics;
      }
      hide Dedup, AllResources, AllTopics, FirstSummary, FirstCapabilities, FirstWhole;
    } else if FirstWhole(group).None? {
      AllResourcesNonempty(group);
    }
  }

  // The keys, one after the other.
  ghost function KeySeq(refs: seq<Ref>): seq<Key> {
    seq(|refs|, i requires 0 <= i < |refs| => KeyOf(refs[i]))
  }

  function SameKey(key: Key): Key {
    key
  }

  // `merged` describes `refs`: the keys in order of first occurrence, each with
  // what its group amounts to.
  ghost predicate Describes(merged: seq<Ref>, refs: seq<Ref>) {
    && KeySeq(merged) == Dedup(KeySeq(refs), SameKey)
    && forall i :: 0 <= i < |merged| ==> IsJoint(merged[i], refs)
  }

  ghost predicate IsJoint(entry: Ref, refs: seq<Ref>) {
    var group := Group(refs, KeyOf(entry));
    group != [] && entry == Joint(group)
  }

  lemma GroupStep(refs: seq<Ref>, ref: Ref, key: Key)
    ensures Group(refs + [ref], key) == Group(refs, key) + (if KeyOf(ref) == key then [ref] else [])
  {
    FilterConcat(refs, [ref], WithKey(key));
    assert [ref][1..] == [];
  }

  lemma KeySeqStep(refs: seq<Ref>, ref: Ref)
    ensures KeySeq(refs + [ref]) == KeySeq(refs) + [KeyOf(ref)]
  {
  }

  lemma KeySeqKnown(refs: seq<Ref>, key: Key)
    ensures key in Keys(KeySeq(refs), SameKey) <==> IndexOf(refs, key).Some?
  {
    var keys := KeySeq(refs);
    if IndexOf(refs, key).Some? {
      var at := IndexOf(refs, key).value;
      assert keys[at] == key && keys[at] in keys;
      assert SameKey(keys[at]) == key;
    }
    if key in Keys(keys, SameKey) {
      var k :| 0 <= k < |keys| && keys[k] == key;
      assert KeyOf(refs[k]) == key;
    }
  }

  lemma {:induction false} EmptyGroup(refs: seq<Ref>, key: Key)
    requires key !in Keys(refs, KeyOf)
    ensures Group(refs, key) == []
  {
    FilterNone(refs, WithKey(key));
  }

  lemma DescribesStep(merged: seq<Ref>, refs: seq<Ref>, ref: Ref)
    requires Unique(merged) && Keys(merged, KeyOf) == Keys(refs, KeyOf)
    requires Describes(merged, refs)
    ensures Describes(AddRef(merged, ref), refs + [ref])
  {
    var key := KeyOf(ref);
    var keys := KeySeq(refs);
    KeySeqStep(refs, ref);
    AbsorbStep([], keys, key, SameKey);
    AddNewWhen(Dedup(keys, SameKey), key, SameKey);
    KeySeqKnown(merged, key);
    AddRefUnique(merged, ref);
    var out := AddRef(merged, ref);
    forall i | 0 <= i < |out|
      ensures IsJoint(out[i], refs + [ref])
    {
      DescribesStepAt(merged, refs, ref, i);
    }
    hide Dedup, Keys, Absorb, IsJoint;
    if IndexOf(merged, key).None? {
      KeySeqStep(merged, ref);
    } else {
      assert KeySeq(out) == KeySeq(merged);
    }
  }

  lemma DescribesStepAt(merged: seq<Ref>, refs: seq<Ref>, ref: Ref, i: nat)
    requires Unique(merged) && Keys(merged, KeyOf) == Keys(refs, KeyOf)
    requires forall k :: 0 <= k < |merged| ==> IsJoint(merged[k], refs)
    requires i < |AddRef(merged, ref)|
    ensures IsJoint(AddRef(merged, ref)[i], refs + [ref])
  {
    var key := KeyOf(ref);
    AddRefUnique(merged, ref);
    var out := AddRef(merged, ref);
    GroupStep(refs, ref, KeyOf(out[i]));
    if i == |merged| {
      assert key !in Keys(merged, KeyOf);
      EmptyGroup(refs, key);
      JointOne(ref);
      assert [] + [ref] == [ref];
      assert Group(refs + [ref], key) == [ref];
    } else {
      assert IsJoint(merged[i], refs);
      if KeyOf(merged[i]) == key {
        IndexIs(merged, i);
        JointStep(Group(refs, key), ref);
      } else {
        assert Group(refs, KeyOf(out[i])) + [] == Group(refs, KeyOf(out[i]));
      }
    }
  }

  // The merge loop computes exactly this description.
  lemma {:induction false} MergeDescribes(refs: seq<Ref>)
    ensures Describes(Merge(refs), refs)
  {
    if refs == [] {
      assert KeySeq(refs) == [];
    } else {
      var n := |refs| - 1;
      MergeDescribes(refs[..n]);
      MergeMeaning(refs[..n]);
      assert refs == refs[..n] + [refs[n]];
      assert Merge(refs) == AddRef(Merge(refs[..n]), refs[n]);
      hide *;
      DescribesStep(Merge(refs[..n]), refs[..n], refs[n]);
    }
  }

  // And nothing else fits it.
  lemma DescriptionUnique(a: seq<Ref>, b: seq<Ref>, refs: seq<Ref>)
    requires Describes(a, refs) && Describes(b, refs)
    ensures a == b
  {
    assert |KeySeq(a)| == |KeySeq(b)|;
    forall i | 0 <= i < |a|
      ensures a[i] == b[i]
    {
      assert KeySeq(a)[i] == KeyOf(a[i]) && KeySeq(b)[i] == KeyOf(b[i]);
      assert IsJoint(a[i], refs) && IsJoint(b[i], refs);
    }
  }
}
