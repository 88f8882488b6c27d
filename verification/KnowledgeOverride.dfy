// One turn's explicit knowledge selection laid over the task's references.
module KnowledgeOverride {
  import opened Wrappers
  import opened OrderedSets
  import opened SelectedKnowledge

  datatype Context = Context(refs: seq<Ref>, evidenceRequired: bool)

  // The explicit reference owns the scope; the task fills in missing metadata.
  function OverlayRef(task: Ref, explicit: Ref): Ref {
    Ref(
      explicit.provider, explicit.knowledgeBaseId,
      OrName(explicit.name, task.name),
      explicit.resources,
      OrSummary(explicit.summary, task.summary),
      MergeTopics(explicit.topics, task.topics),
      OrCapabilities(explicit.capabilities, task.capabilities))
  }

  // The explicit side wins wherever it says something; the topics are the
  // explicit ones followed by what the task adds, without repeats.
  lemma OverlayMeaning(task: Ref, explicit: Ref)
    ensures var out := OverlayRef(task, explicit);
            && KeyOf(out) == KeyOf(explicit)
            && out.resources == explicit.resources
            && out.name == (if explicit.name == "" then task.name else explicit.name)
            && (explicit.summary.Some? && explicit.summary.value != "" ==> out.summary == explicit.summary)
            && (explicit.summary.None? || explicit.summary.value == "" ==> out.summary == task.summary)
            && out.capabilities == (if explicit.capabilities == map[] then task.capabilities else explicit.capabilities)
            && Dedup(explicit.topics, TopicOf) <= out.topics
            && DistinctKeys(out.topics, TopicOf)
            && Keys(out.topics, TopicOf) == Keys(explicit.topics, TopicOf) + Keys(task.topics, TopicOf)
            && (forall i, j :: 0 <= i < j < |out.topics| ==> out.topics[i] != out.topics[j])
            && (forall topic :: topic in out.topics <==> topic in explicit.topics || topic in task.topics)
  {
    AbsorbConcat([], explicit.topics, task.topics, TopicOf);
    AbsorbDistinct([], explicit.topics, TopicOf);
    AbsorbDistinct(Dedup(explicit.topics, TopicOf), task.topics, TopicOf);
    AbsorbKeys([], explicit.topics + task.topics, TopicOf);
    KeysConcat(explicit.topics, task.topics, TopicOf);
    hide Dedup, Absorb;
    var topics := OverlayRef(task, explicit).topics;
    hide OverlayRef;
    assert forall topic :: topic in topics <==> topic in Keys(topics, TopicOf);
    assert forall topic :: topic in explicit.topics <==> topic in Keys(explicit.topics, TopicOf);
    assert forall topic :: topic in task.topics <==> topic in Keys(task.topics, TopicOf);
  }

  function Overlay(refs: seq<Ref>, explicit: Ref): seq<Ref> {
    match IndexOf(refs, KeyOf(explicit))
    case None => refs + [explicit]
    case Some(i) => refs[i := OverlayRef(refs[i], explicit)]
  }

  function OverlayAll(refs: seq<Ref>, explicits: seq<Ref>): seq<Ref> {
    if explicits == [] then refs
    else Overlay(OverlayAll(refs, explicits[..|explicits| - 1]), explicits[|explicits| - 1])
  }

  function Resolve(task: seq<Ref>, explicit: seq<Ref>): Context {
    Context(OverlayAll(Merge(task), Merge(explicit)), Merge(explicit) != [])
  }

  ghost predicate Indexes(indexes: map<Key, nat>, refs: seq<Ref>) {
    && (forall key <- indexes :: indexes[key] < |refs| && KeyOf(refs[indexes[key]]) == key)
    && (forall i :: 0 <= i < |refs| ==> KeyOf(refs[i]) in indexes)
  }

  lemma OverlayKeys(refs: seq<Ref>, explicit: Ref)
    requires Unique(refs)
    ensures var out := Overlay(refs, explicit);
            && Unique(out) && |refs| <= |out|
            && (forall i :: 0 <= i < |refs| ==> KeyOf(out[i]) == KeyOf(refs[i]))
            && (|out| > |refs| ==> |out| == |refs| + 1 && KeyOf(out[|refs|]) == KeyOf(explicit))
            && (|out| > |refs| <==> IndexOf(refs, KeyOf(explicit)).None?)
  {
    assert forall ref :: KeyOf(OverlayRef(ref, explicit)) == KeyOf(explicit);
    hide OverlayRef;
  }

  lemma IndexesAgree(indexes: map<Key, nat>, refs: seq<Ref>, key: Key)
    requires Unique(refs) && Indexes(indexes, refs)
    ensures IndexOf(refs, key) == if key in indexes then Some(indexes[key]) else None
  {
    if key in indexes {
      IndexIs(refs, indexes[key]);
    }
  }

  lemma IndexesStep(indexes: map<Key, nat>, refs: seq<Ref>, explicit: Ref)
    requires Unique(refs) && Indexes(indexes, refs)
    ensures var key := KeyOf(explicit);
            Indexes(if key in indexes then indexes else indexes[key := |refs|], Overlay(refs, explicit))
  {
    OverlayKeys(refs, explicit);
    IndexesAgree(indexes, refs, KeyOf(explicit));
    hide Overlay, Unique;
  }

  lemma OverlayNothing(refs: seq<Ref>, explicits: seq<Ref>)
    requires explicits == []
    ensures OverlayAll(refs, explicits) == refs
  {
  }

  lemma OverlayAllStep(refs: seq<Ref>, explicits: seq<Ref>, n: nat)
    requires n < |explicits|
    ensures OverlayAll(refs, explicits[..n + 1]) == Overlay(OverlayAll(refs, explicits[..n]), explicits[n])
  {
    assert explicits[..n + 1][..n] == explicits[..n];
  }

  lemma OverlayWhen(refs: seq<Ref>, explicit: Ref)
    ensures var index := IndexOf(refs, KeyOf(explicit));
            && (index.None? ==> Overlay(refs, explicit) == refs + [explicit])
            && (index.Some? ==>
                  Overlay(refs, explicit) == refs[index.value := OverlayRef(refs[index.value], explicit)])
  {
  }

  method ResolveSelectedKnowledgeContext(task: seq<Ref>, explicit: seq<Ref>) returns (context: Context)
    ensures context == Resolve(task, explicit)
  {
    var mergedRefs := MergeRefs(task);
    AddRefsUnique([], task);
    var indexes: map<Key, nat> := InitialIndexes(mergedRefs);
    var normalized := MergeRefs(explicit);
    hide Indexes, Unique, Merge, OverlayRef, OverlayAll, Overlay;
    assert OverlayAll(Merge(task), normalized[..0]) == Merge(task) by {
      OverlayNothing(Merge(task), normalized[..0]);
    }
    for n := 0 to |normalized|
      invariant mergedRefs == OverlayAll(Merge(task), normalized[..n])
      invariant Unique(mergedRefs) && Indexes(indexes, mergedRefs)
    {
      var explicitRef := normalized[n];
      var key := KeyOf(explicitRef);
      OverlayAllStep(Merge(task), normalized, n);
      OverlayWhen(mergedRefs, explicitRef);
      IndexesAgree(indexes, mergedRefs, key);
      IndexesStep(indexes, mergedRefs, explicitRef);
      OverlayKeys(mergedRefs, explicitRef);
      if key !in indexes {
        var position: nat := |mergedRefs|;
        indexes := indexes[key := position];
        mergedRefs := mergedRefs + [explicitRef];
        continue;
      }
      var index := indexes[key];
      mergedRefs := mergedRefs[index := OverlayRef(mergedRefs[index], explicitRef)];
    }
    assert normalized[..|normalized|] == normalized;
    context := Context(mergedRefs, normalized != []);
  }

  method InitialIndexes(refs: seq<Ref>) returns (indexes: map<Key, nat>)
    requires Unique(refs)
    ensures Indexes(indexes, refs)
  {
    indexes := map[];
    for i := 0 to |refs|
      invariant forall key <- indexes :: indexes[key] < i && KeyOf(refs[indexes[key]]) == key
      invariant forall j :: 0 <= j < i ==> KeyOf(refs[j]) in indexes
    {
      var position: nat := i;
      indexes := indexes[KeyOf(refs[i]) := position];
    }
  }

  /* ---------- The override law ---------- */

  // The references of `explicits` whose key `refs` does not have.
  ghost function Fresh(refs: seq<Ref>, explicits: seq<Ref>): seq<Ref> {
    if explicits == [] then []
    else
      var n := |explicits| - 1;
      Fresh(refs, explicits[..n])
      + (if IndexOf(refs, KeyOf(explicits[n])).None? then [explicits[n]] else [])
  }

  // What stands at the place of `ref` afterwards.
  ghost function Overlaid(ref: Ref, explicits: seq<Ref>): Ref {
    match IndexOf(explicits, KeyOf(ref))
    case None => ref
    case Some(j) => OverlayRef(ref, explicits[j])
  }

  // First all of `refs`, each overlaid where an explicit reference has its key,
  // then the fresh explicit references in order.
  ghost predicate IsOverlay(refs: seq<Ref>, explicits: seq<Ref>, out: seq<Ref>) {
    && Unique(out)
    && |refs| <= |out|
    && (forall i :: 0 <= i < |refs| ==> out[i] == Overlaid(refs[i], explicits))
    && out[|refs|..] == Fresh(refs, explicits)
  }

  lemma OverlaidKey(ref: Ref, explicits: seq<Ref>)
    ensures KeyOf(Overlaid(ref, explicits)) == KeyOf(ref)
  {
  }

  lemma {:induction false} FreshMembers(refs: seq<Ref>, explicits: seq<Ref>)
    ensures forall ref :: ref in Fresh(refs, explicits) <==>
              ref in explicits && IndexOf(refs, KeyOf(ref)).None?
  {
    if explicits != [] {
      var n := |explicits| - 1;
      FreshMembers(refs, explicits[..n]);
      assert explicits == explicits[..n] + [explicits[n]];
    }
  }

  lemma OverlaidStep(ref: Ref, explicits: seq<Ref>, explicit: Ref)
    requires Unique(explicits + [explicit])
    ensures Overlaid(ref, explicits + [explicit])
            == if KeyOf(ref) == KeyOf(explicit) then OverlayRef(ref, explicit) else Overlaid(ref, explicits)
    ensures KeyOf(ref) == KeyOf(explicit) ==> Overlaid(ref, explicits) == ref
  {
    var all := explicits + [explicit];
    assert all[..|explicits|] == explicits;
    assert all[|explicits|] == explicit;
    assert forall j :: 0 <= j < |explicits| ==> all[j] == explicits[j];
  }

  // The part of `out` after `refs` holds explicit references only.
  lemma AddedAreExplicit(refs: seq<Ref>, explicits: seq<Ref>, out: seq<Ref>, k: nat)
    requires IsOverlay(refs, explicits, out) && |refs| <= k < |out|
    ensures out[k] in explicits
  {
    assert out[k] == out[|refs|..][k - |refs|];
    FreshMembers(refs, explicits);
  }

  lemma FreshStep(refs: seq<Ref>, explicits: seq<Ref>, explicit: Ref)
    ensures Fresh(refs, explicits + [explicit])
            == Fresh(refs, explicits) + (if IndexOf(refs, KeyOf(explicit)).None? then [explicit] else [])
  {
    var all := explicits + [explicit];
    assert all[..|explicits|] == explicits && all[|explicits|] == explicit;
  }

  lemma PlaceStep(refs: seq<Ref>, explicits: seq<Ref>, explicit: Ref, out: seq<Ref>, i: nat)
    requires Unique(explicits + [explicit]) && IsOverlay(refs, explicits, out) && i < |refs|
    ensures KeyOf(out[i]) == KeyOf(refs[i])
    ensures Overlaid(refs[i], explicits + [explicit])
            == if KeyOf(refs[i]) == KeyOf(explicit) then OverlayRef(out[i], explicit) else out[i]
  {
    OverlaidKey(refs[i], explicits);
    OverlaidStep(refs[i], explicits, explicit);
  }

  lemma OnlyPlace(refs: seq<Ref>, i: nat)
    requires Unique(refs) && i < |refs|
    ensures forall k :: 0 <= k < |refs| && KeyOf(refs[k]) == KeyOf(refs[i]) ==> k == i
  {
  }

  lemma IsOverlayStep(refs: seq<Ref>, explicits: seq<Ref>, explicit: Ref, out: seq<Ref>)
    requires Unique(refs) && Unique(explicits + [explicit]) && IsOverlay(refs, explicits, out)
    ensures IsOverlay(refs, explicits + [explicit], Overlay(out, explicit))
  {
    hide Overlaid, OverlayRef, Overlay, Fresh, Unique, IndexOf;
    var key := KeyOf(explicit);
    OverlayKeys(out, explicit);
    OverlayWhen(out, explicit);
    FreshStep(refs, explicits, explicit);
    forall i | 0 <= i < |refs|
      ensures KeyOf(out[i]) == KeyOf(refs[i])
      ensures Overlaid(refs[i], explicits + [explicit])
              == if KeyOf(refs[i]) == key then OverlayRef(out[i], explicit) else out[i]
    {
      PlaceStep(refs, explicits, explicit, out, i);
    }
    match IndexOf(refs, key)
    case Some(i) =>
      IndexIs(out, i);
      OnlyPlace(refs, i);
      assert Overlay(out, explicit)[|refs|..] == out[|refs|..];
      assert Fresh(refs, explicits) + [] == Fresh(refs, explicits);
    case None =>
      NotYetThere(refs, explicits, explicit, out);
      assert (out + [explicit])[|refs|..] == out[|refs|..] + [explicit];
  }

  // A key that neither `refs` nor the earlier explicit references have.
  lemma NotYetThere(refs: seq<Ref>, explicits: seq<Ref>, explicit: Ref, out: seq<Ref>)
    requires Unique(explicits + [explicit]) && IsOverlay(refs, explicits, out)
    requires IndexOf(refs, KeyOf(explicit)).None?
    ensures IndexOf(out, KeyOf(explicit)).None?
  {
    var all := explicits + [explicit];
    forall k | 0 <= k < |out|
      ensures KeyOf(out[k]) != KeyOf(explicit)
    {
      if k < |refs| {
        OverlaidKey(refs[k], explicits);
      } else {
        AddedAreExplicit(refs, explicits, out, k);
        var j :| 0 <= j < |explicits| && explicits[j] == out[k];
        assert all[j] == explicits[j] && all[|explicits|] == explicit;
      }
    }
  }

  lemma {:induction false} OverlayAllIs(refs: seq<Ref>, explicits: seq<Ref>)
    requires Unique(refs) && Unique(explicits)
    ensures IsOverlay(refs, explicits, OverlayAll(refs, explicits))
  {
    if explicits == [] {
      assert refs[|refs|..] == [];
    } else {
      var n := |explicits| - 1;
      OverlayAllIs(refs, explicits[..n]);
      assert explicits == explicits[..n] + [explicits[n]];
      IsOverlayStep(refs, explicits[..n], explicits[n], OverlayAll(refs, explicits[..n]));
    }
  }

  // The resolved references: the merged task references, in their order and
  // untouched unless explicitly selected, then the new explicit ones; no key
  // repeats, and every explicitly selected base has exactly the explicit scope.
  lemma OverrideLaw(task: seq<Ref>, explicit: seq<Ref>)
    ensures var out := Resolve(task, explicit).refs;
            && IsOverlay(Merge(task), Merge(explicit), out)
            && (forall e <- Merge(explicit) :: exists i :: 0 <= i < |out| && KeyOf(out[i]) == KeyOf(e)
                                                          && out[i].resources == e.resources)
            && (Resolve(task, explicit).evidenceRequired <==> explicit != [])
  {
    var refs, es := Merge(task), Merge(explicit);
    AddRefsUnique([], task);
    AddRefsUnique([], explicit);
    OverlayAllIs(refs, es);
    var out := OverlayAll(refs, es);
    forall e | e in es
      ensures exists i :: 0 <= i < |out| && KeyOf(out[i]) == KeyOf(e) && out[i].resources == e.resources
    {
      ExplicitScope(refs, es, out, e);
    }
    MergeMeaning(explicit);
    if explicit != [] {
      assert explicit[0] in explicit;
      assert KeyOf(explicit[0]) in Keys(es, KeyOf);
    }
  }

  lemma ExplicitScope(refs: seq<Ref>, es: seq<Ref>, out: seq<Ref>, e: Ref)
    requires Unique(refs) && Unique(es) && IsOverlay(refs, es, out) && e in es
    ensures exists i :: 0 <= i < |out| && KeyOf(out[i]) == KeyOf(e) && out[i].resources == e.resources
  {
    var j :| 0 <= j < |es| && es[j] == e;
    IndexIs(es, j);
    match IndexOf(refs, KeyOf(e))
    case Some(i) =>
      assert out[i] == Overlaid(refs[i], es);
    case None =>
      FreshMembers(refs, es);
      var k :| 0 <= k < |out[|refs|..]| && out[|refs|..][k] == e;
      assert out[|refs| + k] == e;
  }

  /* ---------- Resolving again ---------- */

  ghost predicate DistinctTopics(ref: Ref) {
    DistinctKeys(ref.topics, TopicOf)
  }

  lemma OverlayTwice(task: Ref, e: Ref)
    ensures OverlayRef(OverlayRef(task, e), e) == OverlayRef(task, e)
    ensures OverlayRef(e, e) == e <==> DistinctTopics(e)
  {
    DedupRight(e.topics, e.topics + task.topics, TopicOf);
    AbsorbConcat([], e.topics, e.topics + task.topics, TopicOf);
    AbsorbConcat(Dedup(e.topics, TopicOf), e.topics, task.topics, TopicOf);
    AbsorbKeys([], e.topics, TopicOf);
    AbsorbKnown(Dedup(e.topics, TopicOf), e.topics, TopicOf);
    AbsorbConcat([], e.topics, task.topics, TopicOf);
    AbsorbConcat([], e.topics, e.topics, TopicOf);
    DedupFixed(e.topics, TopicOf);
  }

  lemma {:induction false} MergeFixed(refs: seq<Ref>)
    requires Unique(refs)
    ensures Merge(refs) == refs
  {
    if refs != [] {
      var n := |refs| - 1;
      MergeFixed(refs[..n]);
      assert refs == refs[..n] + [refs[n]];
    }
  }

  lemma {:induction false} FreshNone(refs: seq<Ref>, explicits: seq<Ref>)
    requires forall e <- explicits :: IndexOf(refs, KeyOf(e)).Some?
    ensures Fresh(refs, explicits) == []
  {
    if explicits != [] {
      var n := |explicits| - 1;
      assert explicits[n] in explicits;
      FreshNone(refs, explicits[..n]);
    }
  }

  // Overlaying a second time changes an entry only if it is a fresh explicit
  // reference that repeats a topic.
  lemma SecondOverlay(refs: seq<Ref>, es: seq<Ref>, out: seq<Ref>, again: seq<Ref>, i: nat)
    requires Unique(refs) && Unique(es) && IsOverlay(refs, es, out) && IsOverlay(out, es, again)
    requires i < |out|
    ensures again[i] == Overlaid(out[i], es)
    ensures again[i] == out[i] <==> (i >= |refs| ==> DistinctTopics(out[i]))
  {
    if i < |refs| {
      OverlaidKey(refs[i], es);
      match IndexOf(es, KeyOf(refs[i]))
      case None =>
      case Some(j) => OverlayTwice(refs[i], es[j]);
    } else {
      assert out[i] == out[|refs|..][i - |refs|];
      FreshMembers(refs, es);
      var j :| 0 <= j < |es| && es[j] == out[i];
      IndexIs(es, j);
      OverlayTwice(out[i], es[j]);
    }
  }

  // Resolving the result again with the same explicit references changes
  // nothing if and only if no merged explicit reference to a base outside the
  // task repeats a topic.
  lemma ResolveAgainIff(task: seq<Ref>, explicit: seq<Ref>)
    ensures var first := Resolve(task, explicit);
            Resolve(first.refs, explicit) == first <==>
            forall e <- Merge(explicit) :: KeyOf(e) in Keys(task, KeyOf) || DistinctTopics(e)
  {
    var refs, es := Merge(task), Merge(explicit);
    MergeMeaning(task);
    AddRefsUnique([], explicit);
    OverlayAllIs(refs, es);
    var out := OverlayAll(refs, es);
    MergeFixed(out);
    OverlayAllIs(out, es);
    var again := OverlayAll(out, es);
    forall e | e in es
      ensures IndexOf(out, KeyOf(e)).Some?
    {
      ExplicitScope(refs, es, out, e);
    }
    FreshNone(out, es);
    hide Merge, OverlayAll, Means;
    SameAgainIff(refs, es, out, again);
    forall e | e in es
      ensures KeyOf(e) in Keys(task, KeyOf) <==> IndexOf(refs, KeyOf(e)).Some?
    {
      KeyKnown(refs, KeyOf(e));
    }
  }

  lemma KeyKnown(refs: seq<Ref>, key: Key)
    ensures key in Keys(refs, KeyOf) <==> IndexOf(refs, key).Some?
  {
    if IndexOf(refs, key).Some? {
      assert refs[IndexOf(refs, key).value] in refs;
    }
  }

  lemma SameAgainIff(refs: seq<Ref>, es: seq<Ref>, out: seq<Ref>, again: seq<Ref>)
    requires Unique(refs) && Unique(es) && IsOverlay(refs, es, out) && IsOverlay(out, es, again)
    requires Fresh(out, es) == []
    ensures again == out <==> forall e <- es :: IndexOf(refs, KeyOf(e)).Some? || DistinctTopics(e)
  {
    assert again[|out|..] == [];
    forall i | 0 <= i < |out|
      ensures again[i] == out[i] <==> (i >= |refs| ==> DistinctTopics(out[i]))
    {
      SecondOverlay(refs, es, out, again, i);
    }
    FreshMembers(refs, es);
    var added := out[|refs|..];
    hide IsOverlay, DistinctTopics, Unique, Fresh;
    SameWhenAdded(out, again, |refs|);
    assert forall e :: e in added <==> e in es && IndexOf(refs, KeyOf(e)).None?;
  }

  lemma SameWhenAdded(out: seq<Ref>, again: seq<Ref>, start: nat)
    requires start <= |out| <= |again| && again[|out|..] == []
    requires forall i :: 0 <= i < |out| ==> (again[i] == out[i] <==> (i >= start ==> DistinctTopics(out[i])))
    ensures again == out <==> forall e <- out[start..] :: DistinctTopics(e)
  {
    hide DistinctTopics;
    assert |again| == |out|;
    assert forall i :: start <= i < |out| ==> out[i] == out[start..][i - start];
    if again == out {
      forall e | e in out[start..]
        ensures DistinctTopics(e)
      {
        var k :| 0 <= k < |out[start..]| && out[start..][k] == e;
        assert out[start + k] == e;
      }
    } else {
      var i :| 0 <= i < |out| && again[i] != out[i];
      assert out[i] in out[start..];
    }
  }

  lemma CombineTopics(a: Ref, b: Ref)
    requires DistinctTopics(a) && DistinctTopics(b)
    ensures DistinctTopics(Combine(a, b))
  {
    AbsorbDistinct([], a.topics + b.topics, TopicOf);
  }

  lemma {:induction false} MergeTopicsDistinct(refs: seq<Ref>)
    requires forall ref <- refs :: DistinctTopics(ref)
    ensures forall ref <- Merge(refs) :: DistinctTopics(ref)
  {
    if refs != [] {
      var n := |refs| - 1;
      var before := Merge(refs[..n]);
      MergeTopicsDistinct(refs[..n]);
      assert refs[n] in refs;
      var index := IndexOf(before, KeyOf(refs[n]));
      if index.Some? {
        assert before[index.value] in before;
        CombineTopics(before[index.value], refs[n]);
      }
      hide Combine, DistinctTopics;
    }
  }

  // In particular when no explicit reference repeats a topic.
  lemma ResolveAgain(task: seq<Ref>, explicit: seq<Ref>)
    requires forall e <- explicit :: DistinctTopics(e)
    ensures Resolve(Resolve(task, explicit).refs, explicit) == Resolve(task, explicit)
  {
    MergeTopicsDistinct(explicit);
    ResolveAgainIff(task, explicit);
  }
}
