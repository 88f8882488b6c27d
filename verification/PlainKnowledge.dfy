// What merged and resolved knowledge references are, with the fields that tell
// bases, resources and topics apart written out.
module PlainKnowledge {
  import opened Wrappers
  import opened Sequences
  import opened OrderedSets
  import opened SelectedKnowledge
  import opened MergeReference
  import opened KnowledgeOverride

  ghost predicate SameBase(a: Ref, b: Ref) {
    a.provider == b.provider && a.knowledgeBaseId == b.knowledgeBaseId
  }

  // No two references are to the same base.
  ghost predicate OnePerBase(refs: seq<Ref>) {
    forall i, j :: 0 <= i < j < |refs| ==> !SameBase(refs[i], refs[j])
  }

  // The references of `a` are to bases that `b` has references to.
  ghost predicate BasesWithin(a: seq<Ref>, b: seq<Ref>) {
    forall x <- a :: exists y <- b :: SameBase(x, y)
  }

  ghost predicate Selects(ref: Ref, scopeType: string, resourceId: Option<string>) {
    exists resource <- ref.resources :: resource.scopeType == scopeType && resource.resourceId == resourceId
  }

  ghost predicate SomeSelects(refs: seq<Ref>, e: Ref, scopeType: string, resourceId: Option<string>) {
    exists ref <- refs :: SameBase(ref, e) && Selects(ref, scopeType, resourceId)
  }

  ghost predicate SomeTopic(refs: seq<Ref>, e: Ref, topic: string) {
    exists ref <- refs :: SameBase(ref, e) && topic in ref.topics
  }

  ghost predicate Repeated(refs: seq<Ref>, e: Ref) {
    exists i, j :: 0 <= i < j < |refs| && SameBase(refs[i], e) && SameBase(refs[j], e)
  }

  // Nothing is selected twice and no topic stands twice.
  ghost predicate WithoutRepeats(e: Ref) {
    && (forall i, j :: 0 <= i < j < |e.resources| ==>
          || e.resources[i].scopeType != e.resources[j].scopeType
          || e.resources[i].resourceId != e.resources[j].resourceId)
    && (forall i, j :: 0 <= i < j < |e.topics| ==> e.topics[i] != e.topics[j])
  }

  // The entry is the whole base if some reference to it is, and then one of
  // these; otherwise it selects what any of them selects, under their topics.
  ghost predicate StandsFor(e: Ref, refs: seq<Ref>) {
    && (e.resources == [] <==> exists ref <- refs :: SameBase(ref, e) && ref.resources == [])
    && (e.resources == [] || !Repeated(refs, e) ==> e in refs)
    && (e.resources != [] ==>
          && (forall scopeType, resourceId ::
                Selects(e, scopeType, resourceId) <==> SomeSelects(refs, e, scopeType, resourceId))
          && (forall topic :: topic in e.topics <==> SomeTopic(refs, e, topic))
          && (Repeated(refs, e) ==> WithoutRepeats(e)))
  }

  lemma KeyIsBase(a: Ref, b: Ref)
    ensures KeyOf(a) == KeyOf(b) <==> SameBase(a, b)
  {
  }

  lemma GroupMembers(refs: seq<Ref>, e: Ref)
    ensures forall ref :: ref in Group(refs, KeyOf(e)) <==> ref in refs && SameBase(ref, e)
  {
    FilterMembers(refs, WithKey(KeyOf(e)));
    assert forall ref :: WithKey(KeyOf(e))(ref) <==> SameBase(ref, e);
  }

  lemma {:induction false} GroupRepeats(refs: seq<Ref>, e: Ref)
    ensures |Group(refs, KeyOf(e))| >= 2 <==> Repeated(refs, e)
  {
    if refs != [] {
      var n := |refs| - 1;
      GroupRepeats(refs[..n], e);
      GroupMembers(refs[..n], e);
      assert refs == refs[..n] + [refs[n]];
      GroupStep(refs[..n], refs[n], KeyOf(e));
      hide Group, KeyOf, SameBase;
      KeyIsBase(refs[n], e);
      RepeatedStep(refs[..n], refs[n], e);
      assert Group(refs[..n], KeyOf(e)) != [] <==> exists ref <- refs[..n] :: SameBase(ref, e) by {
        if Group(refs[..n], KeyOf(e)) != [] {
          assert Group(refs[..n], KeyOf(e))[0] in refs[..n];
        }
      }
    }
  }

  lemma RepeatedStep(refs: seq<Ref>, last: Ref, e: Ref)
    ensures Repeated(refs + [last], e) <==>
            Repeated(refs, e) || (SameBase(last, e) && exists ref <- refs :: SameBase(ref, e))
  {
    hide SameBase;
    var all := refs + [last];
    assert all[|refs|] == last;
    if ref :| ref in refs && SameBase(ref, e) && SameBase(last, e) {
      var i :| 0 <= i < |refs| && refs[i] == ref;
      assert all[i] == ref;
    }
    if Repeated(refs, e) {
      var i, j :| 0 <= i < j < |refs| && SameBase(refs[i], e) && SameBase(refs[j], e);
      assert all[i] == refs[i] && all[j] == refs[j];
    }
  }

  lemma {:induction false} AllMembers(group: seq<Ref>)
    ensures forall resource :: resource in AllResources(group) <==> exists ref <- group :: resource in ref.resources
    ensures forall topic :: topic in AllTopics(group) <==> exists ref <- group :: topic in ref.topics
  {
    if group != [] {
      AllMembers(group[1..]);
      assert forall ref :: ref in group <==> ref == group[0] || ref in group[1..];
    }
  }

  lemma {:induction false} FirstWholeIs(group: seq<Ref>)
    ensures FirstWhole(group).None? <==> forall ref <- group :: ref.resources != []
    ensures FirstWhole(group).Some? ==> FirstWhole(group).value in group && FirstWhole(group).value.resources == []
  {
    if group != [] {
      FirstWholeIs(group[1..]);
    }
  }

  // What a group of several references without a whole base amounts to.
  lemma JointSelects(group: seq<Ref>)
    requires |group| >= 2 && forall ref <- group :: ref.resources != []
    ensures var e := Joint(group);
            && e.resources != []
            && (forall scopeType, resourceId ::
                  Selects(e, scopeType, resourceId) <==>
                  exists ref <- group :: Selects(ref, scopeType, resourceId))
            && (forall topic :: topic in e.topics <==> exists ref <- group :: topic in ref.topics)
            && WithoutRepeats(e)
  {
    hide Dedup, Selects;
    FirstWholeIs(group);
    AllMembers(group);
    AllResourcesNonempty(group);
    var e := Joint(group);
    var all := AllResources(group);
    DedupScopes(all);
    DedupTopics(AllTopics(group));
    forall scopeType, resourceId
      ensures Selects(e, scopeType, resourceId) <==> exists ref <- group :: Selects(ref, scopeType, resourceId)
    {
      SelectsOfAll(group, all, scopeType, resourceId);
      SameSelection(e, all, scopeType, resourceId);
    }
  }

  ghost predicate Has(resources: seq<Resource>, scopeType: string, resourceId: Option<string>) {
    exists resource <- resources :: resource.scopeType == scopeType && resource.resourceId == resourceId
  }

  lemma SelectsOfAll(group: seq<Ref>, all: seq<Resource>, scopeType: string, resourceId: Option<string>)
    requires forall resource :: resource in all <==> exists ref <- group :: resource in ref.resources
    ensures Has(all, scopeType, resourceId) <==> exists ref <- group :: Selects(ref, scopeType, resourceId)
  {
  }

  lemma SameSelection(e: Ref, all: seq<Resource>, scopeType: string, resourceId: Option<string>)
    requires Has(e.resources, scopeType, resourceId) <==> Has(all, scopeType, resourceId)
    ensures Selects(e, scopeType, resourceId) <==> Has(all, scopeType, resourceId)
  {
  }

  lemma DedupScopes(all: seq<Resource>)
    ensures var kept := Dedup(all, ScopeOf);
            && (forall i, j :: 0 <= i < j < |kept| ==>
                  kept[i].scopeType != kept[j].scopeType || kept[i].resourceId != kept[j].resourceId)
            && (forall scopeType, resourceId :: Has(kept, scopeType, resourceId) <==> Has(all, scopeType, resourceId))
  {
    hide Absorb;
    var kept := Dedup(all, ScopeOf);
    AbsorbDistinct([], all, ScopeOf);
    AbsorbKeys([], all, ScopeOf);
    hide Dedup;
    forall scopeType, resourceId
      ensures Has(kept, scopeType, resourceId) <==> Has(all, scopeType, resourceId)
    {
      HasKey(kept, scopeType, resourceId);
      HasKey(all, scopeType, resourceId);
    }
  }

  lemma HasKey(resources: seq<Resource>, scopeType: string, resourceId: Option<string>)
    ensures Has(resources, scopeType, resourceId) <==> (scopeType, resourceId) in Keys(resources, ScopeOf)
  {
    if (scopeType, resourceId) in Keys(resources, ScopeOf) {
      var resource :| resource in resources && ScopeOf(resource) == (scopeType, resourceId);
    }
    if resource :| resource in resources && resource.scopeType == scopeType && resource.resourceId == resourceId {
      assert ScopeOf(resource) == (scopeType, resourceId);
    }
  }

  lemma DedupTopics(all: seq<string>)
    ensures var kept := Dedup(all, TopicOf);
            && (forall i, j :: 0 <= i < j < |kept| ==> kept[i] != kept[j])
            && (forall topic :: topic in kept <==> topic in all)
  {
    hide Absorb;
    var kept := Dedup(all, TopicOf);
    AbsorbDistinct([], all, TopicOf);
    AbsorbKeys([], all, TopicOf);
    hide Dedup;
    assert forall topic :: topic in kept <==> topic in Keys(kept, TopicOf);
    assert forall topic :: topic in all <==> topic in Keys(all, TopicOf);
  }

  lemma EntryStandsFor(refs: seq<Ref>, e: Ref)
    requires IsJoint(e, refs)
    ensures StandsFor(e, refs) && exists ref <- refs :: SameBase(ref, e)
  {
    var group := Group(refs, KeyOf(e));
    GroupMembers(refs, e);
    GroupRepeats(refs, e);
    FirstWholeIs(group);
    assert group[0] in group;
    hide Group, SameBase, Repeated, Selects, WithoutRepeats, KeyOf, IsJoint;
    if FirstWhole(group).None? {
      if |group| >= 2 {
        JointSelects(group);
        assert e.resources != [];
      } else {
        assert group == [group[0]] && e == group[0];
      }
    }
  }

  // Merging gives one entry per base that occurs, and each stands for all the
  // references to its base.
  lemma MergedBases(refs: seq<Ref>)
    ensures OnePerBase(Merge(refs))
    ensures BasesWithin(Merge(refs), refs) && BasesWithin(refs, Merge(refs))
    ensures forall e <- Merge(refs) :: StandsFor(e, refs)
  {
    MergeDescribes(refs);
    MergeMeaning(refs);
    hide StandsFor, Merge, IsJoint, Means;
    var out := Merge(refs);
    forall e | e in out
      ensures StandsFor(e, refs) && exists ref <- refs :: SameBase(e, ref)
    {
      var i :| 0 <= i < |out| && out[i] == e;
      EntryStandsFor(refs, e);
    }
    forall ref | ref in refs
      ensures exists e <- out :: SameBase(ref, e)
    {
      assert KeyOf(ref) in Keys(refs, KeyOf);
      var e :| e in out && KeyOf(e) == KeyOf(ref);
      KeyIsBase(ref, e);
    }
    UniqueBases(out);
  }

  lemma UniqueBases(refs: seq<Ref>)
    requires Unique(refs)
    ensures OnePerBase(refs)
  {
    forall i, j | 0 <= i < j < |refs|
      ensures !SameBase(refs[i], refs[j])
    {
      KeyIsBase(refs[i], refs[j]);
    }
  }

  // An explicitly selected base has exactly its merged explicit scope; any other
  // entry is the task's, untouched.
  ghost predicate Overridden(o: Ref, task: seq<Ref>, explicit: seq<Ref>) {
    if exists e <- explicit :: SameBase(e, o)
    then exists e <- Merge(explicit) :: SameBase(e, o) && o.resources == e.resources
    else o in Merge(task)
  }

  // Resolving gives one entry per base of either input, each overridden where it
  // is explicitly selected.
  lemma ResolvedBases(task: seq<Ref>, explicit: seq<Ref>)
    ensures var out := Resolve(task, explicit).refs;
            && OnePerBase(out)
            && BasesWithin(out, task + explicit) && BasesWithin(task + explicit, out)
            && forall o <- out :: Overridden(o, task, explicit)
  {
    hide Merge, OverlayAll, IsOverlay, Resolve, OnePerBase, SameBase, BasesWithin, StandsFor, Overridden;
    var out := Resolve(task, explicit).refs;
    OverrideLaw(task, explicit);
    MergedBases(task);
    MergedBases(explicit);
    OverlayUnique(Merge(task), Merge(explicit), out);
    OverlayFrom(task, explicit, out);
    OverlayHas(task, explicit, out);
  }

  lemma OverlayFrom(task: seq<Ref>, explicit: seq<Ref>, out: seq<Ref>)
    requires IsOverlay(Merge(task), Merge(explicit), out)
    requires BasesWithin(Merge(task), task)
    requires BasesWithin(Merge(explicit), explicit) && BasesWithin(explicit, Merge(explicit))
    ensures BasesWithin(out, task + explicit)
    ensures forall o <- out :: Overridden(o, task, explicit)
  {
    hide Merge, IsOverlay, SameBase;
    forall o | o in out
      ensures exists ref <- task + explicit :: SameBase(o, ref)
      ensures Overridden(o, task, explicit)
    {
      hide BasesWithin;
      OverlayEntry(Merge(task), Merge(explicit), out, o);
      BaseInInputs(Merge(task), Merge(explicit), task, explicit, o);
      SameBases(explicit, Merge(explicit), o);
    }
  }

  lemma OverlayHas(task: seq<Ref>, explicit: seq<Ref>, out: seq<Ref>)
    requires IsOverlay(Merge(task), Merge(explicit), out)
    requires BasesWithin(task, Merge(task)) && BasesWithin(explicit, Merge(explicit))
    requires forall e <- Merge(explicit) ::
               exists i :: 0 <= i < |out| && KeyOf(out[i]) == KeyOf(e) && out[i].resources == e.resources
    ensures BasesWithin(task + explicit, out)
  {
    hide Merge, IsOverlay, SameBase;
    forall ref | ref in task + explicit
      ensures exists o <- out :: SameBase(ref, o)
    {
      if ref in task {
        var t :| t in Merge(task) && SameBase(ref, t);
        var o := OverlayKeeps(Merge(task), Merge(explicit), out, t);
        SameBaseTransitive(ref, t, o);
      } else {
        var e :| e in Merge(explicit) && SameBase(ref, e);
        var i :| 0 <= i < |out| && KeyOf(out[i]) == KeyOf(e) && out[i].resources == e.resources;
        KeyIsBase(e, out[i]);
        SameBaseTransitive(ref, e, out[i]);
        assert out[i] in out;
      }
    }
  }

  lemma SameBaseTransitive(a: Ref, b: Ref, c: Ref)
    ensures SameBase(a, b) && SameBase(b, c) ==> SameBase(a, c)
    ensures SameBase(a, b) <==> SameBase(b, a)
  {
  }

  lemma OverlayUnique(refs: seq<Ref>, es: seq<Ref>, out: seq<Ref>)
    requires IsOverlay(refs, es, out)
    ensures OnePerBase(out)
  {
    hide Fresh, Overlaid, OnePerBase;
    UniqueBases(out);
  }

  // An entry of the overlay comes from the task, overlaid or not, or is a fresh
  // explicit one.
  lemma OverlayEntry(refs: seq<Ref>, es: seq<Ref>, out: seq<Ref>, o: Ref)
    requires IsOverlay(refs, es, out) && o in out
    ensures (o in refs && forall e <- es :: !SameBase(e, o))
            || (exists e <- es :: SameBase(e, o) && o.resources == e.resources)
  {
    hide Unique, OverlayRef;
    var k :| 0 <= k < |out| && out[k] == o;
    if k < |refs| {
      OverlaidCases(refs[k], es);
    } else {
      assert o == out[|refs|..][k - |refs|];
      FreshMembers(refs, es);
      KeyIsBase(o, o);
    }
  }

  lemma OverlaidCases(ref: Ref, es: seq<Ref>)
    ensures var o := Overlaid(ref, es);
            || (o == ref && forall e <- es :: !SameBase(e, o))
            || (exists e <- es :: SameBase(e, o) && o.resources == e.resources)
    ensures SameBase(ref, Overlaid(ref, es))
  {
    match IndexOf(es, KeyOf(ref))
    case None =>
      forall e | e in es
        ensures !SameBase(e, ref)
      {
        var i :| 0 <= i < |es| && es[i] == e;
        KeyIsBase(e, ref);
      }
    case Some(j) =>
      KeyIsBase(es[j], ref);
      assert es[j] in es;
  }

  lemma OverlayKeeps(refs: seq<Ref>, es: seq<Ref>, out: seq<Ref>, t: Ref) returns (o: Ref)
    requires IsOverlay(refs, es, out) && t in refs
    ensures o in out && SameBase(t, o)
  {
    hide Unique, OverlayRef, Fresh;
    var k :| 0 <= k < |refs| && refs[k] == t;
    o := out[k];
    OverlaidCases(t, es);
  }

  lemma BaseInInputs(refs: seq<Ref>, es: seq<Ref>, task: seq<Ref>, explicit: seq<Ref>, o: Ref)
    requires BasesWithin(refs, task) && BasesWithin(es, explicit)
    requires o in refs || exists e <- es :: SameBase(e, o)
    ensures exists ref <- task + explicit :: SameBase(o, ref)
  {
    hide SameBase;
    if o in refs {
      var x :| x in task && SameBase(o, x);
      assert x in task + explicit;
    } else {
      var e :| e in es && SameBase(e, o);
      var x :| x in explicit && SameBase(e, x);
      SameBaseTransitive(e, o, o);
      SameBaseTransitive(o, e, x);
      assert x in task + explicit;
    }
  }

  lemma SameBases(a: seq<Ref>, b: seq<Ref>, o: Ref)
    requires BasesWithin(a, b) && BasesWithin(b, a)
    ensures (exists x <- a :: SameBase(x, o)) <==> (exists x <- b :: SameBase(x, o))
  {
    hide BasesWithin, SameBase;
    BasesReach(a, b, o);
    BasesReach(b, a, o);
  }

  lemma BasesReach(a: seq<Ref>, b: seq<Ref>, o: Ref)
    requires BasesWithin(a, b)
    ensures (exists x <- a :: SameBase(x, o)) ==> (exists x <- b :: SameBase(x, o))
  {
    hide SameBase;
    if x :| x in a && SameBase(x, o) {
      var y :| y in b && SameBase(x, y);
      SameBaseTransitive(x, y, y);
      SameBaseTransitive(y, x, o);
    }
  }
}
