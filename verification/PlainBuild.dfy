// What a published plugin archive is, entry by entry and member by member, and
// what a declaration says.
module PlainBuild {
  import opened Wrappers
  import opened JsonValues
  import opened PosixPaths
  import opened PluginBuild

  /* ---------- The declaration ---------- */

  ghost predicate GoodOutput(output: string) {
    && IsRelative(output)
    && output[0] != '.'
    && output != "scripts" && output != "skills" && output != "assets"
  }

  // The decoded text declares this entrypoint and these outputs.
  ghost predicate Declares(value: Json, names: set<string>, declared: Declared) {
    && value.Obj?
    && value.fields.Keys == {"schemaVersion", "entrypoint", "outputs"}
    && value.fields["schemaVersion"] == Int(1)
    && value.fields["entrypoint"] == Str(declared.entrypoint)
    && IsRelative(declared.entrypoint) && declared.entrypoint in names
    && ".wework-build/" <= declared.entrypoint
    && declared.entrypoint[|declared.entrypoint| - 3..] == ".py"
    && value.fields["outputs"].Arr?
    && var items := value.fields["outputs"].items;
    && 1 <= |items| <= 16 && |declared.outputs| == |items|
    && (forall i :: 0 <= i < |items| ==> items[i] == Str(declared.outputs[i]) && GoodOutput(declared.outputs[i]))
    && (forall i, j :: 0 <= i < |items| && 0 <= j < |items| && i != j ==>
          declared.outputs[i] != declared.outputs[j] && !(declared.outputs[j] + "/" <= declared.outputs[i]))
  }

  lemma OutputIff(value: Json, output: string)
    ensures CheckOutput(value) == Ok(output) <==> value == Str(output) && GoodOutput(output)
  {
    hide Normalized;
    if value.Str? && value.s == output && IsRelative(output) {
      FirstCharacter(output);
    }
  }

  lemma FirstCharacter(path: string)
    requires IsRelative(path)
    ensures Components(path) != [] && ("." <= Components(path)[0] <==> path[0] == '.')
  {
    RelativeIff(path);
    ComponentsJoin(path);
    PathEnds(path);
    hide IsRelative;
    var parts := Components(path);
    assert path == "." || Significant(parts[0]);
    assert |parts| > 1 ==> path == parts[0] + "/" + Join(parts[1..]);
    assert parts[0] != "" && path[0] == parts[0][0];
  }

  lemma {:induction false} OutputsIff(values: seq<Json>, n: nat, outputs: seq<string>)
    requires n <= |values|
    ensures CheckOutputs(values, n) == Ok(outputs) <==>
            |outputs| == n && forall i :: 0 <= i < n ==> CheckOutput(values[i]) == Ok(outputs[i])
  {
    hide CheckOutput;
    if n > 0 {
      if |outputs| == n {
        OutputsIff(values, n - 1, outputs[..n - 1]);
        assert outputs == outputs[..n - 1] + [outputs[n - 1]];
      }
      if CheckOutputs(values, n - 1).Ok? {
        OutputsIff(values, n - 1, CheckOutputs(values, n - 1).value);
      }
    }
  }

  lemma CheckedIff(value: Json, names: set<string>, declared: Declared)
    ensures CheckDeclaration(value, names) == Ok(declared) <==> Declares(value, names, declared)
  {
    hide IsRelative, CheckOutputs, CheckOutput, GoodOutput;
    if value.Obj? && "outputs" in value.fields && value.fields["outputs"].Arr? {
      var items := value.fields["outputs"].items;
      OutputsIff(items, |items|, declared.outputs);
      forall i | 0 <= i < |items| && |declared.outputs| == |items|
        ensures CheckOutput(items[i]) == Ok(declared.outputs[i]) <==>
                items[i] == Str(declared.outputs[i]) && GoodOutput(declared.outputs[i])
      {
        OutputIff(items[i], declared.outputs[i]);
      }
    }
    EntrypointIff(declared.entrypoint, names);
    hide GoodEntrypoint, PrefixFree;
    assert PrefixFree(declared.outputs) <==>
           forall i, j :: 0 <= i < |declared.outputs| && 0 <= j < |declared.outputs| && i != j ==>
             declared.outputs[i] != declared.outputs[j] && !(declared.outputs[j] + "/" <= declared.outputs[i]) by {
      PrefixFreeIff(declared.outputs);
    }
  }

  lemma EntrypointIff(entry: string, names: set<string>)
    ensures GoodEntrypoint(entry, names) <==>
            ".wework-build/" <= entry && entry[|entry| - 3..] == ".py" && entry in names
  {
  }

  lemma PrefixFreeIff(outputs: seq<string>)
    ensures PrefixFree(outputs) <==>
            forall i, j :: 0 <= i < |outputs| && 0 <= j < |outputs| && i != j ==>
              outputs[i] != outputs[j] && !(outputs[j] + "/" <= outputs[i])
  {
  }

  // A tree declares a build exactly through a decodable file of at most 16384
  // bytes at the fixed place that says so.
  lemma DeclarationIff(files: Tree, decode: Decoder, declared: Declared)
    ensures Declaration(files, decode) == Ok(None) <==> ".wework-build.json" !in files
    ensures Declaration(files, decode) == Ok(Some(declared)) <==>
            && ".wework-build.json" in files
            && var raw := files[".wework-build.json"].data;
            && |raw| <= 16384 && decode(raw).Some? && Declares(decode(raw).value, files.Keys, declared)
  {
    hide CheckDeclaration, Declares;
    if ".wework-build.json" in files && decode(files[".wework-build.json"].data).Some? {
      CheckedIff(decode(files[".wework-build.json"].data).value, files.Keys, declared);
    }
  }

  /* ---------- Published archives ---------- */

  // The member is the entry's file, with its bytes and its execute bit.
  ghost predicate IsFileOf(m: Member, e: Entry) {
    m.filename == Join(e.parts) && e.kind.Regular? && m.data == e.kind.data && m.executable == e.kind.executable
  }

  ghost predicate AtOrUnder(path: string, output: string) {
    path == output || output + "/" <= path
  }

  // Every reviewed file is a member, unchanged; every other member is at or
  // under one declared output; and every output has something under it.
  ghost predicate MembersFaithful(entries: seq<Entry>, outputs: seq<string>, members: seq<Member>) {
    && (forall e <- entries | Counted(e) :: exists m <- members :: IsFileOf(m, e))
    && (forall e <- entries, m <- members | Counted(e) && m.filename == Join(e.parts) :: IsFileOf(m, e))
    && (forall e <- entries, output <- outputs | Counted(e) :: !AtOrUnder(Join(e.parts), output))
    && (forall m <- members ::
          (exists e <- entries :: Counted(e) && m.filename == Join(e.parts))
          || (exists output <- outputs :: AtOrUnder(m.filename, output)))
    && (forall output <- outputs :: exists m <- members :: output + "/" <= m.filename)
  }

  lemma FileOfEntry(files: Tree, entries: seq<Entry>, e: Entry)
    requires HoldsEntries(files, entries, |entries|) && e in entries && Counted(e)
    ensures Join(e.parts) in files
    ensures files[Join(e.parts)] == File(e.kind.data, if e.kind.executable then 0x1ed else 0x1a4)
  {
    hide Counted, Join;
    var i :| 0 <= i < |entries| && entries[i] == e;
  }

  lemma FileOfMember(files: Tree, members: seq<Member>, m: Member)
    requires HoldsMembers(files, members, |members|) && m in members
    ensures m.filename in files
    ensures files[m.filename] == File(m.data, if m.executable then 0x1ed else 0x1a4)
  {
    var i :| 0 <= i < |members| && members[i] == m;
  }

  lemma MemberOfFile(files: Tree, members: seq<Member>, path: string) returns (m: Member)
    requires HoldsMembers(files, members, |members|) && path in files
    ensures m in members && m.filename == path
  {
    var i :| 0 <= i < |members| && members[i].filename == path;
    m := members[i];
  }

  lemma EntryOfFile(files: Tree, entries: seq<Entry>, path: string) returns (e: Entry)
    requires HoldsEntries(files, entries, |entries|) && path in files
    ensures e in entries && Counted(e) && Join(e.parts) == path
  {
    hide Counted, Join;
    var i :| 0 <= i < |entries| && Counted(entries[i]) && Join(entries[i].parts) == path;
    e := entries[i];
  }

  // The archive of a successful build holds the reviewed files byte for byte
  // and bit for bit, and nothing else outside what it was declared to generate.
  lemma PublishedMembers(entries: seq<Entry>, decode: Decoder, candidate: Option<Zip>, zip: Zip)
    returns (declared: Declared)
    requires DistinctPaths(entries) && Build(entries, decode, candidate) == Ok(Some(zip))
    ensures candidate == Some(zip)
    ensures Source(entries).Ok? && Declaration(Source(entries).value, decode) == Ok(Some(declared))
    ensures MembersFaithful(entries, declared.outputs, zip.members)
  {
    hide DistinctPaths, Build, Declaration, MembersFaithful, PrefixFree, Join, Counted, HoldsEntries, HoldsMembers,
      Bounded, Covered, Populated;
    declared := PublishedArchive(entries, decode, candidate, zip);
    SourceLaw(entries);
    ArchiveLaw(zip);
    hide Source, ArchiveTree;
    var original, built := Source(entries).value, ArchiveTree(zip).value;
    assert forall path <- original :: !Covered(path, declared.outputs);
    FilesFaithful(entries, original, declared.outputs, zip.members, built);
  }

  lemma FilesFaithful(
    entries: seq<Entry>, original: Tree, outputs: seq<string>, members: seq<Member>, built: Tree)
    requires HoldsEntries(original, entries, |entries|) && HoldsMembers(built, members, |members|)
    requires forall path <- original :: path in built && built[path] == original[path]
    requires forall path <- original :: !Covered(path, outputs)
    requires forall path <- built :: path in original || Covered(path, outputs)
    requires forall output <- outputs :: Populated(built, output)
    ensures MembersFaithful(entries, outputs, members)
  {
    hide HoldsEntries, HoldsMembers, Counted, Join, Covered, Populated;
    forall e, m | e in entries && m in members && Counted(e) && m.filename == Join(e.parts)
      ensures IsFileOf(m, e)
    {
      SameFile(entries, original, members, built, e, m);
    }
    forall e | e in entries && Counted(e)
      ensures exists m <- members :: IsFileOf(m, e)
      ensures forall output <- outputs :: !AtOrUnder(Join(e.parts), output)
    {
      FileOfEntry(original, entries, e);
      var m := MemberOfFile(built, members, Join(e.parts));
      CoveredIff(Join(e.parts), outputs);
    }
    forall m | m in members
      ensures (exists e <- entries :: Counted(e) && m.filename == Join(e.parts))
              || (exists output <- outputs :: AtOrUnder(m.filename, output))
    {
      FileOfMember(built, members, m);
      CoveredIff(m.filename, outputs);
      if m.filename in original {
        var e := EntryOfFile(original, entries, m.filename);
      }
    }
    forall output | output in outputs
      ensures exists m <- members :: output + "/" <= m.filename
    {
      var path := SomethingIn(built, output);
      var m := MemberOfFile(built, members, path);
    }
  }

  lemma CoveredIff(path: string, outputs: seq<string>)
    ensures Covered(path, outputs) <==> exists output <- outputs :: AtOrUnder(path, output)
  {
    assert forall output :: Under(path, output) <==> AtOrUnder(path, output);
  }

  lemma SomethingIn(files: Tree, output: string) returns (path: string)
    requires Populated(files, output)
    ensures path in files && output + "/" <= path
  {
    path :| path in files && output + "/" <= path;
  }

  lemma SameFile(
    entries: seq<Entry>, original: Tree, members: seq<Member>, built: Tree, e: Entry, m: Member)
    requires HoldsEntries(original, entries, |entries|) && HoldsMembers(built, members, |members|)
    requires forall path <- original :: path in built && built[path] == original[path]
    requires e in entries && Counted(e) && m in members && m.filename == Join(e.parts)
    ensures IsFileOf(m, e)
  {
    FileOfEntry(original, entries, e);
    FileOfMember(built, members, m);
    hide HoldsEntries, HoldsMembers, Join;
  }

  lemma FaithfulFiles(
    entries: seq<Entry>, original: Tree, outputs: seq<string>, members: seq<Member>, built: Tree)
    requires HoldsEntries(original, entries, |entries|) && HoldsMembers(built, members, |members|)
    requires MembersFaithful(entries, outputs, members)
    ensures forall path <- original :: path in built && built[path] == original[path]
    ensures forall path <- original :: !Covered(path, outputs)
    ensures forall path <- built :: path in original || Covered(path, outputs)
    ensures forall output <- outputs :: Populated(built, output)
  {
    hide HoldsEntries, HoldsMembers, Counted, Join, Covered, Populated;
    forall path | path in original
      ensures path in built && built[path] == original[path] && !Covered(path, outputs)
    {
      var e := EntryOfFile(original, entries, path);
      FileOfEntry(original, entries, e);
      var m :| m in members && IsFileOf(m, e);
      FileOfMember(built, members, m);
      CoveredIff(path, outputs);
    }
    forall path | path in built
      ensures path in original || Covered(path, outputs)
    {
      var m := MemberOfFile(built, members, path);
      CoveredIff(path, outputs);
      if e :| e in entries && Counted(e) && path == Join(e.parts) {
        FileOfEntry(original, entries, e);
      }
    }
    forall output | output in outputs
      ensures Populated(built, output)
    {
      var m :| m in members && output + "/" <= m.filename;
      FileOfMember(built, members, m);
      FileUnder(built, output, m.filename);
    }
  }

  lemma FileUnder(files: Tree, output: string, path: string)
    requires path in files && output + "/" <= path
    ensures Populated(files, output)
  {
  }

  // A build publishes an archive exactly if the source tree is readable and
  // declares outputs, and the archive is readable and faithful.
  lemma PublishedIff(entries: seq<Entry>, decode: Decoder, candidate: Option<Zip>, zip: Zip)
    requires DistinctPaths(entries)
    ensures Build(entries, decode, candidate) == Ok(Some(zip)) <==>
            && candidate == Some(zip)
            && Readable(entries, |entries|)
            && !zip.symlink && zip.regular && zip.size <= 52428800 && Bounded(zip.members, |zip.members|)
            && exists declared: Declared ::
                 && Source(entries).Ok? && Declaration(Source(entries).value, decode) == Ok(Some(declared))
                 && MembersFaithful(entries, declared.outputs, zip.members)
    ensures Build(entries, decode, candidate) == Ok(None) <==>
            Source(entries).Ok? && ".wework-build.json" !in Source(entries).value
  {
    NothingToBuild(entries, decode, candidate);
    hide DistinctPaths, Build, Declaration, MembersFaithful, Readable, Bounded, HoldsEntries, HoldsMembers, Source,
      ArchiveTree, Reviewed, Faithful;
    SourceLaw(entries);
    ArchiveLaw(zip);
    if Build(entries, decode, candidate) == Ok(Some(zip)) {
      BuildSucceedsIff(entries, decode, candidate, zip);
      var declared := PublishedMembers(entries, decode, candidate, zip);
    } else if Source(entries).Ok? && ArchiveTree(zip).Ok? && candidate == Some(zip) {
      var original, built := Source(entries).value, ArchiveTree(zip).value;
      forall declared: Declared | Declaration(original, decode) == Ok(Some(declared))
        ensures !MembersFaithful(entries, declared.outputs, zip.members)
      {
        if MembersFaithful(entries, declared.outputs, zip.members) {
          FaithfulFiles(entries, original, declared.outputs, zip.members, built);
          FaithfulReviewed(original, decode, declared, built);
          BuildSucceedsIff(entries, decode, candidate, zip);
        }
      }
    }
  }

  lemma NothingToBuild(entries: seq<Entry>, decode: Decoder, candidate: Option<Zip>)
    ensures Build(entries, decode, candidate) == Ok(None) <==>
            Source(entries).Ok? && ".wework-build.json" !in Source(entries).value
  {
    hide Source, SourcePaths, ArchiveTree, CheckDeclaration;
  }

  lemma FaithfulReviewed(original: Tree, decode: Decoder, declared: Declared, built: Tree)
    requires Declaration(original, decode) == Ok(Some(declared))
    requires forall path <- original :: path in built && built[path] == original[path]
    requires forall path <- original :: !Covered(path, declared.outputs)
    requires forall path <- built :: path in original || Covered(path, declared.outputs)
    requires forall output <- declared.outputs :: Populated(built, output)
    ensures Reviewed(original, decode, declared) && Faithful(original, declared, built)
  {
    hide Declaration, Covered, Populated;
  }
}
