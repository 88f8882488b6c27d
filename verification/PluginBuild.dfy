// The declarative plugin build: contributor code turns a reviewed source tree
// into an archive, and a gate decides whether the archive may be published.
// The gate judges the archive by the declaration inside the archive itself.
module PluginBuild {
  import opened Wrappers
  import opened JsonValues
  import opened PosixPaths

  type Bytes = seq<bv8>

  // Contents and permission bits of one file.
  datatype File = File(data: Bytes, mode: int)

  type Tree = map<string, File>

  // Decoding JSON text, which may fail.
  type Decoder = Bytes -> Option<Json>

  datatype BuildError =
    | NotRelative
    | DeclarationTooLarge
    | UndecodableDeclaration
    | InvalidDeclaration
    | UnsupportedSchema
    | BadEntrypoint
    | BadOutputs
    | ProtectedOutput
    | OverlappingOutputs
    | OutputMissing
    | SymbolicLink
    | UnboundedSource
    | SourceTooLarge
    | BadArchive
    | BadMember
    | OutputsCheckedIn
    | BuildFailed
    | SourceChanged

  const DECLARATION := ".wework-build.json"
  const MAX_ARCHIVE := 50 * 1024 * 1024
  const MAX_EXPANDED := 200 * 1024 * 1024
  const MAX_FILES := 10000
  const MAX_DECLARATION := 16384
  const IGNORED := {".git", "__pycache__", ".pytest_cache", "node_modules", ".DS_Store"}

  predicate EndsWith(s: string, suffix: string) {
    |suffix| <= |s| && s[|s| - |suffix|..] == suffix
  }

  /* ---------- The declaration ---------- */

  datatype Declared = Declared(entrypoint: string, outputs: seq<string>)

  // `_relative` on a decoded value.
  function RelativeText(value: Json): Result<string, BuildError> {
    if value.Str? && IsRelative(value.s) then Ok(value.s) else Err(NotRelative)
  }

  function CheckOutput(value: Json): Result<string, BuildError> {
    match RelativeText(value)
    case Err(error) => Err(error)
    case Ok(output) =>
      if "." <= Components(output)[0] || output in {"scripts", "skills", "assets"}
      then Err(ProtectedOutput)
      else Ok(output)
  }

  // The first `n` declared outputs, or the first error among them.
  function CheckOutputs(values: seq<Json>, n: nat): Result<seq<string>, BuildError>
    requires n <= |values|
  {
    if n == 0 then Ok([])
    else match CheckOutputs(values, n - 1)
      case Err(error) => Err(error)
      case Ok(outputs) =>
        match CheckOutput(values[n - 1])
        case Err(error) => Err(error)
        case Ok(output) => Ok(outputs + [output])
  }

  // No output is another one or lies inside it.
  predicate PrefixFree(outputs: seq<string>) {
    forall i, j :: 0 <= i < |outputs| && 0 <= j < |outputs| && i != j ==>
      outputs[i] != outputs[j] && !(outputs[j] + "/" <= outputs[i])
  }

  // The checks on the outputs, in the order of the source.
  function DeclaredOutputs(value: Json): Result<seq<string>, BuildError> {
    if !value.Arr? || !(1 <= |value.items| <= 16) then Err(BadOutputs)
    else match CheckOutputs(value.items, |value.items|)
      case Err(error) => Err(error)
      case Ok(outputs) => if PrefixFree(outputs) then Ok(outputs) else Err(OverlappingOutputs)
  }

  predicate GoodEntrypoint(entry: string, names: set<string>) {
    ".wework-build/" <= entry && EndsWith(entry, ".py") && entry in names
  }

  // The checks on the decoded value; `names` are the files it comes with.
  function CheckDeclaration(value: Json, names: set<string>): Result<Declared, BuildError> {
    if !value.Obj? || value.fields.Keys != {"schemaVersion", "entrypoint", "outputs"} then
      Err(InvalidDeclaration)
    else if value.fields["schemaVersion"] != Int(1) then Err(UnsupportedSchema)
    else match RelativeText(value.fields["entrypoint"])
      case Err(error) => Err(error)
      case Ok(entry) =>
        if !GoodEntrypoint(entry, names) then Err(BadEntrypoint)
        else match DeclaredOutputs(value.fields["outputs"])
          case Err(error) => Err(error)
          case Ok(outputs) => Ok(Declared(entry, outputs))
  }

  function Declaration(files: Tree, decode: Decoder): Result<Option<Declared>, BuildError> {
    if DECLARATION !in files then Ok(None)
    else
      var raw := files[DECLARATION].data;
      if |raw| > MAX_DECLARATION then Err(DeclarationTooLarge)
      else match decode(raw)
        case None => Err(UndecodableDeclaration)
        case Some(value) =>
          match CheckDeclaration(value, files.Keys)
          case Err(error) => Err(error)
          case Ok(declared) => Ok(Some(declared))
  }

  /* ---------- Source paths ---------- */

  predicate Under(path: string, output: string) {
    path == output || output + "/" <= path
  }

  predicate Covered(path: string, outputs: seq<string>) {
    exists output <- outputs :: Under(path, output)
  }

  predicate Populated(files: Tree, output: string) {
    exists path <- files :: output + "/" <= path
  }

  function SourcePaths(files: Tree, decode: Decoder, requireOutputs: bool): Result<set<string>, BuildError> {
    match Declaration(files, decode)
    case Err(error) => Err(error)
    case Ok(None) => Ok(files.Keys)
    case Ok(Some(declared)) =>
      if requireOutputs && exists output <- declared.outputs :: !Populated(files, output) then Err(OutputMissing)
      else Ok(KeptPaths(files, declared.outputs))
  }

  function KeptPaths(files: Tree, outputs: seq<string>): set<string> {
    set path <- files | !Covered(path, outputs)
  }

  /* ---------- Reading the source tree ---------- */

  datatype Kind = Symlink | Directory | Special | Regular(size: nat, data: Bytes, executable: bool)

  // A directory entry by the parts of its path.
  datatype Entry = Entry(parts: seq<string>, kind: Kind)

  predicate Skipped(entry: Entry) {
    exists part <- entry.parts :: part in IGNORED || EndsWith(part, ".pyc")
  }

  function Mode(executable: bool): int {
    if executable then 0x1ed else 0x1a4
  }

  datatype Reading = Reading(files: Tree, total: nat)

  function ReadEntry(reading: Reading, entry: Entry): Result<Reading, BuildError> {
    if Skipped(entry) then Ok(reading)
    else match entry.kind
      case Symlink => Err(SymbolicLink)
      case Directory => Ok(reading)
      case Special => Err(UnboundedSource)
      case Regular(size, data, executable) =>
        var total := reading.total + |data|;
        if size > MAX_EXPANDED then Err(UnboundedSource)
        else if total > MAX_EXPANDED || |reading.files| >= MAX_FILES then Err(SourceTooLarge)
        else Ok(Reading(reading.files[Join(entry.parts) := File(data, Mode(executable))], total))
  }

  function ReadEntries(entries: seq<Entry>, n: nat): Result<Reading, BuildError>
    requires n <= |entries|
  {
    if n == 0 then Ok(Reading(map[], 0))
    else match ReadEntries(entries, n - 1)
      case Err(error) => Err(error)
      case Ok(reading) => ReadEntry(reading, entries[n - 1])
  }

  function Source(entries: seq<Entry>): Result<Tree, BuildError> {
    match ReadEntries(entries, |entries|)
    case Err(error) => Err(error)
    case Ok(reading) => Ok(reading.files)
  }

  lemma {:induction false} ReadEntriesFails(entries: seq<Entry>, n: nat)
    requires n <= |entries| && ReadEntries(entries, n).Err?
    ensures ReadEntries(entries, |entries|) == ReadEntries(entries, n)
    decreases |entries| - n
  {
    if n < |entries| {
      ReadEntriesFails(entries, n + 1);
    }
  }

  method ReadSource(entries: seq<Entry>) returns (r: Result<Tree, BuildError>)
    ensures r == Source(entries)
  {
    var files: Tree := map[];
    var total: nat := 0;
    for n := 0 to |entries|
      invariant ReadEntries(entries, n) == Ok(Reading(files, total))
    {
      hide Skipped;
      var entry := entries[n];
      if ReadEntry(Reading(files, total), entry).Err? {
        ReadEntriesFails(entries, n + 1);
      }
      if Skipped(entry) {
        continue;
      }
      if entry.kind.Symlink? {
        return Err(SymbolicLink);
      }
      if entry.kind.Directory? {
        continue;
      }
      if entry.kind.Special? || entry.kind.size > MAX_EXPANDED {
        return Err(UnboundedSource);
      }
      var content := entry.kind.data;
      total := total + |content|;
      if total > MAX_EXPANDED || |files| >= MAX_FILES {
        return Err(SourceTooLarge);
      }
      files := files[Join(entry.parts) := File(content, Mode(entry.kind.executable))];
    }
    return Ok(files);
  }

  // Some part of the path is a cache or repository directory, or Python byte code.
  ghost predicate Ignored(entry: Entry) {
    exists k :: 0 <= k < |entry.parts| && IgnoredPart(entry.parts[k])
  }

  ghost predicate IgnoredPart(part: string) {
    || part == ".git" || part == "__pycache__" || part == ".pytest_cache" || part == "node_modules"
    || part == ".DS_Store"
    || (|part| >= 4 && part[|part| - 4..] == ".pyc")
  }

  lemma SkippedIff(entry: Entry)
    ensures Skipped(entry) <==> Ignored(entry)
  {
    assert forall part :: IgnoredPart(part) <==> part in IGNORED || EndsWith(part, ".pyc");
    hide IgnoredPart, EndsWith;
    if part :| part in entry.parts && IgnoredPart(part) {
      var k :| 0 <= k < |entry.parts| && entry.parts[k] == part;
    }
  }

  // An entry that becomes a file.
  ghost predicate Counted(entry: Entry) {
    !Ignored(entry) && entry.kind.Regular?
  }

  ghost predicate Acceptable(entry: Entry) {
    Ignored(entry) || entry.kind.Directory? || (entry.kind.Regular? && entry.kind.size <= 209715200)
  }

  // Number and total size of the first `n` entries' files.
  ghost function CountedFiles(entries: seq<Entry>, n: nat): nat
    requires n <= |entries|
  {
    if n == 0 then 0 else CountedFiles(entries, n - 1) + if Counted(entries[n - 1]) then 1 else 0
  }

  ghost function CountedBytes(entries: seq<Entry>, n: nat): nat
    requires n <= |entries|
  {
    if n == 0 then 0
    else CountedBytes(entries, n - 1) + if Counted(entries[n - 1]) then |entries[n - 1].kind.data| else 0
  }

  // No two files of a directory tree have the same path.
  ghost predicate DistinctPaths(entries: seq<Entry>) {
    forall i, j :: 0 <= i < j < |entries| && Counted(entries[i]) && Counted(entries[j]) ==>
      Join(entries[i].parts) != Join(entries[j].parts)
  }

  ghost predicate Readable(entries: seq<Entry>, n: nat)
    requires n <= |entries|
  {
    && (forall i :: 0 <= i < n ==> Acceptable(entries[i]))
    && CountedFiles(entries, n) <= 10000
    && CountedBytes(entries, n) <= 209715200
  }

  // `files` are the first `n` entries' files, by path.
  ghost predicate HoldsEntries(files: Tree, entries: seq<Entry>, n: nat)
    requires n <= |entries|
  {
    && (forall path <- files :: exists i :: 0 <= i < n && Counted(entries[i]) && Join(entries[i].parts) == path)
    && (forall i :: 0 <= i < n && Counted(entries[i]) ==>
          && Join(entries[i].parts) in files
          && files[Join(entries[i].parts)]
             == File(entries[i].kind.data, if entries[i].kind.executable then 0x1ed else 0x1a4))
  }

  lemma {:induction false} ReadEntriesLaw(entries: seq<Entry>, n: nat)
    requires n <= |entries| && DistinctPaths(entries)
    ensures ReadEntries(entries, n).Ok? <==> Readable(entries, n)
    ensures ReadEntries(entries, n).Ok? ==>
              var reading := ReadEntries(entries, n).value;
              && HoldsEntries(reading.files, entries, n)
              && |reading.files| == CountedFiles(entries, n) && reading.total == CountedBytes(entries, n)
  {
    hide Ignored, Join, ReadEntry, Acceptable, Counted, HoldsEntries, DistinctPaths, Mode;
    if n == 0 {
      HoldsNoEntries(entries);
    } else {
      ReadEntriesLaw(entries, n - 1);
      if ReadEntries(entries, n - 1).Ok? {
        var before, entry := ReadEntries(entries, n - 1).value, entries[n - 1];
        ReadEntryLaw(before, entry, CountedFiles(entries, n - 1), CountedBytes(entries, n - 1));
        if ReadEntry(before, entry).Ok? {
          HoldsNext(entries, n, before.files, ReadEntry(before, entry).value.files);
        }
      }
    }
  }

  lemma HoldsNoEntries(entries: seq<Entry>)
    ensures HoldsEntries(map[], entries, 0)
  {
  }

  lemma ReadEntryLaw(before: Reading, entry: Entry, count: nat, bytes: nat)
    requires |before.files| == count <= MAX_FILES && before.total == bytes <= MAX_EXPANDED
    ensures ReadEntry(before, entry).Ok? <==>
            && Acceptable(entry)
            && (Counted(entry) ==> count + 1 <= MAX_FILES && bytes + |entry.kind.data| <= MAX_EXPANDED)
    ensures ReadEntry(before, entry).Ok? ==>
              ReadEntry(before, entry).value
              == if Counted(entry)
                 then Reading(before.files[Join(entry.parts) := File(entry.kind.data, Mode(entry.kind.executable))],
                              bytes + |entry.kind.data|)
                 else before
  {
    SkippedIff(entry);
    hide Skipped, Ignored;
  }

  lemma HoldsNext(entries: seq<Entry>, n: nat, before: Tree, after: Tree)
    requires 0 < n <= |entries| && DistinctPaths(entries) && HoldsEntries(before, entries, n - 1)
    requires var entry := entries[n - 1];
             after == if Counted(entry)
                      then before[Join(entry.parts) := File(entry.kind.data, Mode(entry.kind.executable))]
                      else before
    ensures HoldsEntries(after, entries, n)
    ensures |after| == |before| + if Counted(entries[n - 1]) then 1 else 0
  {
    hide Counted, Join;
    if Counted(entries[n - 1]) {
      var path := Join(entries[n - 1].parts);
      assert forall i :: 0 <= i < n - 1 && Counted(entries[i]) ==> Join(entries[i].parts) != path;
      assert path !in before;
    }
  }

  // A source tree is readable exactly if everything outside the ignored names is
  // a directory or a bounded regular file, within the limits on number and size,
  // and then yields precisely these files, by path, with bytes and mode.
  lemma SourceLaw(entries: seq<Entry>)
    requires DistinctPaths(entries)
    ensures Source(entries).Ok? <==> Readable(entries, |entries|)
    ensures Source(entries).Ok? ==> HoldsEntries(Source(entries).value, entries, |entries|)
  {
    ReadEntriesLaw(entries, |entries|);
  }

  /* ---------- Reading the archive ---------- */

  // One archive member: the declared size, whether its type bits say regular
  // file or nothing, its permission bits, and the bytes it expands to.
  datatype Member = Member(filename: string, size: nat, plain: bool, executable: bool, data: Bytes)

  datatype Zip = Zip(symlink: bool, regular: bool, size: nat, members: seq<Member>)

  function ReadMember(reading: Reading, member: Member): Result<Reading, BuildError> {
    if !IsRelative(member.filename) then Err(NotRelative)
    else
      var total := reading.total + member.size;
      if EndsWith(member.filename, "/") || !member.plain || member.filename in reading.files
         || total > MAX_EXPANDED || |reading.files| >= MAX_FILES
      then Err(BadMember)
      else Ok(Reading(reading.files[member.filename := File(member.data, Mode(member.executable))], total))
  }

  function ReadMembers(members: seq<Member>, n: nat): Result<Reading, BuildError>
    requires n <= |members|
  {
    if n == 0 then Ok(Reading(map[], 0))
    else match ReadMembers(members, n - 1)
      case Err(error) => Err(error)
      case Ok(reading) => ReadMember(reading, members[n - 1])
  }

  function ArchiveTree(zip: Zip): Result<Tree, BuildError> {
    if zip.symlink || !zip.regular || zip.size > MAX_ARCHIVE then Err(BadArchive)
    else match ReadMembers(zip.members, |zip.members|)
      case Err(error) => Err(error)
      case Ok(reading) => Ok(reading.files)
  }

  lemma {:induction false} ReadMembersFails(members: seq<Member>, n: nat)
    requires n <= |members| && ReadMembers(members, n).Err?
    ensures ReadMembers(members, |members|) == ReadMembers(members, n)
    decreases |members| - n
  {
    if n < |members| {
      ReadMembersFails(members, n + 1);
    }
  }

  lemma ReadMembersNone(members: seq<Member>)
    ensures ReadMembers(members, 0) == Ok(Reading(map[], 0))
  {
  }

  lemma ReadMembersStep(members: seq<Member>, n: nat, reading: Reading)
    requires n < |members| && ReadMembers(members, n) == Ok(reading)
    ensures ReadMembers(members, n + 1) == ReadMember(reading, members[n])
  {
  }

  // The checks on one member, given what was read before it.
  method AddMember(files: Tree, total: nat, member: Member) returns (r: Result<Reading, BuildError>)
    ensures r == ReadMember(Reading(files, total), member)
  {
    hide IsRelative, EndsWith;
    if !IsRelative(member.filename) {
      return Err(NotRelative);
    }
    var expanded: nat := total + member.size;
    if EndsWith(member.filename, "/") || !member.plain || member.filename in files
       || expanded > MAX_EXPANDED || |files| >= MAX_FILES {
      return Err(BadMember);
    }
    return Ok(Reading(files[member.filename := File(member.data, Mode(member.executable))], expanded));
  }

  method ArchiveFiles(zip: Zip) returns (r: Result<Tree, BuildError>)
    ensures r == ArchiveTree(zip)
  {
    if zip.symlink || !zip.regular || zip.size > MAX_ARCHIVE {
      return Err(BadArchive);
    }
    var members := zip.members;
    var files: Tree := map[];
    var total: nat := 0;
    ReadMembersNone(members);
    hide ReadMembers, ReadMember;
    for n := 0 to |members|
      invariant ReadMembers(members, n) == Ok(Reading(files, total))
    {
      ReadMembersStep(members, n, Reading(files, total));
      var added := AddMember(files, total, members[n]);
      if added.Err? {
        ReadMembersFails(members, n + 1);
        return Err(added.error);
      }
      files, total := added.value.files, added.value.total;
    }
    return Ok(files);
  }

  ghost predicate PlainFile(member: Member) {
    IsRelative(member.filename) && member.filename[|member.filename| - 1] != '/' && member.plain
  }

  ghost function Expanded(members: seq<Member>, n: nat): nat
    requires n <= |members|
  {
    if n == 0 then 0 else Expanded(members, n - 1) + members[n - 1].size
  }

  // The first `n` members are plain files with relative names, none repeated,
  // within the limits on number and size.
  ghost predicate Bounded(members: seq<Member>, n: nat)
    requires n <= |members|
  {
    && (forall i :: 0 <= i < n ==> PlainFile(members[i]))
    && (forall i, j :: 0 <= i < j < n ==> members[i].filename != members[j].filename)
    && n <= 10000
    && Expanded(members, n) <= 209715200
  }

  // `files` are the first `n` members, by name.
  ghost predicate HoldsMembers(files: Tree, members: seq<Member>, n: nat)
    requires n <= |members|
  {
    && (forall path <- files :: exists i :: 0 <= i < n && members[i].filename == path)
    && (forall i :: 0 <= i < n ==>
          && members[i].filename in files
          && files[members[i].filename] == File(members[i].data, if members[i].executable then 0x1ed else 0x1a4))
  }

  lemma {:induction false} ReadMembersLaw(members: seq<Member>, n: nat)
    requires n <= |members|
    ensures ReadMembers(members, n).Ok? <==> Bounded(members, n)
    ensures ReadMembers(members, n).Ok? ==>
              var reading := ReadMembers(members, n).value;
              && HoldsMembers(reading.files, members, n)
              && |reading.files| == n && reading.total == Expanded(members, n)
  {
    hide ReadMember, PlainFile, HoldsMembers, Mode;
    if n == 0 {
      HoldsNoMembers(members);
    } else {
      ReadMembersLaw(members, n - 1);
      if ReadMembers(members, n - 1).Ok? {
        ReadMemberLaw(ReadMembers(members, n - 1).value, members, n);
      }
    }
  }

  lemma HoldsNoMembers(members: seq<Member>)
    ensures HoldsMembers(map[], members, 0)
  {
  }

  lemma ReadMemberLaw(before: Reading, members: seq<Member>, n: nat)
    requires 0 < n <= |members| && Bounded(members, n - 1) && HoldsMembers(before.files, members, n - 1)
    requires |before.files| == n - 1 && before.total == Expanded(members, n - 1)
    ensures ReadMember(before, members[n - 1]).Ok? <==> Bounded(members, n)
    ensures ReadMember(before, members[n - 1]).Ok? ==>
              var reading := ReadMember(before, members[n - 1]).value;
              && HoldsMembers(reading.files, members, n)
              && |reading.files| == n && reading.total == Expanded(members, n)
  {
    hide IsRelative, EndsWith, Mode, HoldsMembers, Bounded, PlainFile;
    var member := members[n - 1];
    PlainFileIff(member);
    BoundedNext(members, n);
    NameTaken(before.files, members, n);
    if ReadMember(before, member).Ok? {
      HoldsNextMember(before.files, members, n);
    }
  }

  lemma PlainFileIff(member: Member)
    ensures PlainFile(member) <==>
            IsRelative(member.filename) && !EndsWith(member.filename, "/") && member.plain
  {
    hide Normalized;
  }

  lemma BoundedNext(members: seq<Member>, n: nat)
    requires 0 < n <= |members| && Bounded(members, n - 1)
    ensures Bounded(members, n) <==>
            && PlainFile(members[n - 1])
            && (forall i :: 0 <= i < n - 1 ==> members[i].filename != members[n - 1].filename)
            && n <= 10000 && Expanded(members, n) <= 209715200
  {
    hide PlainFile, Expanded;
  }

  lemma NameTaken(files: Tree, members: seq<Member>, n: nat)
    requires 0 < n <= |members| && HoldsMembers(files, members, n - 1)
    ensures members[n - 1].filename in files <==>
            exists i :: 0 <= i < n - 1 && members[i].filename == members[n - 1].filename
  {
  }

  lemma HoldsNextMember(files: Tree, members: seq<Member>, n: nat)
    requires 0 < n <= |members| && HoldsMembers(files, members, n - 1)
    requires members[n - 1].filename !in files
    ensures var member := members[n - 1];
            HoldsMembers(files[member.filename := File(member.data, Mode(member.executable))], members, n)
  {
  }

  // An archive is readable exactly if it is a bounded regular file whose members
  // are plain files with distinct relative names within the limits on number and
  // size, and then yields precisely its members, by name, with bytes and mode.
  lemma ArchiveLaw(zip: Zip)
    ensures ArchiveTree(zip).Ok? <==>
            !zip.symlink && zip.regular && zip.size <= 52428800 && Bounded(zip.members, |zip.members|)
    ensures ArchiveTree(zip).Ok? ==> HoldsMembers(ArchiveTree(zip).value, zip.members, |zip.members|)
  {
    ReadMembersLaw(zip.members, |zip.members|);
  }

  /* ---------- The build ---------- */

  function Restrict(files: Tree, paths: set<string>): Tree {
    map path <- files | path in paths :: files[path]
  }

  // The outcome of a build whose contributor code left `candidate` behind, or
  // nothing when it failed: None if the source declares no build, else the
  // archive that is published.
  function Build(entries: seq<Entry>, decode: Decoder, candidate: Option<Zip>): Result<Option<Zip>, BuildError> {
    match Source(entries)
    case Err(error) => Err(error)
    case Ok(original) =>
      match Declaration(original, decode)
      case Err(error) => Err(error)
      case Ok(None) => Ok(None)
      case Ok(Some(_)) =>
        if SourcePaths(original, decode, false) != Ok(original.Keys) then Err(OutputsCheckedIn)
        else match candidate
          case None => Err(BuildFailed)
          case Some(zip) => Publish(original, decode, zip)
  }

  function Publish(original: Tree, decode: Decoder, zip: Zip): Result<Option<Zip>, BuildError> {
    match ArchiveTree(zip)
    case Err(error) => Err(error)
    case Ok(built) =>
      match SourcePaths(built, decode, true)
      case Err(error) => Err(error)
      case Ok(kept) => if Restrict(built, kept) != original then Err(SourceChanged) else Ok(Some(zip))
  }

  method RunBuild(entries: seq<Entry>, decode: Decoder, candidate: Option<Zip>)
    returns (r: Result<Option<Zip>, BuildError>)
    ensures r == Build(entries, decode, candidate)
  {
    var source := ReadSource(entries);
    if source.Err? {
      return Err(source.error);
    }
    var original := source.value;
    var value := Declaration(original, decode);
    if value.Err? {
      return Err(value.error);
    }
    if value.value.None? {
      return Ok(None);
    }
    var paths := SourcePaths(original, decode, false);
    if paths != Ok(original.Keys) {
      return Err(OutputsCheckedIn);
    }
    if candidate.None? {
      return Err(BuildFailed);
    }
    var archive := ArchiveFiles(candidate.value);
    if archive.Err? {
      return Err(archive.error);
    }
    var kept := SourcePaths(archive.value, decode, true);
    if kept.Err? {
      return Err(kept.error);
    }
    if Restrict(archive.value, kept.value) != original {
      return Err(SourceChanged);
    }
    return Ok(candidate);
  }

  /* ---------- What a published archive is ---------- */

  // Every reviewed file unchanged, nothing else but files at or under a
  // declared output, and something inside every output.
  ghost predicate Faithful(original: Tree, declared: Declared, built: Tree) {
    && (forall path <- original :: path in built && built[path] == original[path])
    && (forall path <- built :: path !in original ==> Covered(path, declared.outputs))
    && (forall output <- declared.outputs :: Populated(built, output))
  }

  // The reviewed declaration, and no reviewed file where outputs go.
  ghost predicate Reviewed(original: Tree, decode: Decoder, declared: Declared) {
    && Declaration(original, decode) == Ok(Some(declared))
    && forall path <- original :: !Covered(path, declared.outputs)
  }

  // The bytes of a declaration determine what it declares.
  lemma SameBytesSameDeclaration(a: Tree, b: Tree, decode: Decoder, declared: Declared)
    requires Declaration(a, decode) == Ok(Some(declared))
    requires DECLARATION in b && b[DECLARATION].data == a[DECLARATION].data
    ensures Declaration(b, decode).Ok? ==> Declaration(b, decode) == Ok(Some(declared))
    ensures declared.entrypoint in b ==> Declaration(b, decode) == Ok(Some(declared))
  {
    hide IsRelative, DeclaredOutputs, EndsWith;
  }

  lemma DeclaredEntrypoint(files: Tree, decode: Decoder, declared: Declared)
    requires Declaration(files, decode) == Ok(Some(declared))
    ensures DECLARATION in files && declared.entrypoint in files && PrefixFree(declared.outputs)
  {
    hide IsRelative, EndsWith;
  }

  // The gate passes exactly the faithful archives, although it reads the
  // declaration from the archive.
  lemma GateIff(original: Tree, decode: Decoder, declared: Declared, built: Tree)
    requires Reviewed(original, decode, declared)
    ensures (SourcePaths(built, decode, true).Ok? &&
             Restrict(built, SourcePaths(built, decode, true).value) == original)
            <==> Faithful(original, declared, built)
  {
    DeclaredEntrypoint(original, decode, declared);
    if Faithful(original, declared, built) {
      FaithfulPasses(original, decode, declared, built);
    } else if SourcePaths(built, decode, true).Ok? {
      hide Declaration, Covered, Populated, Faithful, SourcePaths, PrefixFree;
      if Restrict(built, SourcePaths(built, decode, true).value) == original {
        DeclarationKept(original, decode, declared, built);
      }
    }
  }

  lemma FaithfulPasses(original: Tree, decode: Decoder, declared: Declared, built: Tree)
    requires Reviewed(original, decode, declared) && Faithful(original, declared, built)
    ensures SourcePaths(built, decode, true).Ok?
    ensures Restrict(built, SourcePaths(built, decode, true).value) == original
  {
    FaithfulDeclares(original, decode, declared, built);
    PopulatedPaths(built, decode, declared);
    KeptOfFaithful(original, declared, built);
    hide *;
    assert SourcePaths(built, decode, true) == Ok(KeptPaths(built, declared.outputs));
  }

  lemma FaithfulDeclares(original: Tree, decode: Decoder, declared: Declared, built: Tree)
    requires Reviewed(original, decode, declared) && Faithful(original, declared, built)
    ensures Declaration(built, decode) == Ok(Some(declared))
  {
    DeclaredEntrypoint(original, decode, declared);
    var name := DECLARATION;
    assert name in built && built[name] == original[name];
    hide Declaration, Covered, Populated, PrefixFree;
    SameBytesSameDeclaration(original, built, decode, declared);
  }

  lemma PopulatedPaths(files: Tree, decode: Decoder, declared: Declared)
    requires Declaration(files, decode) == Ok(Some(declared))
    requires forall output <- declared.outputs :: Populated(files, output)
    ensures SourcePaths(files, decode, true) == Ok(KeptPaths(files, declared.outputs))
  {
    hide Declaration, Populated, KeptPaths;
  }

  lemma KeptOfFaithful(original: Tree, declared: Declared, built: Tree)
    requires Faithful(original, declared, built)
    requires forall path <- original :: !Covered(path, declared.outputs)
    ensures Restrict(built, KeptPaths(built, declared.outputs)) == original
  {
    hide Covered;
  }

  // The archive's declaration is among the files compared with the original.
  lemma DeclarationKept(original: Tree, decode: Decoder, declared: Declared, built: Tree)
    requires Declaration(original, decode) == Ok(Some(declared)) && DECLARATION in original
    requires SourcePaths(built, decode, true).Ok?
    requires Restrict(built, SourcePaths(built, decode, true).value) == original
    ensures Declaration(built, decode) == Ok(Some(declared))
    ensures built[DECLARATION] == original[DECLARATION]
    ensures Faithful(original, declared, built)
  {
    var kept := SourcePaths(built, decode, true).value;
    assert DECLARATION in Restrict(built, kept);
    SameBytesSameDeclaration(original, built, decode, declared);
    hide Declaration, Covered, Populated;
    assert forall path <- original :: path in Restrict(built, kept);
  }

  // A build succeeds exactly if the source declares one, has nothing checked in
  // where outputs go, and the contributor's archive is readable and faithful.
  lemma BuildSucceedsIff(entries: seq<Entry>, decode: Decoder, candidate: Option<Zip>, zip: Zip)
    ensures Build(entries, decode, candidate) == Ok(Some(zip)) <==>
            && candidate == Some(zip)
            && Source(entries).Ok?
            && ArchiveTree(zip).Ok?
            && exists declared ::
                 && Reviewed(Source(entries).value, decode, declared)
                 && Faithful(Source(entries).value, declared, ArchiveTree(zip).value)
  {
    hide Source, ArchiveTree, Declaration, Covered, Populated, Faithful;
    if Source(entries).Ok? {
      var original := Source(entries).value;
      forall declared | Declaration(original, decode) == Ok(Some(declared))
        ensures SourcePaths(original, decode, false) == Ok(original.Keys) <==> Reviewed(original, decode, declared)
      {
        NothingCheckedIn(original, decode, declared);
      }
      if ArchiveTree(zip).Ok? {
        forall declared | Reviewed(original, decode, declared)
          ensures Publish(original, decode, zip) == Ok(Some(zip)) <==>
                  Faithful(original, declared, ArchiveTree(zip).value)
        {
          GateIff(original, decode, declared, ArchiveTree(zip).value);
        }
      }
    }
  }

  lemma NothingCheckedIn(original: Tree, decode: Decoder, declared: Declared)
    requires Declaration(original, decode) == Ok(Some(declared))
    ensures SourcePaths(original, decode, false) == Ok(original.Keys) <==> Reviewed(original, decode, declared)
  {
    hide Declaration, Covered;
    var kept := KeptPaths(original, declared.outputs);
    assert kept == original.Keys <==> forall path <- original :: path in kept;
  }

  // A generated file belongs to exactly one output.
  lemma OneOutputEach(outputs: seq<string>, path: string, i: nat, j: nat)
    requires PrefixFree(outputs) && i < |outputs| && j < |outputs|
    requires Under(path, outputs[i]) && Under(path, outputs[j])
    ensures i == j
  {
    var a, b := outputs[i], outputs[j];
    if i != j {
      if path != a && path != b {
        PrefixesNest(a + "/", b + "/", path);
      }
    }
  }

  lemma PrefixesNest(a: string, b: string, path: string)
    requires a <= path && b <= path && a != "" && b != ""
    requires a[|a| - 1] == '/' && b[|b| - 1] == '/'
    ensures a == b || a <= b[..|b| - 1] || b <= a[..|a| - 1]
  {
    assert a == path[..|a|] && b == path[..|b|];
  }

  // A successful build cannot have changed what it was judged by.
  lemma PublishedArchive(entries: seq<Entry>, decode: Decoder, candidate: Option<Zip>, zip: Zip)
    returns (declared: Declared)
    requires Build(entries, decode, candidate) == Ok(Some(zip))
    ensures candidate == Some(zip) && Source(entries).Ok? && ArchiveTree(zip).Ok?
    ensures var original, built := Source(entries).value, ArchiveTree(zip).value;
            && DECLARATION in original && DECLARATION in built
            && built[DECLARATION] == original[DECLARATION]
            && Declaration(built, decode) == Declaration(original, decode) == Ok(Some(declared))
            && built.Keys == original.Keys + (set path <- built | Covered(path, declared.outputs))
            && original.Keys !! (set path <- built | Covered(path, declared.outputs))
            && (forall path <- original :: built[path] == original[path])
            && (forall output <- declared.outputs :: Populated(built, output))
            && PrefixFree(declared.outputs)
  {
    BuildSucceedsIff(entries, decode, candidate, zip);
    var original, built := Source(entries).value, ArchiveTree(zip).value;
    hide Source, ArchiveTree, Declaration, Covered, Populated, Build, PrefixFree;
    declared :| Reviewed(original, decode, declared) && Faithful(original, declared, built);
    DeclaredEntrypoint(original, decode, declared);
    SameBytesSameDeclaration(original, built, decode, declared);
  }
}
