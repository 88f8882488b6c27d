// Configuration layered from the process environment over a dotenv file, and
// the export of the file into the environment at startup.
module Dotenv {
  import opened Wrappers
  import opened Sequences
  import opened Text

  type Entry = (string, string)
  type Env = map<string, string>

  /* ---------- The file ---------- */

  function Lines(content: string): seq<string>
    decreases |content|
  {
    match SplitOnce(content, '\n')
    case None => [content]
    case Some((line, rest)) => [line] + Lines(rest)
  }

  predicate Quoted(s: string) {
    |s| >= 2 && (s[0] == s[|s| - 1] == '"' || s[0] == s[|s| - 1] == '\'')
  }

  // The value without surrounding space and one pair of matching outer quotes.
  function ValueOf(raw: string): string {
    var trimmed := Trim(raw);
    if Quoted(trimmed) then trimmed[1..|trimmed| - 1] else trimmed
  }

  // The entry of a line, unless it is blank, a comment, or without a value.
  function EntryOf(line: string): Option<Entry> {
    var text := Trim(line);
    if text == "" || text[0] == '#' then None
    else match SplitOnce(text, '=')
      case None => None
      case Some((key, raw)) =>
        if ValueOf(raw) == "" then None else Some((Trim(key), ValueOf(raw)))
  }

  function EntriesOf(lines: seq<string>): seq<Entry> {
    if lines == [] then []
    else (match EntryOf(lines[0]) case None => [] case Some(entry) => [entry]) + EntriesOf(lines[1..])
  }

  function Entries(content: string): seq<Entry> {
    EntriesOf(Lines(content))
  }

  // The first entry with a name wins.
  function First(entries: seq<Entry>, name: string): Option<string> {
    if entries == [] then None
    else if entries[0].0 == name then Some(entries[0].1)
    else First(entries[1..], name)
  }

  function Last(entries: seq<Entry>, name: string): Option<string> {
    if entries == [] then None
    else if entries[|entries| - 1].0 == name then Some(entries[|entries| - 1].1)
    else Last(entries[..|entries| - 1], name)
  }

  /* ---------- Reading a setting ---------- */

  predicate IsSet(env: Env, name: string) {
    name in env && !Blank(env[name])
  }

  // A blank process variable counts as absent.
  function EnvOrDotenv(env: Env, entries: seq<Entry>, name: string): Option<string> {
    if IsSet(env, name) then Some(env[name]) else First(entries, name)
  }

  // A blank process variable disables the setting.
  function OptionalEnvOrDotenv(env: Env, entries: seq<Entry>, name: string): Option<string> {
    if name in env then (if Blank(env[name]) then None else Some(Trim(env[name])))
    else First(entries, name)
  }

  /* ---------- Exporting the file ---------- */

  function Missing(env: Env): Entry -> bool {
    (entry: Entry) => !IsSet(env, entry.0)
  }

  function SetAll(env: Env, entries: seq<Entry>): Env {
    if entries == [] then env
    else SetAll(env, entries[..|entries| - 1])[entries[|entries| - 1].0 := entries[|entries| - 1].1]
  }

  // The environment after the export: which entries are missing is decided
  // before the first of them is set.
  function Exported(env: Env, entries: seq<Entry>): Env {
    SetAll(env, Filter(entries, Missing(env)))
  }

  // `set_var` panics on an empty name, on `=` or NUL in the name and on NUL in
  // the value.
  predicate Settable(entry: Entry) {
    entry.0 != "" && '=' !in entry.0 && '\0' !in entry.0 && '\0' !in entry.1
  }

  class ProcessEnv {
    var vars: Env

    constructor (vars: Env)
      ensures this.vars == vars
    {
      this.vars := vars;
    }

    // Without a readable file nothing happens.
    method InitEnv(content: Option<string>) returns (panicked: bool)
      modifies this
      ensures content.None? ==> !panicked && vars == old(vars)
      ensures content.Some? ==>
                var missing := Filter(Entries(content.value), Missing(old(vars)));
                && (panicked <==>
                      exists entry <- missing ::
                        entry.0 == "" || '=' in entry.0 || '\0' in entry.0 || '\0' in entry.1)
                && (!panicked ==> vars == Exported(old(vars), Entries(content.value)))
    {
      if content.None? {
        return false;
      }
      var missing := Filter(Entries(content.value), Missing(vars));
      hide Entries, Filter, Settable;
      for i := 0 to |missing|
        invariant vars == SetAll(old(vars), missing[..i])
        invariant forall j :: 0 <= j < i ==> Settable(missing[j])
      {
        var entry := missing[i];
        assert missing[..i + 1][..i] == missing[..i];
        if !Settable(entry) {
          return true;
        }
        vars := vars[entry.0 := entry.1];
      }
      assert missing[..|missing|] == missing;
      return false;
    }
  }

  /* ---------- What the export changes ---------- */

  lemma {:induction false} SetAllLookup(env: Env, entries: seq<Entry>, name: string)
    ensures var r := SetAll(env, entries);
            match Last(entries, name)
            case None => (name in r <==> name in env) && (name in env ==> r[name] == env[name])
            case Some(value) => name in r && r[name] == value
  {
    if entries != [] {
      SetAllLookup(env, entries[..|entries| - 1], name);
    }
  }

  lemma {:induction false} LastOfMissing(env: Env, entries: seq<Entry>, name: string)
    ensures Last(Filter(entries, Missing(env)), name) == if IsSet(env, name) then None else Last(entries, name)
  {
    if entries != [] {
      var n := |entries| - 1;
      LastOfMissing(env, entries[..n], name);
      FilterStep(entries, n, Missing(env));
      assert entries[..n + 1] == entries;
      var kept := Filter(entries[..n], Missing(env));
      hide Filter;
      assert (kept + [entries[n]])[..|kept|] == kept;
      assert kept + [] == kept;
    }
  }

  // Exactly the unset variables that the file defines change, to the last value
  // the file gives them.
  lemma ExportedLookup(env: Env, entries: seq<Entry>, name: string)
    ensures var r := Exported(env, entries);
            if IsSet(env, name) || Last(entries, name) == None
            then (name in r <==> name in env) && (name in env ==> r[name] == env[name])
            else name in r && r[name] == Last(entries, name).value
  {
    SetAllLookup(env, Filter(entries, Missing(env)), name);
    LastOfMissing(env, entries, name);
  }

  lemma {:induction false} FirstIffLast(entries: seq<Entry>, name: string)
    ensures First(entries, name) == None <==> forall i :: 0 <= i < |entries| ==> entries[i].0 != name
    ensures Last(entries, name) == None <==> forall i :: 0 <= i < |entries| ==> entries[i].0 != name
    decreases |entries|
  {
    if entries != [] {
      var n := |entries| - 1;
      FirstIffLast(entries[1..], name);
      FirstIffLast(entries[..n], name);
      assert forall i :: 1 <= i < |entries| ==> entries[i] == entries[1..][i - 1];
      assert forall i :: 0 <= i < n ==> entries[i] == entries[..n][i];
    }
  }

  // Readers see the same setting before and after the export if and only if the
  // variable is set, or the file does not define it more than once with
  // different first and last values, the last not blank.
  lemma TransparentIff(env: Env, entries: seq<Entry>, name: string)
    ensures EnvOrDotenv(Exported(env, entries), entries, name) == EnvOrDotenv(env, entries, name)
            <==>
            (IsSet(env, name) || First(entries, name) == Last(entries, name)
             || (Last(entries, name).Some? && Blank(Last(entries, name).value)))
  {
    ExportedLookup(env, entries, name);
    FirstIffLast(entries, name);
    hide Blank;
  }

  ghost predicate DistinctNames(entries: seq<Entry>) {
    forall i, j :: 0 <= i < j < |entries| ==> entries[i].0 != entries[j].0
  }

  lemma {:induction false} DistinctFirstLast(entries: seq<Entry>, name: string)
    requires DistinctNames(entries)
    ensures First(entries, name) == Last(entries, name)
    ensures forall i :: 0 <= i < |entries| && entries[i].0 == name ==> First(entries, name) == Some(entries[i].1)
    decreases |entries|
  {
    if entries != [] {
      var n := |entries| - 1;
      DistinctFirstLast(entries[1..], name);
      DistinctFirstLast(entries[..n], name);
      FirstIffLast(entries[..n], name);
      FirstIffLast(entries, name);
      assert forall i :: 1 <= i < |entries| ==> entries[i] == entries[1..][i - 1];
      assert forall i :: 0 <= i < n ==> entries[i] == entries[..n][i];
    }
  }

  // With distinct names the export is transparent for every setting.
  lemma TransparentForDistinctNames(env: Env, entries: seq<Entry>, name: string)
    requires DistinctNames(entries)
    ensures EnvOrDotenv(Exported(env, entries), entries, name) == EnvOrDotenv(env, entries, name)
  {
    DistinctFirstLast(entries, name);
    TransparentIff(env, entries, name);
  }

  // A repeated name reads by its first value but exports its last.
  lemma DuplicateNameBreaksTransparency()
    ensures var entries := [("A", "1"), ("A", "2")];
            EnvOrDotenv(Exported(map[], entries), entries, "A") != EnvOrDotenv(map[], entries, "A")
  {
    var entries := [("A", "1"), ("A", "2")];
    TransparentIff(map[], entries, "A");
    assert First(entries, "A") == Some("1") && Last(entries, "A") == Some("2");
    assert !Blank("2");
  }

  // Where a blank variable disables a setting, the export must not fill it in,
  // and an exported value must survive the trimming of process variables.
  lemma OptionalTransparentIff(env: Env, entries: seq<Entry>, name: string)
    ensures var last := Last(entries, name);
            OptionalEnvOrDotenv(Exported(env, entries), entries, name) == OptionalEnvOrDotenv(env, entries, name)
            <==>
            (IsSet(env, name) || last == None
             || (if name in env then Blank(last.value)
                 else !Blank(last.value) && First(entries, name) == Some(Trim(last.value))))
  {
    ExportedLookup(env, entries, name);
    FirstIffLast(entries, name);
    hide Trim;
  }

  // Exporting twice is exporting once, even with repeated names.
  lemma ExportIdempotent(env: Env, entries: seq<Entry>)
    ensures Exported(Exported(env, entries), entries) == Exported(env, entries)
  {
    var once := Exported(env, entries);
    var twice := Exported(once, entries);
    forall name
      ensures name in twice <==> name in once
      ensures name in once ==> twice[name] == once[name]
    {
      ExportedLookup(env, entries, name);
      ExportedLookup(once, entries, name);
    }
    hide Exported;
    assert twice.Keys == once.Keys;
  }

  // No variable with a value is touched.
  lemma ExportKeepsSetVariables(env: Env, entries: seq<Entry>, name: string)
    requires IsSet(env, name)
    ensures name in Exported(env, entries) && Exported(env, entries)[name] == env[name]
  {
    ExportedLookup(env, entries, name);
  }

  /* ---------- Writing and reading the file ---------- */

  // Names and values that a file can carry.
  predicate Writable(entry: Entry) {
    && entry.0 != "" && !IsSpace(entry.0[0]) && !IsSpace(entry.0[|entry.0| - 1])
    && entry.0[0] != '#' && '=' !in entry.0 && '\n' !in entry.0
    && entry.1 != "" && '\n' !in entry.1
  }

  function WriteLine(entry: Entry): string {
    entry.0 + "=\"" + entry.1 + "\""
  }

  function Write(entries: seq<Entry>): string {
    if entries == [] then "" else WriteLine(entries[0]) + "\n" + Write(entries[1..])
  }

  lemma TrimTight(s: string)
    requires s != "" && !IsSpace(s[0]) && !IsSpace(s[|s| - 1])
    ensures Trim(s) == s
  {
  }

  lemma LineRoundTrip(entry: Entry)
    requires Writable(entry)
    ensures EntryOf(WriteLine(entry)) == Some(entry)
  {
    var (name, value) := entry;
    var quoted := "\"" + value + "\"";
    var line := WriteLine(entry);
    assert line == name + ['='] + quoted;
    assert line[0] == name[0] && line[|line| - 1] == '"';
    TrimTight(line);
    TrimTight(name);
    TrimTight(quoted);
    SplitOnceOf(name, quoted, '=');
    assert quoted[1..|quoted| - 1] == value;
  }

  // Reading a written file gives the entries back, quotes, comment signs and
  // padding inside values included.
  lemma {:induction false} FileRoundTrip(entries: seq<Entry>)
    requires forall entry <- entries :: Writable(entry)
    ensures Entries(Write(entries)) == entries
  {
    if entries == [] {
      assert EntriesOf([""]) == [];
    } else {
      var line, rest := WriteLine(entries[0]), Write(entries[1..]);
      FileRoundTrip(entries[1..]);
      LineRoundTrip(entries[0]);
      OneLine(entries[0]);
      hide EntryOf, WriteLine, Writable, Lines;
      assert Write(entries) == line + ['\n'] + rest;
      FirstLine(line, rest);
      assert Lines(Write(entries))[1..] == Lines(rest);
    }
  }

  lemma OneLine(entry: Entry)
    requires Writable(entry)
    ensures '\n' !in WriteLine(entry)
  {
  }

  lemma FirstLine(line: string, rest: string)
    requires '\n' !in line
    ensures Lines(line + ['\n'] + rest) == [line] + Lines(rest)
  {
    SplitOnceOf(line, rest, '\n');
  }
}
