// Exactly what a dotenv file says, and what reading and exporting it give.
module DotenvGrammar {
  import opened Wrappers
  import opened Sequences
  import opened Text
  import opened Dotenv

  /* ---------- Lines ---------- */

  function JoinLines(lines: seq<string>): string {
    if lines == [] then ""
    else if |lines| == 1 then lines[0]
    else lines[0] + "\n" + JoinLines(lines[1..])
  }

  lemma {:induction false} LinesLaw(content: string)
    ensures Lines(content) != [] && JoinLines(Lines(content)) == content
    ensures forall line <- Lines(content) :: '\n' !in line
    decreases |content|
  {
    match SplitOnce(content, '\n')
    case None =>
    case Some((line, rest)) =>
      LinesLaw(rest);
      assert Lines(content)[1..] == Lines(rest);
  }

  // Outer quotes of one kind are taken off.
  ghost predicate Unquoted(inner: string, value: string) {
    if |inner| >= 2 && (inner[0] == '"' || inner[0] == '\'') && inner[|inner| - 1] == inner[0]
    then inner == [inner[0]] + value + [inner[0]]
    else inner == value
  }

  lemma ValueIff(raw: string, value: string)
    ensures ValueOf(raw) == value <==> exists inner :: Trimmed(raw, inner) && Unquoted(inner, value)
  {
    var inner := Trim(raw);
    TrimIff(raw, inner);
    hide Trim, Trimmed;
    forall other | Trimmed(raw, other)
      ensures other == inner
    {
      TrimIff(raw, other);
    }
    if |inner| >= 2 {
      assert inner == [inner[0]] + inner[1..|inner| - 1] + [inner[|inner| - 1]];
    }
    assert Unquoted(inner, ValueOf(raw));
    if Unquoted(inner, value) && |inner| >= 2 && inner == [inner[0]] + value + [inner[0]] {
      assert inner[1..|inner| - 1] == value;
    }
  }

  // `key = value` with optional space around both, optional quotes around the
  // value, and no comment sign in front.
  ghost predicate Says(line: string, entry: Entry, left: string, right: string, inner: string) {
    && Trimmed(line, left + "=" + right)
    && '=' !in left && (left == "" || left[0] != '#')
    && Trimmed(left, entry.0)
    && Trimmed(right, inner)
    && Unquoted(inner, entry.1)
    && entry.1 != ""
  }

  // A line is an entry exactly if it has that form.
  lemma LineIff(line: string, entry: Entry)
    ensures EntryOf(line) == Some(entry) <==> exists left, right, inner :: Says(line, entry, left, right, inner)
  {
    hide Trim, Trimmed, Unquoted, ValueOf;
    if EntryOf(line) == Some(entry) {
      var inner := EntrySays(line, entry);
    }
    if left, right, inner :| Says(line, entry, left, right, inner) {
      TrimIff(line, left + "=" + right);
      TrimIff(left, entry.0);
      ValueIff(right, entry.1);
      assert left + "=" + right == left + ['='] + right;
      SplitOnceOf(left, right, '=');
      assert left != "" ==> (left + "=" + right)[0] == left[0];
      assert left == "" ==> (left + "=" + right)[0] == '=';
    }
  }

  lemma EntrySays(line: string, entry: Entry) returns (inner: string)
    requires EntryOf(line) == Some(entry)
    ensures exists left, right :: Says(line, entry, left, right, inner)
  {
    hide Trim, Trimmed, Unquoted, ValueOf;
    var text := Trim(line);
    var (left, right) := SplitOnce(text, '=').value;
    TrimIff(line, text);
    TrimIff(left, entry.0);
    ValueIff(right, entry.1);
    inner :| Trimmed(right, inner) && Unquoted(inner, entry.1);
    assert text == left + "=" + right;
    assert left != "" ==> text[0] == left[0];
    assert Says(line, entry, left, right, inner);
  }

  predicate IsEntry(line: string) {
    EntryOf(line).Some?
  }

  // The file's entries are those of the lines that are one, in order.
  lemma {:induction false} EntriesInOrder(lines: seq<string>)
    ensures |EntriesOf(lines)| == |Filter(lines, IsEntry)|
    ensures forall k :: 0 <= k < |EntriesOf(lines)| ==>
              EntryOf(Filter(lines, IsEntry)[k]) == Some(EntriesOf(lines)[k])
  {
    hide EntryOf;
    if lines != [] {
      EntriesInOrder(lines[1..]);
    }
  }

  /* ---------- Reading and exporting ---------- */

  ghost predicate FirstNamed(entries: seq<Entry>, name: string, value: Option<string>) {
    match value
    case None => forall entry <- entries :: entry.0 != name
    case Some(text) =>
      exists i :: 0 <= i < |entries| && entries[i] == (name, text) && forall j :: 0 <= j < i ==> entries[j].0 != name
  }

  ghost predicate LastNamed(entries: seq<Entry>, name: string, value: Option<string>) {
    match value
    case None => forall entry <- entries :: entry.0 != name
    case Some(text) =>
      exists i :: 0 <= i < |entries| && entries[i] == (name, text)
                  && forall j :: i < j < |entries| ==> entries[j].0 != name
  }

  lemma {:induction false} FirstIs(entries: seq<Entry>, name: string)
    ensures FirstNamed(entries, name, First(entries, name))
  {
    if entries != [] {
      var rest := entries[1..];
      FirstIs(rest, name);
      assert forall i :: 1 <= i < |entries| ==> entries[i] == rest[i - 1];
      if entries[0].0 == name {
        assert entries[0] == (name, entries[0].1);
      } else if First(rest, name).Some? {
        var i :| 0 <= i < |rest| && rest[i] == (name, First(rest, name).value)
                 && forall j :: 0 <= j < i ==> rest[j].0 != name;
        assert entries[i + 1] == rest[i];
      }
    }
  }

  lemma {:induction false} LastIs(entries: seq<Entry>, name: string)
    ensures LastNamed(entries, name, Last(entries, name))
  {
    if entries != [] {
      var last := |entries| - 1;
      var rest := entries[..last];
      LastIs(rest, name);
      assert forall i :: 0 <= i < last ==> entries[i] == rest[i];
      if entries[last].0 == name {
        assert entries[last] == (name, entries[last].1);
      } else if Last(rest, name).Some? {
        var i :| 0 <= i < |rest| && rest[i] == (name, Last(rest, name).value)
                 && forall j :: i < j < |rest| ==> rest[j].0 != name;
        assert entries[i] == rest[i];
      }
    }
  }

  // A process variable with any visible character; otherwise the file's first
  // entry of that name.
  lemma ReadingLaw(env: Env, entries: seq<Entry>, name: string)
    ensures var r := EnvOrDotenv(env, entries, name);
            if name in env && exists c <- env[name] :: !IsSpace(c) then r == Some(env[name])
            else FirstNamed(entries, name, r)
    ensures var r := OptionalEnvOrDotenv(env, entries, name);
            if name !in env then FirstNamed(entries, name, r)
            else if exists c <- env[name] :: !IsSpace(c) then r.Some? && Trimmed(env[name], r.value)
            else r == None
  {
    FirstIs(entries, name);
    if name in env {
      BlankIff(env[name]);
      TrimIff(env[name], Trim(env[name]));
    }
    hide Trim, Trimmed, FirstNamed, First;
  }

  // The export gives every variable without a visible character the file's last
  // value for it, if there is one, and leaves all others alone.
  lemma ExportLaw(env: Env, entries: seq<Entry>, name: string) returns (last: Option<string>)
    ensures LastNamed(entries, name, last)
    ensures var r := Exported(env, entries);
            if (name in env && exists c <- env[name] :: !IsSpace(c)) || last == None
            then (name in r <==> name in env) && (name in env ==> r[name] == env[name])
            else name in r && r[name] == last.value
  {
    last := Last(entries, name);
    LastIs(entries, name);
    ExportedLookup(env, entries, name);
    if name in env {
      BlankIff(env[name]);
    }
    hide Trim, Exported, LastNamed, Last;
  }
}
