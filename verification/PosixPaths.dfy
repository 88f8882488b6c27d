// Relative POSIX paths as plain text: their components, the normal form the
// path library gives them, and which of them the build accepts.
module PosixPaths {
  import opened Wrappers
  import opened Sequences
  import opened Text

  function Components(path: string): seq<string>
    decreases |path|
  {
    match SplitOnce(path, '/')
    case None => [path]
    case Some((first, rest)) => [first] + Components(rest)
  }

  function Join(parts: seq<string>): string {
    if parts == [] then ""
    else if |parts| == 1 then parts[0]
    else parts[0] + "/" + Join(parts[1..])
  }

  // The path library drops empty components and single dots.
  predicate Significant(component: string) {
    component != "" && component != "."
  }

  function Normalized(path: string): string {
    var parts := Filter(Components(path), Significant);
    if parts == [] then "." else Join(parts)
  }

  // A relative path that is its own normal form and never steps upwards.
  predicate IsRelative(path: string) {
    && path != ""
    && '\\' !in path
    && path[0] != '/'
    && ".." !in Filter(Components(path), Significant)
    && Normalized(path) == path
  }

  lemma {:induction false} ComponentsJoin(path: string)
    ensures Join(Components(path)) == path
    ensures forall c <- Components(path) :: '/' !in c
    decreases |path|
  {
    match SplitOnce(path, '/')
    case None =>
    case Some((first, rest)) =>
      ComponentsJoin(rest);
      assert Components(path)[1..] == Components(rest);
  }

  lemma {:induction false} JoinLength(parts: seq<string>)
    requires parts != []
    ensures |Join(parts)| >= |parts| - 1
    ensures |parts| > 1 ==> |Join(parts)| == |parts[0]| + 1 + |Join(parts[1..])|
  {
    if |parts| > 1 {
      JoinLength(parts[1..]);
    }
  }

  // Dropping components shortens a path.
  lemma {:induction false} NormalizedShorter(parts: seq<string>)
    requires Filter(parts, Significant) != []
    ensures |Join(Filter(parts, Significant))| <= |Join(parts)|
    ensures |Join(Filter(parts, Significant))| == |Join(parts)| ==> Filter(parts, Significant) == parts
  {
    var kept, rest := Filter(parts, Significant), parts[1..];
    if Filter(rest, Significant) == [] {
      assert kept == [parts[0]];
      if rest != [] {
        JoinLength(parts);
      }
    } else {
      NormalizedShorter(rest);
      JoinLength(parts);
      if Significant(parts[0]) {
        assert kept[1..] == Filter(rest, Significant);
        JoinLength(kept);
      }
    }
  }

  // Exactly the paths without backslash whose components are all ordinary names
  // are accepted, and the single dot.
  lemma RelativeIff(path: string)
    ensures IsRelative(path) <==>
            '\\' !in path && (path == "." || forall c <- Components(path) :: Significant(c) && c != "..")
  {
    var parts := Components(path);
    var kept := Filter(parts, Significant);
    ComponentsJoin(path);
    FilterAll(parts, Significant);
    FilterMembers(parts, Significant);
    PathEnds(path);
    if kept != [] {
      NormalizedShorter(parts);
    }
  }

  lemma PathEnds(path: string)
    ensures Components(path) != []
    ensures path == "" ==> Components(path) == [""]
    ensures path != "" && path[0] == '/' ==> Components(path)[0] == ""
    ensures path == "." ==> Components(path) == ["."] && Filter(["."], Significant) == []
  {
  }

  /* ---------- Paths as plain text ---------- */

  // The text from `i` to `j` is what stands between two slashes or ends.
  ghost predicate PieceAt(path: string, i: int, j: int) {
    && 0 <= i <= j <= |path|
    && (i == 0 || path[i - 1] == '/') && (j == |path| || path[j] == '/')
    && forall k :: i <= k < j ==> path[k] != '/'
  }

  ghost predicate IsPiece(path: string, piece: string) {
    exists i, j :: PieceAt(path, i, j) && path[i..j] == piece
  }

  lemma {:induction false} PieceIff(path: string, piece: string)
    ensures piece in Components(path) <==> IsPiece(path, piece)
    decreases |path|
  {
    match SplitOnce(path, '/')
    case None => OnlyPiece(path);
    case Some((first, rest)) =>
      PieceIff(rest, piece);
      FirstPiece(path, first, rest, piece);
      hide IsPiece;
      assert piece in Components(path) <==> piece == first || piece in Components(rest);
  }

  lemma OnlyPiece(path: string)
    requires '/' !in path
    ensures forall piece :: IsPiece(path, piece) <==> piece == path
  {
    assert PieceAt(path, 0, |path|) && path[0..|path|] == path;
    assert forall i, j :: PieceAt(path, i, j) ==> i == 0 && j == |path|;
  }

  // The pieces of a path are its first one and those of the rest.
  lemma FirstPiece(path: string, first: string, rest: string, piece: string)
    requires path == first + ['/'] + rest && '/' !in first
    ensures IsPiece(path, piece) <==> piece == first || IsPiece(rest, piece)
  {
    var n := |first|;
    if i, j :| PieceAt(path, i, j) && path[i..j] == piece {
      PieceInRest(path, first, rest, i, j);
    }
    if piece == first {
      assert PieceAt(path, 0, n) && path[0..n] == first;
    }
    if i, j :| PieceAt(rest, i, j) && rest[i..j] == piece {
      PieceOfRest(path, first, rest, i, j);
    }
  }

  lemma PieceInRest(path: string, first: string, rest: string, i: int, j: int)
    requires path == first + ['/'] + rest && '/' !in first && PieceAt(path, i, j)
    ensures path[i..j] == first || IsPiece(rest, path[i..j])
  {
    var n := |first|;
    assert path[n] == '/' && forall k :: 0 <= k < n ==> path[k] == first[k] && path[k] != '/';
    if i > n {
      assert forall k :: 0 <= k < |rest| ==> path[k + n + 1] == rest[k];
      assert PieceAt(rest, i - n - 1, j - n - 1);
      assert rest[i - n - 1..j - n - 1] == path[i..j];
    } else {
      assert i == 0 && j == n;
    }
  }

  lemma PieceOfRest(path: string, first: string, rest: string, i: int, j: int)
    requires path == first + ['/'] + rest && PieceAt(rest, i, j)
    ensures IsPiece(path, rest[i..j])
  {
    var n := |first|;
    assert forall k :: 0 <= k < |rest| ==> path[k + n + 1] == rest[k];
    assert path[n] == '/';
    assert PieceAt(path, i + n + 1, j + n + 1);
    assert path[i + n + 1..j + n + 1] == rest[i..j];
  }

  // Accepted are the single dot and the paths without backslash none of whose
  // pieces is empty, a dot or two dots: so none that is empty or starts or ends
  // with a slash.
  lemma RelativeText(path: string)
    ensures IsRelative(path) <==>
            && '\\' !in path
            && (path == "." || (!IsPiece(path, "") && !IsPiece(path, ".") && !IsPiece(path, "..")))
  {
    RelativeIff(path);
    PieceIff(path, "");
    PieceIff(path, ".");
    PieceIff(path, "..");
    hide IsRelative, Components, IsPiece;
  }
}
