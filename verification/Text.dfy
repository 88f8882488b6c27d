// Character-level text handling: trimming, splitting at a separator, and the
// decimal rendering of integers together with the parsers that read it back.
module Text {
  import opened Wrappers

  /* ---------- Splitting ---------- */

  // Split at the first occurrence of `c`, which belongs to neither half.
  function SplitOnce(s: string, c: char): (r: Option<(string, string)>)
    ensures r.None? <==> c !in s
    ensures r.Some? ==> c !in r.value.0 && s == r.value.0 + [c] + r.value.1
  {
    if s == "" then None
    else if s[0] == c then
      assert s == "" + [c] + s[1..];
      Some(("", s[1..]))
    else
      match SplitOnce(s[1..], c)
      case None => None
      case Some((a, b)) =>
        assert s == [s[0]] + s[1..] == ([s[0]] + a) + [c] + b;
        Some(([s[0]] + a, b))
  }

  // Split at the last occurrence of `c`.
  function RSplitOnce(s: string, c: char): (r: Option<(string, string)>)
    ensures r.None? <==> c !in s
    ensures r.Some? ==> c !in r.value.1 && s == r.value.0 + [c] + r.value.1
  {
    if s == "" then None
    else
      var last := |s| - 1;
      assert s == s[..last] + [s[last]];
      if s[last] == c then
        assert s == s[..last] + [c] + "";
        Some((s[..last], ""))
      else
        match RSplitOnce(s[..last], c)
        case None => None
        case Some((a, b)) =>
          assert s == a + [c] + (b + [s[last]]);
          Some((a, b + [s[last]]))
  }

  // A separator that does not occur in the left part fixes both parts.
  lemma SeparatorUnique(a: string, b: string, a': string, b': string, c: char)
    requires c !in a && c !in a'
    requires a + [c] + b == a' + [c] + b'
    ensures a == a' && b == b'
  {
    var s := a + [c] + b;
    assert s[|a|] == c && s[|a'|] == c;
    assert a == s[..|a|] == a';
    assert b == s[|a| + 1..] == b';
  }

  lemma SeparatorUniqueLast(a: string, b: string, a': string, b': string, c: char)
    requires c !in b && c !in b'
    requires a + [c] + b == a' + [c] + b'
    ensures a == a' && b == b'
  {
    var s := a + [c] + b;
    assert s[|a|] == c && s[|a'|] == c;
    assert a == s[..|a|] == a';
    assert b == s[|a| + 1..] == b';
  }

  lemma SplitOnceOf(a: string, b: string, c: char)
    requires c !in a
    ensures SplitOnce(a + [c] + b, c) == Some((a, b))
  {
    var s := a + [c] + b;
    assert s[|a|] == c;
    var parts := SplitOnce(s, c).value;
    SeparatorUnique(a, b, parts.0, parts.1, c);
  }

  lemma RSplitOnceOf(a: string, b: string, c: char)
    requires c !in b
    ensures RSplitOnce(a + [c] + b, c) == Some((a, b))
  {
    var s := a + [c] + b;
    assert s[|a|] == c;
    var parts := RSplitOnce(s, c).value;
    SeparatorUniqueLast(a, b, parts.0, parts.1, c);
  }

  /* ---------- Trimming ---------- */

  // The Unicode White_Space property, which `str::trim` strips.
  predicate IsSpace(c: char) {
    '\t' <= c <= '\r' || c == ' ' || c == '\U{85}' || c == '\U{A0}' || c == '\U{1680}'
    || '\U{2000}' <= c <= '\U{200A}' || c == '\U{2028}' || c == '\U{2029}'
    || c == '\U{202F}' || c == '\U{205F}' || c == '\U{3000}'
  }

  function TrimStart(s: string): string {
    if s != "" && IsSpace(s[0]) then TrimStart(s[1..]) else s
  }

  function TrimEnd(s: string): string {
    if s != "" && IsSpace(s[|s| - 1]) then TrimEnd(s[..|s| - 1]) else s
  }

  function Trim(s: string): string {
    TrimEnd(TrimStart(s))
  }

  predicate Blank(s: string) {
    Trim(s) == ""
  }

  // What is cut off the end is all space, and what stays does not end in one.
  lemma {:induction false} TrimEndLaw(s: string)
    ensures var t := TrimEnd(s);
            && t <= s
            && (forall c <- s[|t|..] :: IsSpace(c))
            && (t != "" ==> !IsSpace(t[|t| - 1]))
            && (t == "" <==> forall c <- s :: IsSpace(c))
  {
    if s != "" && IsSpace(s[|s| - 1]) {
      TrimEndLaw(s[..|s| - 1]);
      assert s == s[..|s| - 1] + [s[|s| - 1]];
      var t := TrimEnd(s[..|s| - 1]);
      assert s[|t|..] == s[..|s| - 1][|t|..] + [s[|s| - 1]];
    }
  }

  lemma {:induction false} TrimStartLaw(s: string)
    ensures (exists c <- TrimStart(s) :: !IsSpace(c)) <==> (exists c <- s :: !IsSpace(c))
  {
    if s != "" && IsSpace(s[0]) {
      TrimStartLaw(s[1..]);
      assert s == [s[0]] + s[1..];
    }
  }

  lemma BlankIff(s: string)
    ensures Blank(s) <==> forall c <- s :: IsSpace(c)
  {
    TrimStartLaw(s);
    TrimEndLaw(TrimStart(s));
  }

  ghost predicate AllSpace(s: string) {
    forall c <- s :: IsSpace(c)
  }

  // `t` is `s` without the space at its ends.
  ghost predicate Trimmed(s: string, t: string) {
    && (exists a, b :: s == a + t + b && AllSpace(a) && AllSpace(b))
    && (t != "" ==> !IsSpace(t[0]) && !IsSpace(t[|t| - 1]))
  }

  lemma {:induction false} TrimStartDrops(a: string, s: string)
    requires AllSpace(a)
    ensures TrimStart(a + s) == TrimStart(s)
  {
    hide IsSpace;
    if a == "" {
      assert a + s == s;
    } else {
      assert a[0] in a && forall c <- a[1..] :: c in a;
      TrimStartDrops(a[1..], s);
      assert (a + s)[1..] == a[1..] + s;
    }
  }

  lemma {:induction false} TrimEndDrops(s: string, b: string)
    requires AllSpace(b)
    ensures TrimEnd(s + b) == TrimEnd(s)
  {
    hide IsSpace;
    if b == "" {
      assert s + b == s;
    } else {
      var last := |b| - 1;
      assert b[last] in b && forall c <- b[..last] :: c in b;
      TrimEndDrops(s, b[..last]);
      assert (s + b)[..|s + b| - 1] == s + b[..last];
    }
  }

  lemma {:induction false} TrimStartParts(s: string) returns (a: string)
    ensures s == a + TrimStart(s) && AllSpace(a)
    ensures TrimStart(s) != "" ==> !IsSpace(TrimStart(s)[0])
  {
    hide IsSpace;
    if s != "" && IsSpace(s[0]) {
      var rest := TrimStartParts(s[1..]);
      a := [s[0]] + rest;
      assert s == [s[0]] + s[1..];
    } else {
      a := "";
    }
  }

  // Trimming takes exactly the space at both ends.
  lemma TrimIff(s: string, t: string)
    ensures Trim(s) == t <==> Trimmed(s, t)
  {
    TrimTrims(s);
    hide Trim, IsSpace;
    if Trimmed(s, t) {
      var a, b :| s == a + t + b && AllSpace(a) && AllSpace(b);
      TrimOfParts(a, t, b);
    }
  }

  lemma TrimTrims(s: string)
    ensures Trimmed(s, Trim(s))
  {
    hide IsSpace, TrimStart, TrimEnd;
    var a := TrimStartParts(s);
    var rest, t := TrimStart(s), Trim(s);
    TrimEndLaw(rest);
    var b := rest[|t|..];
    assert rest == t + b;
    assert s == a + t + b && AllSpace(a) && AllSpace(b);
    assert t != "" ==> t[0] == rest[0];
  }

  lemma TrimOfParts(a: string, t: string, b: string)
    requires AllSpace(a) && AllSpace(b) && (t != "" ==> !IsSpace(t[0]) && !IsSpace(t[|t| - 1]))
    ensures Trim(a + t + b) == t
  {
    hide IsSpace;
    assert a + t + b == a + (t + b);
    TrimStartDrops(a, t + b);
    if t == "" {
      assert t + b == b && b + "" == b;
      TrimStartDrops(b, "");
    } else {
      assert (t + b)[0] == t[0];
      TrimEndDrops(t, b);
    }
  }

  // The code points of white space.
  lemma IsSpaceIff(c: char)
    ensures IsSpace(c) <==>
            c as int in {9, 10, 11, 12, 13, 32, 133, 160, 5760, 8192, 8193, 8194, 8195, 8196, 8197, 8198, 8199, 8200,
                         8201, 8202, 8232, 8233, 8239, 8287, 12288}
  {
  }

  /* ---------- Decimal integers ---------- */

  predicate IsDigit(c: char) {
    '0' <= c <= '9'
  }

  function DigitChar(d: nat): (c: char)
    requires d < 10
    ensures IsDigit(c) && c as int - '0' as int == d
  {
    ('0' as int + d) as char
  }

  function Digits(n: nat): (s: string)
    ensures s != "" && forall c <- s :: IsDigit(c)
  {
    if n < 10 then [DigitChar(n)] else Digits(n / 10) + [DigitChar(n % 10)]
  }

  // `to_string` of a signed integer.
  function Render(i: int): string {
    if i < 0 then "-" + Digits(-i) else Digits(i)
  }

  // The value of a non-empty run of digits; leading zeros are allowed.
  function ParseDigits(s: string): (r: Option<nat>)
    ensures r.Some? <==> s != "" && forall c <- s :: IsDigit(c)
  {
    if s == "" then None
    else
      var last := |s| - 1;
      assert forall c <- s :: c in s[..last] || c == s[last];
      if !IsDigit(s[last]) then None
      else
        var d: nat := s[last] as int - '0' as int;
        if last == 0 then Some(d)
        else match ParseDigits(s[..last])
          case None => None
          case Some(high) => Some(high * 10 + d)
  }

  const I64_MIN := -0x8000_0000_0000_0000
  const I64_MAX := 0x7fff_ffff_ffff_ffff
  const U16_MAX := 0xffff

  // `str::parse::<i64>`: an optional sign, digits, and a range check.
  function ParseI64(s: string): (r: Option<int>)
    ensures r.Some? ==> I64_MIN <= r.value <= I64_MAX
  {
    var negative := s != "" && s[0] == '-';
    var magnitude := ParseDigits(if s != "" && (s[0] == '-' || s[0] == '+') then s[1..] else s);
    if magnitude.None? then None
    else
      var m: int := magnitude.value;
      var value := if negative then -m else m;
      if I64_MIN <= value <= I64_MAX then Some(value) else None
  }

  // `str::parse::<u16>`: a leading `+` is allowed, a leading `-` is not.
  function ParseU16(s: string): (r: Option<nat>)
    ensures r.Some? ==> r.value <= U16_MAX
  {
    var magnitude := ParseDigits(if s != "" && s[0] == '+' then s[1..] else s);
    if magnitude.Some? && magnitude.value <= U16_MAX then magnitude else None
  }

  lemma {:induction false} ParseDigitsOf(n: nat)
    ensures ParseDigits(Digits(n)) == Some(n)
  {
    if n >= 10 {
      ParseDigitsOf(n / 10);
      var s := Digits(n);
      assert s[..|s| - 1] == Digits(n / 10);
    }
  }

  lemma ParseI64OfRender(i: int)
    requires I64_MIN <= i <= I64_MAX
    ensures ParseI64(Render(i)) == Some(i)
  {
    if i < 0 {
      ParseDigitsOf(-i);
      assert Render(i)[1..] == Digits(-i);
    } else {
      ParseDigitsOf(i);
      assert IsDigit(Digits(i)[0]);
    }
  }

  lemma ParseU16OfDigits(n: nat)
    requires n <= U16_MAX
    ensures ParseU16(Digits(n)) == Some(n)
  {
    ParseDigitsOf(n);
    assert IsDigit(Digits(n)[0]);
  }

  /* ---------- What the parsers accept ---------- */

  ghost predicate AllDigits(s: string) {
    s != "" && forall c <- s :: '0' <= c <= '9'
  }

  // Positional value, the most significant digit first.
  ghost function Value(s: string): int {
    if s == "" then 0 else 10 * Value(s[..|s| - 1]) + (s[|s| - 1] as int - '0' as int)
  }

  lemma {:induction false} ParseDigitsIff(s: string)
    ensures ParseDigits(s).Some? <==> AllDigits(s)
    ensures AllDigits(s) ==> ParseDigits(s).value == Value(s)
  {
    if AllDigits(s) {
      var last := |s| - 1;
      assert s[last] in s && forall c <- s[..last] :: c in s;
      if last == 0 {
        assert s[..0] == "";
      } else {
        ParseDigitsIff(s[..last]);
      }
    }
  }

  ghost predicate Signed(s: string, sign: string, digits: string) {
    s == sign + digits && AllDigits(digits)
  }

  // Exactly an optional sign and digits, of a value that fits.
  lemma ParseI64Iff(s: string, n: int)
    ensures ParseI64(s) == Some(n) <==>
            && -9223372036854775808 <= n <= 9223372036854775807
            && exists digits :: (Signed(s, "", digits) && n == Value(digits))
                             || (Signed(s, "+", digits) && n == Value(digits))
                             || (Signed(s, "-", digits) && n == -Value(digits))
  {
    var negative, plus := s != "" && s[0] == '-', s != "" && s[0] == '+';
    var unsigned := if negative || plus then s[1..] else s;
    ParseDigitsIff(unsigned);
    SignedIff(s);
    hide Value, Signed;
  }

  // The sign is the first character, if it is one.
  lemma SignedIff(s: string)
    ensures var negative, plus := s != "" && s[0] == '-', s != "" && s[0] == '+';
            && (forall digits :: Signed(s, "", digits) <==> !negative && !plus && digits == s && AllDigits(s))
            && (forall digits :: Signed(s, "+", digits) <==> plus && digits == s[1..] && AllDigits(s[1..]))
            && (forall digits :: Signed(s, "-", digits) <==> negative && digits == s[1..] && AllDigits(s[1..]))
  {
    if s != "" {
      assert s == [s[0]] + s[1..] && s == "" + s;
    }
    forall digits | AllDigits(digits)
      ensures '0' <= digits[0] <= '9'
    {
      assert digits[0] in digits;
    }
  }

  lemma ParseU16Iff(s: string, n: nat)
    ensures ParseU16(s) == Some(n) <==>
            && n <= 65535
            && exists digits :: (Signed(s, "", digits) || Signed(s, "+", digits)) && n == Value(digits)
  {
    var unsigned := if s != "" && s[0] == '+' then s[1..] else s;
    ParseDigitsIff(unsigned);
    SignedIff(s);
    if s != "" && s[0] == '-' {
      assert s[0] in s;
    }
    hide Value, Signed;
  }

  // A number is written with the digits of its value, without leading zeros.
  lemma {:induction false} DigitsValue(n: nat)
    ensures AllDigits(Digits(n)) && Value(Digits(n)) == n
    ensures Digits(n)[0] == '0' ==> n == 0 && Digits(n) == "0"
  {
    if n < 10 {
      assert Digits(n)[..0] == "";
    } else {
      DigitsValue(n / 10);
      var s := Digits(n);
      assert s[..|s| - 1] == Digits(n / 10);
    }
  }

  lemma DigitsInjective(m: nat, n: nat)
    requires Digits(m) == Digits(n)
    ensures m == n
  {
    ParseDigitsOf(m);
    ParseDigitsOf(n);
  }

  lemma RenderSign(i: int)
    ensures Render(i) != ""
    ensures if i < 0 then Render(i)[0] == '-' else IsDigit(Render(i)[0])
  {
    if i >= 0 {
      assert Digits(i)[0] in Digits(i);
    }
  }

  lemma RenderInjective(i: int, j: int)
    requires Render(i) == Render(j)
    ensures i == j
  {
    RenderSign(i);
    RenderSign(j);
    if i < 0 && j < 0 {
      assert Render(i)[1..] == Digits(-i) && Render(j)[1..] == Digits(-j);
      DigitsInjective(-i, -j);
    } else {
      DigitsInjective(i, j);
    }
  }
}
