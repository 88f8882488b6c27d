// Insertion-ordered collections without repeats, as Python's dict gives them:
// the first element with a key stays, later ones with the same key are dropped.
module OrderedSets {
  ghost function Keys<T, K>(s: seq<T>, key: T -> K): set<K> {
    set x <- s :: key(x)
  }

  ghost predicate DistinctKeys<T, K>(s: seq<T>, key: T -> K) {
    forall i, j :: 0 <= i < j < |s| ==> key(s[i]) != key(s[j])
  }

  function AddNew<T, K(==)>(d: seq<T>, x: T, key: T -> K): seq<T> {
    if exists i :: 0 <= i < |d| && key(d[i]) == key(x) then d else d + [x]
  }

  // Add the elements of `s` to `d`, one after the other.
  function Absorb<T, K(==)>(d: seq<T>, s: seq<T>, key: T -> K): seq<T> {
    if s == [] then d else AddNew(Absorb(d, s[..|s| - 1], key), s[|s| - 1], key)
  }

  // The first elements of `s` with each key, in order.
  function Dedup<T, K(==)>(s: seq<T>, key: T -> K): seq<T> {
    Absorb([], s, key)
  }

  lemma AbsorbStep<T, K>(d: seq<T>, s: seq<T>, x: T, key: T -> K)
    ensures Absorb(d, s + [x], key) == AddNew(Absorb(d, s, key), x, key)
  {
    assert (s + [x])[..|s|] == s;
  }

  lemma AbsorbLast<T, K>(d: seq<T>, s: seq<T>, key: T -> K)
    requires s != []
    ensures Absorb(d, s, key) == AddNew(Absorb(d, s[..|s| - 1], key), s[|s| - 1], key)
  {
    hide AddNew;
  }

  lemma {:induction false} AbsorbConcat<T, K>(d: seq<T>, a: seq<T>, b: seq<T>, key: T -> K)
    ensures Absorb(d, a + b, key) == Absorb(Absorb(d, a, key), b, key)
  {
    if b == [] {
      assert a + b == a;
    } else {
      var n := |b| - 1;
      AbsorbConcat(d, a, b[..n], key);
      assert a + b == (a + b[..n]) + [b[n]];
      AbsorbStep(d, a + b[..n], b[n], key);
    }
  }

  // The keys of the result are those of both parts.
  lemma {:induction false} AbsorbKeys<T, K>(d: seq<T>, s: seq<T>, key: T -> K)
    ensures Keys(Absorb(d, s, key), key) == Keys(d, key) + Keys(s, key)
  {
    if s != [] {
      var n := |s| - 1;
      AbsorbKeys(d, s[..n], key);
      assert s == s[..n] + [s[n]];
      KeysConcat(s[..n], [s[n]], key);
      AddNewKeys(Absorb(d, s[..n], key), s[n], key);
    }
  }

  lemma KeysConcat<T, K>(a: seq<T>, b: seq<T>, key: T -> K)
    ensures Keys(a + b, key) == Keys(a, key) + Keys(b, key)
  {
    forall k | k in Keys(a, key) + Keys(b, key)
      ensures k in Keys(a + b, key)
    {
      var x :| (x in a || x in b) && key(x) == k;
      assert x in a + b;
    }
  }

  lemma AddNewKeys<T, K>(d: seq<T>, x: T, key: T -> K)
    ensures Keys(AddNew(d, x, key), key) == Keys(d, key) + {key(x)}
  {
    KeysConcat(d, [x], key);
    assert Keys([x], key) == {key(x)} by {
      assert x in [x];
    }
  }

  lemma AddNewWhen<T, K>(d: seq<T>, x: T, key: T -> K)
    ensures AddNew(d, x, key) == if key(x) in Keys(d, key) then d else d + [x]
  {
  }

  // Adding what is already there changes nothing.
  lemma {:induction false} AbsorbKnown<T, K>(d: seq<T>, s: seq<T>, key: T -> K)
    requires Keys(s, key) <= Keys(d, key)
    ensures Absorb(d, s, key) == d
  {
    if s != [] {
      var n := |s| - 1;
      assert forall x <- s[..n] :: x in s;
      AbsorbKnown(d, s[..n], key);
      assert s[n] in s;
      assert key(s[n]) in Keys(d, key);
    }
  }

  // Elements with distinct new keys are all added.
  lemma {:induction false} AbsorbAllNew<T, K>(d: seq<T>, s: seq<T>, key: T -> K)
    requires DistinctKeys(s, key)
    requires forall x <- d, y <- s :: key(x) != key(y)
    ensures Absorb(d, s, key) == d + s
  {
    if s != [] {
      var n := |s| - 1;
      assert forall x <- s[..n] :: x in s;
      AbsorbAllNew(d, s[..n], key);
      hide Absorb;
      assert Absorb(d, s, key) == AddNew(d + s[..n], s[n], key) by {
        AbsorbLast(d, s, key);
      }
      assert forall y <- d + s[..n] :: key(y) != key(s[n]);
      assert d + s == (d + s[..n]) + [s[n]];
    }
  }

  lemma {:induction false} AbsorbDistinct<T, K>(d: seq<T>, s: seq<T>, key: T -> K)
    requires DistinctKeys(d, key)
    ensures DistinctKeys(Absorb(d, s, key), key)
    ensures d <= Absorb(d, s, key)
  {
    if s != [] {
      AbsorbDistinct(d, s[..|s| - 1], key);
    }
  }

  // Adding the deduplicated elements adds the same.
  lemma {:induction false} AbsorbDedup<T, K>(d: seq<T>, s: seq<T>, key: T -> K)
    ensures Absorb(d, Dedup(s, key), key) == Absorb(d, s, key)
  {
    if s != [] {
      var n := |s| - 1;
      var before, x := Dedup(s[..n], key), s[n];
      AbsorbDedup(d, s[..n], key);
      assert s == s[..n] + [x];
      AbsorbStep(d, s[..n], x, key);
      AbsorbStep([], s[..n], x, key);
      if key(x) in Keys(before, key) {
        AbsorbKeys(d, before, key);
        var y :| y in before && key(y) == key(x);
        assert key(x) in Keys(before, key);
        assert key(x) in Keys(Absorb(d, before, key), key);
      } else {
        AbsorbStep(d, before, x, key);
      }
    }
  }

  // Grouping does not matter.
  lemma DedupAssociative<T, K>(a: seq<T>, b: seq<T>, c: seq<T>, key: T -> K)
    ensures Dedup(Dedup(a + b, key) + c, key) == Dedup(a + Dedup(b + c, key), key)
    ensures Dedup(a + Dedup(b + c, key), key) == Dedup(a + b + c, key)
  {
    DedupLeft(a + b, c, key);
    DedupRight(a, b + c, key);
    assert a + b + c == a + (b + c);
  }

  lemma DedupLeft<T, K>(a: seq<T>, b: seq<T>, key: T -> K)
    ensures Dedup(Dedup(a, key) + b, key) == Dedup(a + b, key)
  {
    AbsorbConcat([], Dedup(a, key), b, key);
    AbsorbDedup([], a, key);
    AbsorbConcat([], a, b, key);
  }

  lemma DedupRight<T, K>(a: seq<T>, b: seq<T>, key: T -> K)
    ensures Dedup(a + Dedup(b, key), key) == Dedup(a + b, key)
  {
    AbsorbConcat([], a, Dedup(b, key), key);
    AbsorbDedup(Dedup(a, key), b, key);
    AbsorbConcat([], a, b, key);
  }

  // A sequence is its own deduplication exactly when no key repeats.
  lemma DedupFixed<T, K>(s: seq<T>, key: T -> K)
    ensures Dedup(s, key) == s <==> DistinctKeys(s, key)
  {
    AbsorbDistinct([], s, key);
    if DistinctKeys(s, key) {
      AbsorbAllNew([], s, key);
      assert [] + s == s;
    }
  }
}
