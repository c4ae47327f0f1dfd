/** Ordering of strings as Go compares them, and sorting by a string key.
    Go's `<` on strings compares UTF-8 bytes lexicographically; on Unicode
    scalar values that is the lexicographic order of code points, which is
    what `LexLess` states. */
module Order {

  /** Go's `a < b` on strings. */
  predicate LexLess(a: string, b: string)
    decreases |a|
  {
    if |b| == 0 then false
    else if |a| == 0 then true
    else if a[0] != b[0] then a[0] < b[0]
    else LexLess(a[1..], b[1..])
  }

  /** Go's `a <= b` on strings. */
  predicate LexLeq(a: string, b: string) {
    a == b || LexLess(a, b)
  }

  lemma {:induction false} LexIrreflexive(a: string)
    ensures !LexLess(a, a)
  {
    if |a| > 0 {
      LexIrreflexive(a[1..]);
    }
  }

  lemma {:induction false} LexTransitive(a: string, b: string, c: string)
    requires LexLess(a, b) && LexLess(b, c)
    ensures LexLess(a, c)
  {
    if |a| > 0 && a[0] == b[0] && b[0] == c[0] {
      LexTransitive(a[1..], b[1..], c[1..]);
    }
  }

  lemma {:induction false} LexTotal(a: string, b: string)
    ensures a == b || LexLess(a, b) || LexLess(b, a)
  {
    if |a| > 0 && |b| > 0 && a[0] == b[0] {
      LexTotal(a[1..], b[1..]);
      if a[1..] == b[1..] {
        assert a == [a[0]] + a[1..] && b == [b[0]] + b[1..];
      }
    }
  }

  lemma {:induction false} LexAsymmetric(a: string, b: string)
    requires LexLess(a, b)
    ensures !LexLess(b, a)
  {
    if |a| > 0 && a[0] == b[0] {
      LexAsymmetric(a[1..], b[1..]);
    }
  }

  lemma LexLeqTransitive(a: string, b: string, c: string)
    requires LexLeq(a, b) && LexLeq(b, c)
    ensures LexLeq(a, c)
  {
    if a != b && b != c {
      LexTransitive(a, b, c);
    }
  }

  lemma LexLeqAntisymmetric(a: string, b: string)
    requires LexLeq(a, b) && LexLeq(b, a)
    ensures a == b
  {
    if a != b {
      LexAsymmetric(a, b);
    }
  }

  /** `s` is in ascending order of `key`. */
  ghost predicate SortedBy<T>(s: seq<T>, key: T -> string) {
    forall i, j :: 0 <= i < j < |s| ==> LexLeq(key(s[i]), key(s[j]))
  }

  /** `x` inserted into the sorted `s` before the first element with a
      greater key. */
  function InsertBy<T>(x: T, s: seq<T>, key: T -> string): (r: seq<T>)
    requires SortedBy(s, key)
    ensures SortedBy(r, key)
    ensures multiset(r) == multiset(s) + multiset{x}
  {
    if s == [] then [x]
    else if LexLeq(key(x), key(s[0])) then
      forall j | 0 <= j < |s| ensures LexLeq(key(x), key(s[j])) {
        LexLeqTransitive(key(x), key(s[0]), key(s[j]));
      }
      [x] + s
    else
      var rest := InsertBy(x, s[1..], key);
      LexTotal(key(x), key(s[0]));
      forall k | 0 <= k < |rest| ensures LexLeq(key(s[0]), key(rest[k])) {
        assert rest[k] in multiset(s[1..]) + multiset{x} by {
          assert rest[k] in multiset(rest);
        }
        if rest[k] != x {
          assert rest[k] in s[1..];
          var j :| 0 <= j < |s[1..]| && s[1..][j] == rest[k];
          assert s[j + 1] == rest[k];
        }
      }
      assert s == [s[0]] + s[1..];
      [s[0]] + rest
  }

  /** A sort by `key`: ascending order and the same elements. Go's
      `sort.Slice` and `slices.Sort` promise exactly this (neither is
      stable); this insertion sort is one such order. */
  function SortBy<T>(s: seq<T>, key: T -> string): (r: seq<T>)
    ensures SortedBy(r, key)
    ensures multiset(r) == multiset(s)
  {
    if s == [] then []
    else
      assert s == [s[0]] + s[1..];
      InsertBy(s[0], SortBy(s[1..], key), key)
  }

  /** The first element of a sorted sequence has the least key. */
  lemma HeadIsLeast<T>(s: seq<T>, key: T -> string, y: T)
    requires SortedBy(s, key) && y in multiset(s)
    ensures LexLeq(key(s[0]), key(y))
  {
    assert y in s;
    var i :| 0 <= i < |s| && s[i] == y;
    if i > 0 {
      assert LexLeq(key(s[0]), key(s[i]));
    }
  }

  /** The identity key, for sorting strings themselves (`slices.Sort`). */
  function Self(s: string): string { s }

  /** There is only one ascending arrangement of a multiset of strings: two
      sorted sequences with the same elements are equal. */
  lemma {:induction false} SortedUnique(a: seq<string>, b: seq<string>)
    requires SortedBy(a, Self) && SortedBy(b, Self)
    requires multiset(a) == multiset(b)
    ensures a == b
  {
    if a != [] {
      SameHead(a, b);
      SameTails(a, b);
      SortedTail(a, Self);
      SortedTail(b, Self);
      SortedUnique(a[1..], b[1..]);
      assert a == [a[0]] + a[1..] && b == [b[0]] + b[1..];
    }
  }

  /** Two non-empty sorted sequences of the same strings start alike. */
  lemma SameHead(a: seq<string>, b: seq<string>)
    requires SortedBy(a, Self) && SortedBy(b, Self)
    requires multiset(a) == multiset(b) && a != []
    ensures b != [] && a[0] == b[0]
  {
    assert |b| == |multiset(b)| == |multiset(a)| == |a|;
    assert a[0] in multiset(a) && b[0] in multiset(b);
    HeadIsLeast(a, Self, b[0]);
    HeadIsLeast(b, Self, a[0]);
    LexLeqAntisymmetric(a[0], b[0]);
  }

  /** Removing the same first element leaves the same elements. */
  lemma SameTails<T>(a: seq<T>, b: seq<T>)
    requires multiset(a) == multiset(b) && a != [] && b != [] && a[0] == b[0]
    ensures multiset(a[1..]) == multiset(b[1..])
  {
    assert a == [a[0]] + a[1..] && b == [b[0]] + b[1..];
    assert multiset(a[1..]) == multiset(a) - multiset{a[0]};
    assert multiset(b[1..]) == multiset(b) - multiset{b[0]};
  }

  /** The tail of a sorted sequence is sorted. */
  lemma SortedTail<T>(s: seq<T>, key: T -> string)
    requires SortedBy(s, key) && s != []
    ensures SortedBy(s[1..], key)
  {
    forall i, j | 0 <= i < j < |s| - 1 ensures LexLeq(key(s[1..][i]), key(s[1..][j])) {
      assert s[1..][i] == s[i + 1] && s[1..][j] == s[j + 1];
    }
  }

  /** `slices.Sort` on strings: sorting gives the same list for any two
      arrangements of the same strings. */
  lemma SortStringsCanonical(a: seq<string>, b: seq<string>)
    requires multiset(a) == multiset(b)
    ensures SortBy(a, Self) == SortBy(b, Self)
  {
    SortedUnique(SortBy(a, Self), SortBy(b, Self));
  }
}
