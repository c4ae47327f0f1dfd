/** String primitives shared by the model: the subset of Go's `strings` package
    and of JavaScript's `String.prototype` that the core uses. Strings are
    sequences of Unicode scalar values; nothing here depends on an encoding. */
module Text {
  import opened Wrappers

  /** `sub` occurs in `s` starting at index `i`. */
  predicate OccursAt(s: string, sub: string, i: nat) {
    i + |sub| <= |s| && s[i..i + |sub|] == sub
  }

  /** `strings.HasSuffix`. */
  predicate HasSuffix(s: string, suffix: string) {
    |suffix| <= |s| && s[|s| - |suffix|..] == suffix
  }

  /** The first occurrence of `sub` in `s` at or after `from`. */
  function IndexFrom(s: string, sub: string, from: nat): (r: Option<nat>)
    ensures r.Some? ==> from <= r.value && OccursAt(s, sub, r.value)
    ensures r.Some? ==> forall j :: from <= j < r.value ==> !OccursAt(s, sub, j)
    ensures r.None? ==> forall j :: from <= j ==> !OccursAt(s, sub, j)
    decreases |s| - from
  {
    if from + |sub| > |s| then None
    else if s[from..from + |sub|] == sub then Some(from)
    else IndexFrom(s, sub, from + 1)
  }

  /** `strings.Index` / `String.prototype.indexOf`: the first occurrence, if any.
      The empty string occurs at 0. */
  function IndexOf(s: string, sub: string): (r: Option<nat>)
    ensures r.Some? ==> OccursAt(s, sub, r.value)
    ensures r.Some? ==> forall j :: 0 <= j < r.value ==> !OccursAt(s, sub, j)
    ensures r.None? ==> forall j :: 0 <= j ==> !OccursAt(s, sub, j)
  {
    IndexFrom(s, sub, 0)
  }

  /** `strings.Contains` / `String.prototype.includes`. */
  predicate Contains(s: string, sub: string) {
    IndexOf(s, sub).Some?
  }

  lemma OccursAtContains(s: string, sub: string, i: nat)
    requires OccursAt(s, sub, i)
    ensures Contains(s, sub)
  {
  }

  /** `strings.Split(s, sep)` for a non-empty separator: the pieces between
      the occurrences of `sep`, scanned from the left; always at least one. */
  function Split(s: string, sep: string): (parts: seq<string>)
    requires |sep| > 0
    ensures |parts| >= 1
    ensures Join(parts, sep) == s
    ensures forall k :: 0 <= k < |parts| ==> !Contains(parts[k], sep)
    decreases |s|
  {
    match IndexOf(s, sep)
    case None => [s]
    case Some(i) =>
      var head, tail := s[..i], s[i + |sep|..];
      assert s == head + sep + tail by {
        assert s[i..i + |sep|] == sep;
      }
      assert !Contains(head, sep) by {
        if Contains(head, sep) {
          var j := IndexOf(head, sep).value;
          assert s[j..j + |sep|] == head[j..j + |sep|];
          assert OccursAt(s, sep, j);
          assert false;
        }
      }
      [head] + Split(tail, sep)
  }

  /** `strings.Join`. */
  function Join(parts: seq<string>, sep: string): string {
    if |parts| == 0 then ""
    else if |parts| == 1 then parts[0]
    else parts[0] + sep + Join(parts[1..], sep)
  }

  /** The lines `ls`, each followed by a newline: what a `strings.Builder`
      holds after one `WriteString(l + "\n")` per line. */
  function Lines(ls: seq<string>): string {
    if ls == [] then "" else ls[0] + "\n" + Lines(ls[1..])
  }

  /** Splitting on a one-character separator undoes joining on it, when no
      piece contains that character. */
  lemma {:induction false} SplitJoinChar(parts: seq<string>, c: char)
    requires |parts| >= 1
    requires forall k :: 0 <= k < |parts| ==> c !in parts[k]
    ensures Split(Join(parts, [c]), [c]) == parts
  {
    var s := Join(parts, [c]);
    if |parts| == 1 {
      assert IndexOf(s, [c]).None? by {
        forall j: nat ensures !OccursAt(s, [c], j) {
          if j + 1 <= |s| {
            assert s[j..j + 1] == [s[j]];
          }
        }
      }
    } else {
      var rest := Join(parts[1..], [c]);
      assert s == parts[0] + [c] + rest;
      var n := |parts[0]|;
      assert OccursAt(s, [c], n);
      forall j: nat | j < n ensures !OccursAt(s, [c], j) {
        assert s[j] == parts[0][j];
      }
      assert IndexOf(s, [c]) == Some(n);
      assert s[..n] == parts[0];
      assert s[n + 1..] == rest;
      SplitJoinChar(parts[1..], c);
    }
  }

  /** The text of `Lines(ls)`, split on newlines, gives back the lines and a
      final empty piece, when no line contains a newline. */
  lemma {:induction false} SplitLines(ls: seq<string>)
    requires forall k :: 0 <= k < |ls| ==> '\n' !in ls[k]
    ensures Split(Lines(ls), "\n") == ls + [""]
  {
    LinesAsJoin(ls);
    SplitJoinChar(ls + [""], '\n');
  }

  lemma {:induction false} LinesAsJoin(ls: seq<string>)
    ensures Lines(ls) == Join(ls + [""], "\n")
  {
    if ls != [] {
      LinesAsJoin(ls[1..]);
      assert (ls + [""])[1..] == ls[1..] + [""];
    }
  }

  /** The first occurrence of a separator character that the left part
      does not contain is right after that part. */
  lemma FirstSeparator(a: string, b: string, x: char)
    requires x !in a
    ensures IndexOf(a + [x] + b, [x]) == Some(|a|)
  {
    var s := a + [x] + b;
    assert OccursAt(s, [x], |a|) by {
      assert s[|a|..|a| + 1] == [x];
    }
    forall j: nat | j < |a| ensures !OccursAt(s, [x], j) {
      assert s[j..j + 1] == [a[j]];
    }
  }

  /** Text joined around a separator character that occurs in neither
      left part splits back into the same parts. */
  lemma SeparatorSplit(a: string, b: string, c: string, d: string, x: char)
    requires x !in a && x !in c
    requires a + [x] + b == c + [x] + d
    ensures a == c && b == d
  {
    var s := a + [x] + b;
    FirstSeparator(a, b, x);
    FirstSeparator(c, d, x);
    assert a == s[..|a|] && c == s[..|c|];
    assert b == s[|a| + 1..] && d == s[|c| + 1..];
  }

  /** A text contains the one-character string `[c]` exactly when `c` is
      one of its characters. */
  lemma ContainsChar(s: string, c: char)
    ensures Contains(s, [c]) <==> c in s
  {
    if c in s {
      var i :| 0 <= i < |s| && s[i] == c;
      assert s[i..i + 1] == [c];
      OccursAtContains(s, [c], i);
    } else {
      forall j: nat ensures !OccursAt(s, [c], j) {
        if j + 1 <= |s| {
          assert s[j..j + 1] == [s[j]];
        }
      }
    }
  }

  /** Joining non-empty pieces gives the empty text only for no pieces. */
  lemma JoinEmpty(parts: seq<string>, sep: string)
    requires forall k :: 0 <= k < |parts| ==> |parts[k]| > 0
    ensures Join(parts, sep) == "" <==> parts == []
  {
    if |parts| > 1 {
      assert |Join(parts, sep)| >= |parts[0]|;
    }
  }

  /** Joining on a character is one-to-one on lists of non-empty pieces
      that do not contain it. */
  lemma JoinCharInjective(xs: seq<string>, ys: seq<string>, c: char)
    requires forall k :: 0 <= k < |xs| ==> |xs[k]| > 0 && c !in xs[k]
    requires forall k :: 0 <= k < |ys| ==> |ys[k]| > 0 && c !in ys[k]
    requires Join(xs, [c]) == Join(ys, [c])
    ensures xs == ys
  {
    JoinEmpty(xs, [c]);
    JoinEmpty(ys, [c]);
    if xs != [] {
      SplitJoinChar(xs, c);
      SplitJoinChar(ys, c);
    }
  }

  /** JavaScript's `s.replace(pat, rep)` with a string pattern, and Go's
      `strings.Replace(s, pat, rep, 1)`: only the first occurrence is replaced.
      An empty pattern occurs at index 0. */
  function ReplaceFirst(s: string, pat: string, rep: string): string {
    match IndexOf(s, pat)
    case None => s
    case Some(i) => s[..i] + rep + s[i + |pat|..]
  }
  /** The first occurrence found is the one at `i` when nothing matches
      earlier. */
  lemma IndexOfAt(s: string, sub: string, i: nat)
    requires OccursAt(s, sub, i)
    requires forall j :: 0 <= j < i ==> !OccursAt(s, sub, j)
    ensures IndexOf(s, sub) == Some(i)
  {
  }

  /** Every character of a non-empty text found in `s` is a character of
      `s`; in particular its first one. */
  lemma ContainsFirstChar(s: string, sub: string)
    requires |sub| > 0 && Contains(s, sub)
    ensures sub[0] in s
  {
    var i := IndexOf(s, sub).value;
    assert s[i..i + |sub|][0] == s[i];
  }

  /** Writing two lists of lines one after the other writes their
      concatenation. */
  lemma {:induction false} LinesConcat(a: seq<string>, b: seq<string>)
    ensures Lines(a + b) == Lines(a) + Lines(b)
  {
    if a != [] {
      LinesConcat(a[1..], b);
      assert (a + b)[1..] == a[1..] + b;
    } else {
      assert a + b == b;
    }
  }

  /** `ReplaceFirst` removes one occurrence of the pattern and puts the
      replacement in its place; without an occurrence nothing changes. */
  lemma ReplaceFirstLength(s: string, pat: string, rep: string)
    ensures Contains(s, pat) ==> |ReplaceFirst(s, pat, rep)| == |s| - |pat| + |rep|
    ensures !Contains(s, pat) ==> ReplaceFirst(s, pat, rep) == s
  {
  }

  /** Where a pattern none of whose characters occur in `w` is found, it
      lies wholly before or wholly after a given occurrence of `w`. */
  lemma Disjoint(s: string, pat: string, j: nat, w: string, i: nat)
    requires |w| > 0 && |pat| > 0 && OccursAt(s, w, i) && OccursAt(s, pat, j)
    requires forall k :: 0 <= k < |pat| ==> pat[k] !in w
    ensures j + |pat| <= i || i + |w| <= j
  {
    if j + |pat| > i && j < i + |w| {
      var k := if j <= i then i else j;
      SliceAt(s, i, i + |w|, k);
      SliceAt(s, j, j + |pat|, k);
      assert false;
    }
  }

  /** A text made of three parts, the last two of known widths, gives the
      parts back. */
  lemma ThreeParts(x: string, y: string, z: string, x': string, y': string, z': string)
    requires |y| == |y'| && |z| == |z'|
    requires x + y + z == x' + y' + z'
    ensures x == x' && y == y' && z == z'
  {
    var k := x + y + z;
    assert |x| == |x'|;
    assert k[..|x|] == x && (x' + y' + z')[..|x|] == x';
    assert k[|x|..|x| + |y|] == y && (x' + y' + z')[|x|..|x| + |y|] == y';
    assert k[|x| + |y|..] == z && (x' + y' + z')[|x| + |y|..] == z';
  }

  /** Indexing a slice is indexing the sequence, shifted. */
  lemma SliceAt(s: string, lo: nat, hi: nat, k: nat)
    ensures lo <= k < hi <= |s| ==> s[lo..hi][k - lo] == s[k]
  {
  }

  /** Replacing the first occurrence of a pattern none of whose characters
      occur in `w` keeps an occurrence of `w`. */
  lemma ReplaceFirstKeeps(s: string, pat: string, rep: string, w: string)
    requires |w| > 0 && Contains(s, w)
    requires forall k :: 0 <= k < |pat| ==> pat[k] !in w
    ensures Contains(ReplaceFirst(s, pat, rep), w)
  {
    var i := IndexOf(s, w).value;
    if Contains(s, pat) {
      var j := IndexOf(s, pat).value;
      if |pat| > 0 {
        Disjoint(s, pat, j, w, i);
      } else {
        assert OccursAt(s, pat, 0);
      }
      var r := s[..j] + rep + s[j + |pat|..];
      assert ReplaceFirst(s, pat, rep) == r;
      var i' := KeepOccurrence(s, j, |pat|, rep, w, i);
      OccursAtContains(r, w, i');
    }
  }

  /** Replacing `s[j..j + n]` by `rep` keeps an occurrence of `w` that does
      not overlap it, shifted when it lies after it. */
  lemma KeepOccurrence(s: string, j: nat, n: nat, rep: string, w: string, i: nat) returns (i': nat)
    requires j + n <= |s| && OccursAt(s, w, i)
    requires j + n <= i || i + |w| <= j
    ensures OccursAt(s[..j] + rep + s[j + n..], w, i')
  {
    var head, tail := s[..j], s[j + n..];
    if j + n <= i {
      assert s == s[..j + n] + tail;
      OccursSplit(s[..j + n], tail, w, i);
      OccursJoin(head + rep, tail, w, i - j - n);
      i' := |head + rep| + (i - j - n);
    } else {
      assert s == head + s[j..];
      OccursSplit(head, s[j..], w, i);
      OccursJoin(head, rep + tail, w, i);
      assert head + (rep + tail) == head + rep + tail;
      i' := i;
    }
  }

  /** An occurrence in a concatenation that lies within one side is an
      occurrence in that side. */
  lemma OccursSplit(a: string, t: string, w: string, i: nat)
    requires OccursAt(a + t, w, i)
    ensures i + |w| <= |a| ==> OccursAt(a, w, i)
    ensures |a| <= i ==> OccursAt(t, w, i - |a|)
  {
    if i + |w| <= |a| {
      assert (a + t)[i..i + |w|] == a[i..i + |w|];
    }
    if |a| <= i {
      assert (a + t)[i..i + |w|] == t[i - |a|..i - |a| + |w|];
    }
  }

  /** An occurrence in either side is one in the concatenation. */
  lemma OccursJoin(a: string, t: string, w: string, i: nat)
    ensures OccursAt(a, w, i) ==> OccursAt(a + t, w, i)
    ensures OccursAt(t, w, i) ==> OccursAt(a + t, w, |a| + i)
  {
    if OccursAt(a, w, i) {
      assert (a + t)[i..i + |w|] == a[i..i + |w|];
    }
    if OccursAt(t, w, i) {
      assert (a + t)[|a| + i..|a| + i + |w|] == t[i..i + |w|];
    }
  }

  /** A text that lacks the `k`th character of `w` does not contain `w`. */
  lemma CharsNotIn(t: string, w: string, k: nat)
    requires k < |w| && w[k] !in t
    ensures !Contains(t, w)
  {
  }
}
