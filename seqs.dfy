/** Order-preserving selection from a list: what a Go loop that appends the
    elements passing a test to a fresh slice computes. */
module Seqs {
  import opened Wrappers

  /** `r` is `s` with some elements left out, the rest in their order. */
  predicate IsSubsequence<T(==)>(r: seq<T>, s: seq<T>)
    decreases |s|
  {
    if r == [] then true
    else if s == [] then false
    else if r[0] == s[0] then IsSubsequence(r[1..], s[1..])
    else IsSubsequence(r, s[1..])
  }

  /** The elements of `s` that satisfy `p`, in order, duplicates included. */
  function Filter<T(==,!new)>(s: seq<T>, p: T -> bool): (r: seq<T>)
    ensures |r| <= |s|
    ensures IsSubsequence(r, s)
    ensures forall x :: x in r <==> x in s && p(x)
  {
    if s == [] then []
    else
      assert s == [s[0]] + s[1..];
      var rest := Filter(s[1..], p);
      if p(s[0]) then
        assert ([s[0]] + rest)[1..] == rest;
        [s[0]] + rest
      else
        SubsequenceSkip(rest, s);
        rest
  }

  /** Selecting keeps every passing element as often as it occurs, and no
      other element. */
  lemma {:induction false} FilterCounts<T(!new)>(s: seq<T>, p: T -> bool)
    ensures forall x :: multiset(Filter(s, p))[x] == if p(x) then multiset(s)[x] else 0
  {
    if s != [] {
      FilterCounts(s[1..], p);
      assert s == [s[0]] + s[1..];
    }
  }

  /** Dropping the head of `s` keeps every subsequence of its tail. */
  lemma {:induction false} SubsequenceSkip<T>(r: seq<T>, s: seq<T>)
    requires s != [] && IsSubsequence(r, s[1..])
    ensures IsSubsequence(r, s)
    decreases |s|, 1
  {
    if r != [] && r[0] == s[0] {
      SubsequenceTail(r, s[1..]);
    }
  }

  /** A subsequence of `s` with its head removed is still one. */
  lemma {:induction false} SubsequenceTail<T>(r: seq<T>, s: seq<T>)
    requires r != [] && IsSubsequence(r, s)
    ensures IsSubsequence(r[1..], s)
    decreases |s| + 1, 0
  {
    if r[0] != s[0] {
      SubsequenceTail(r, s[1..]);
      SubsequenceSkip(r[1..], s);
    } else if r[1..] != [] {
      SubsequenceSkip(r[1..], s);
    }
  }

  /** Selecting from a list extended by one element: the selection grows by
      that element exactly when it passes. */
  lemma {:induction false} FilterSnoc<T(!new)>(s: seq<T>, x: T, p: T -> bool)
    ensures Filter(s + [x], p) == Filter(s, p) + (if p(x) then [x] else [])
  {
    if s == [] {
      assert [] + [x] == [x];
    } else {
      assert (s + [x])[1..] == s[1..] + [x];
      FilterSnoc(s[1..], x, p);
    }
  }

  /** One step of a loop that computes `Filter`: the next element is
      appended exactly when it passes the test. */
  lemma FilterStep<T(!new)>(s: seq<T>, i: nat, p: T -> bool)
    requires i < |s|
    ensures Filter(s[..i + 1], p) == Filter(s[..i], p) + (if p(s[i]) then [s[i]] else [])
  {
    TakeSnoc(s, i);
    FilterSnoc(s[..i], s[i], p);
  }

  /** A prefix one longer is the prefix and the next element. */
  lemma TakeSnoc<T>(s: seq<T>, i: nat)
    requires i < |s|
    ensures s[..i + 1] == s[..i] + [s[i]]
  {
  }

  /** Selecting with a test every element passes keeps the whole list. */
  lemma {:induction false} FilterAll<T(!new)>(s: seq<T>, p: T -> bool)
    requires forall i :: 0 <= i < |s| ==> p(s[i])
    ensures Filter(s, p) == s
  {
    if s != [] {
      FilterAll(s[1..], p);
    }
  }

  /** A set of numbers that is not empty has an element to pick. */
  lemma SetHasElement(s: set<int>)
    ensures s == {} || exists x :: x in s
  {
    if forall x :: x !in s {
      assert s == {};
    }
  }

  /** Applies `f` to every element, in order, and fails as a whole as soon
      as one application fails: what a Go loop that appends a result per
      element and returns early on an error computes. */
  function MapAll<A, B>(xs: seq<A>, f: A -> Option<B>): (r: Option<seq<B>>)
    ensures r.Some? <==> forall i :: 0 <= i < |xs| ==> f(xs[i]).Some?
    ensures r.Some? ==> |r.value| == |xs| && forall i :: 0 <= i < |xs| ==> Some(r.value[i]) == f(xs[i])
    decreases |xs|
  {
    if xs == [] then Some([])
    else
      var init := xs[..|xs| - 1];
      assert forall i :: 0 <= i < |init| ==> init[i] == xs[i];
      match MapAll(init, f)
      case None => None
      case Some(ys) =>
        match f(xs[|xs| - 1])
        case None => None
        case Some(y) => Some(ys + [y])
  }

  /** One step of a loop that computes `MapAll`: after a prefix, the next
      element either fails the whole or extends the result by its image. */
  lemma MapAllStep<A, B>(xs: seq<A>, i: nat, f: A -> Option<B>, ys: seq<B>)
    requires i < |xs| && MapAll(xs[..i], f) == Some(ys)
    ensures f(xs[i]).None? ==> MapAll(xs, f).None?
    ensures f(xs[i]).Some? ==> MapAll(xs[..i + 1], f) == Some(ys + [f(xs[i]).value])
  {
    var pre := xs[..i + 1];
    assert pre[..|pre| - 1] == xs[..i];
    assert pre[|pre| - 1] == xs[i];
    if f(xs[i]).None? {
      assert !f(xs[i]).Some?;
    }
  }

  /** Applies `f` to every element, in order, and stops at the first
      failure, which is the outcome of the whole: what a Go loop that
      appends a result per element and returns the first error computes. */
  function MapResult<A, B>(xs: seq<A>, f: A -> Result<B>): (r: Result<seq<B>>)
    ensures r.Ok? <==> forall i :: 0 <= i < |xs| ==> f(xs[i]).Ok?
    ensures r.Ok? ==> |r.value| == |xs| && forall i :: 0 <= i < |xs| ==> r.value[i] == f(xs[i]).value
    decreases |xs|
  {
    if xs == [] then Ok([])
    else
      var init := xs[..|xs| - 1];
      assert forall i :: 0 <= i < |init| ==> init[i] == xs[i];
      var last := f(xs[|xs| - 1]);
      match MapResult(init, f)
      case Ok(ys) => if last.Ok? then Ok(ys + [last.value]) else last.PropagateFailure()
      case Err(m) => Err(m)
      case Panic(m) => Panic(m)
  }

  /** One step of a loop that computes `MapResult`: after a prefix, the
      next element either decides the outcome of the whole by its failure
      or extends the result by its value. */
  lemma MapResultStep<A, B>(xs: seq<A>, i: nat, f: A -> Result<B>, ys: seq<B>)
    requires i < |xs| && MapResult(xs[..i], f) == Ok(ys)
    ensures f(xs[i]).Failed() ==> MapResult(xs, f) == f(xs[i]).PropagateFailure()
    ensures f(xs[i]).Ok? ==> MapResult(xs[..i + 1], f) == Ok(ys + [f(xs[i]).value])
  {
    var pre := xs[..i + 1];
    assert pre[..|pre| - 1] == xs[..i];
    assert pre[|pre| - 1] == xs[i];
    MapResultSnoc(pre, f, ys);
    if f(xs[i]).Failed() {
      MapResultPrefixFails(xs, i + 1, f);
    }
  }

  /** A list whose prefix fails fails as that prefix does. */
  lemma MapResultPrefixFails<A, B>(xs: seq<A>, n: nat, f: A -> Result<B>)
    requires n <= |xs| && !MapResult(xs[..n], f).Ok?
    ensures MapResult(xs, f) == MapResult(xs[..n], f)
  {
    MapResultFailurePersists(xs[..n], xs[n..], f);
    assert xs[..n] + xs[n..] == xs;
  }

  /** `MapResult` of a non-empty list whose init maps to `ys`. */
  lemma MapResultSnoc<A, B>(xs: seq<A>, f: A -> Result<B>, ys: seq<B>)
    requires |xs| > 0 && MapResult(xs[..|xs| - 1], f) == Ok(ys)
    ensures var last := f(xs[|xs| - 1]);
      MapResult(xs, f) == if last.Ok? then Ok(ys + [last.value]) else last.PropagateFailure()
  {
  }

  /** Once a prefix fails, the whole list fails with the same outcome:
      the elements after the failing one are never looked at. */
  lemma {:induction false} MapResultFailurePersists<A, B>(xs: seq<A>, more: seq<A>, f: A -> Result<B>)
    requires !MapResult(xs, f).Ok?
    ensures MapResult(xs + more, f) == MapResult(xs, f)
    decreases |more|
  {
    if more != [] {
      var init := more[..|more| - 1];
      var all := xs + more;
      assert all[..|all| - 1] == xs + init;
      MapResultFailurePersists(xs, init, f);
      assert MapResult(all[..|all| - 1], f) == MapResult(xs, f);
    } else {
      assert xs + more == xs;
    }
  }

  /** A failed mapping fails with the outcome of the first element that
      fails; every element before it succeeded. */
  lemma {:induction false} MapResultFirstFailure<A, B>(xs: seq<A>, f: A -> Result<B>)
    requires !MapResult(xs, f).Ok?
    ensures exists i ::
      && 0 <= i < |xs| && f(xs[i]).Failed() && MapResult(xs, f) == f(xs[i]).PropagateFailure()
      && forall j :: 0 <= j < i ==> f(xs[j]).Ok?
    decreases |xs|
  {
    var init := xs[..|xs| - 1];
    assert forall k :: 0 <= k < |init| ==> init[k] == xs[k];
    if MapResult(init, f).Ok? {
      var i := |xs| - 1;
      assert f(xs[i]).Failed() && MapResult(xs, f) == f(xs[i]).PropagateFailure();
    } else {
      MapResultFirstFailure(init, f);
      var i :| 0 <= i < |init| && f(init[i]).Failed() && MapResult(init, f) == f(init[i]).PropagateFailure()
        && forall j :: 0 <= j < i ==> f(init[j]).Ok?;
      assert f(xs[i]).Failed() && MapResult(xs, f) == f(xs[i]).PropagateFailure();
    }
  }

  /** When every element maps to a known success, so does the list. */
  lemma MapResultAllOk<A, B>(xs: seq<A>, ys: seq<B>, f: A -> Result<B>)
    requires |xs| == |ys| && forall i :: 0 <= i < |xs| ==> f(xs[i]) == Ok(ys[i])
    ensures MapResult(xs, f) == Ok(ys)
  {
    var r := MapResult(xs, f);
    assert r.Ok?;
    assert r.value == ys;
  }
}
