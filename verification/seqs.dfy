/** Order-preserving selections from sequences: list comprehensions with a
    condition, and the groups of a group-by. */
module Seqs {
  import opened Wrappers

  /** Element `i` is the first of `xs` on which `f` fails, and it fails with `e`. */
  ghost predicate FailsFirstAt<T, U, E>(f: T -> Result<Option<U>, E>, xs: seq<T>, i: nat, e: E) {
    && i < |xs| && f(xs[i]) == Failure(e)
    && forall k :: 0 <= k < i ==> f(xs[k]).Success?
  }

  /** `[g(x) for x in xs if ...]` where evaluating an element may raise: `f`
      gives `Failure` for an element whose evaluation raises, `Success(None)`
      for one the condition drops and `Success(Some(y))` for one that is
      kept. The first failure ends the whole evaluation. */
  function TryFilterMap<T, U, E>(f: T -> Result<Option<U>, E>, xs: seq<T>): (r: Result<seq<U>, E>)
    ensures r.Success? <==> forall i :: 0 <= i < |xs| ==> f(xs[i]).Success?
    ensures r.Success? ==> |r.value| <= |xs|
    ensures r.Success? ==> (r.value == [] <==> forall i :: 0 <= i < |xs| ==> f(xs[i]) == Success(None))
    ensures r.Failure? ==> exists i: nat :: FailsFirstAt(f, xs, i, r.error)
  {
    if xs == [] then Success([])
    else
      var rest := xs[1..];
      assert forall i :: 1 <= i < |xs| ==> xs[i] == rest[i - 1];
      match f(xs[0])
      case Failure(e) =>
        assert FailsFirstAt(f, xs, 0, e);
        Failure(e)
      case Success(head) =>
        match TryFilterMap(f, rest)
        case Failure(e) =>
          FirstFailureShifts(f, xs, e);
          Failure(e)
        case Success(ys) => Success((match head case Some(y) => [y] case None => []) + ys)
  }

  /** A first failure in the tail of `xs` is the first failure of `xs` when
      the head succeeds. */
  lemma FirstFailureShifts<T, U, E>(f: T -> Result<Option<U>, E>, xs: seq<T>, e: E)
    requires xs != [] && f(xs[0]).Success?
    requires exists i: nat :: FailsFirstAt(f, xs[1..], i, e)
    ensures exists i: nat :: FailsFirstAt(f, xs, i, e)
  {
    var i: nat :| FailsFirstAt(f, xs[1..], i, e);
    assert f(xs[i + 1]) == Failure(e);
    forall k | 0 <= k < i + 1
      ensures f(xs[k]).Success?
    {
      if k > 0 {
        assert xs[k] == xs[1..][k - 1];
      }
    }
    assert FailsFirstAt(f, xs, i + 1, e);
  }

  /** The kept values are exactly the `Some` results of the elements. */
  lemma {:induction false} TryFilterMapMembers<T, U, E>(f: T -> Result<Option<U>, E>, xs: seq<T>, y: U)
    requires TryFilterMap(f, xs).Success?
    ensures y in TryFilterMap(f, xs).value <==> exists i :: 0 <= i < |xs| && f(xs[i]) == Success(Some(y))
  {
    if xs != [] {
      var rest := xs[1..];
      TryFilterMapMembers(f, rest, y);
      assert forall i :: 1 <= i < |xs| ==> xs[i] == rest[i - 1];
      if exists i :: 0 <= i < |xs| && f(xs[i]) == Success(Some(y)) {
        var i :| 0 <= i < |xs| && f(xs[i]) == Success(Some(y));
        if i > 0 {
          assert f(rest[i - 1]) == Success(Some(y));
        }
      }
    }
  }

  /** One element: its failure, its kept value, or nothing. */
  lemma TryFilterMapSingle<T, U, E>(f: T -> Result<Option<U>, E>, x: T)
    ensures TryFilterMap(f, [x]) == match f(x)
      case Failure(e) => Failure(e)
      case Success(Some(y)) => Success([y])
      case Success(None) => Success([])
  {
    assert [x][1..] == [];
    match f(x)
    case Failure(e) =>
    case Success(Some(y)) => assert [y] + [] == [y];
    case Success(None) =>
  }

  /** Evaluation runs left to right: on a concatenation, a failure in the
      first part wins, and otherwise the kept values are concatenated. */
  lemma {:induction false} TryFilterMapAppend<T, U, E>(f: T -> Result<Option<U>, E>, a: seq<T>, b: seq<T>)
    ensures TryFilterMap(f, a + b) == match TryFilterMap(f, a)
      case Failure(e) => Failure(e)
      case Success(ya) => match TryFilterMap(f, b)
        case Failure(e) => Failure(e)
        case Success(yb) => Success(ya + yb)
  {
    if a == [] {
      assert a + b == b;
      match TryFilterMap(f, b)
      case Failure(e) =>
      case Success(yb) => assert [] + yb == yb;
    } else {
      assert (a + b)[0] == a[0] && (a + b)[1..] == a[1..] + b;
      TryFilterMapAppend(f, a[1..], b);
      match f(a[0])
      case Failure(e) =>
      case Success(head) =>
        var h: seq<U> := match head case Some(y) => [y] case None => [];
        match TryFilterMap(f, a[1..])
        case Failure(e) =>
        case Success(ya) =>
          match TryFilterMap(f, b)
          case Failure(e) =>
          case Success(yb) => assert h + (ya + yb) == (h + ya) + yb;
    }
  }

  /** The elements of `xs` that satisfy `p`, in the order of `xs`. */
  function Filter<T(!new)>(p: T -> bool, xs: seq<T>): (ys: seq<T>)
    ensures |ys| <= |xs|
    ensures forall y :: y in ys <==> y in xs && p(y)
  {
    if xs == [] then []
    else (if p(xs[0]) then [xs[0]] else []) + Filter(p, xs[1..])
  }

  lemma {:induction false} FilterAppend<T(!new)>(p: T -> bool, a: seq<T>, b: seq<T>)
    ensures Filter(p, a + b) == Filter(p, a) + Filter(p, b)
  {
    if a == [] {
      assert a + b == b;
    } else {
      var head := if p(a[0]) then [a[0]] else [];
      calc {
        Filter(p, a + b);
        { assert (a + b)[0] == a[0] && (a + b)[1..] == a[1..] + b; }
        head + Filter(p, a[1..] + b);
        { FilterAppend(p, a[1..], b); }
        head + (Filter(p, a[1..]) + Filter(p, b));
        (head + Filter(p, a[1..])) + Filter(p, b);
      }
    }
  }

  /** Filtering keeps every occurrence of an element that satisfies `p` and
      no occurrence of one that does not. */
  lemma {:induction false} FilterMultiplicity<T(!new)>(p: T -> bool, xs: seq<T>, x: T)
    ensures multiset(Filter(p, xs))[x] == if p(x) then multiset(xs)[x] else 0
  {
    if xs != [] {
      FilterMultiplicity(p, xs[1..], x);
      assert xs == [xs[0]] + xs[1..];
      assert multiset(xs) == multiset([xs[0]]) + multiset(xs[1..]);
      var head := if p(xs[0]) then [xs[0]] else [];
      assert multiset(Filter(p, xs)) == multiset(head) + multiset(Filter(p, xs[1..]));
    }
  }

  /** Filtering a sequence whose elements all satisfy `p`, or none of them,
      keeps all or nothing. */
  lemma {:induction false} FilterUniform<T(!new)>(p: T -> bool, xs: seq<T>)
    requires (forall k :: 0 <= k < |xs| ==> p(xs[k])) || (forall k :: 0 <= k < |xs| ==> !p(xs[k]))
    ensures Filter(p, xs) == if xs != [] && p(xs[0]) then xs else []
  {
    if xs != [] {
      FilterUniform(p, xs[1..]);
      if |xs| > 1 {
        assert xs[1..][0] == xs[1];
      }
    }
  }
}
