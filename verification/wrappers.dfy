/** An optional value and a value-or-error result. */
module Wrappers {

  /** A value that may be absent: a Python `None`, or a file that does not exist. */
  datatype Option<+T> = None | Some(value: T) {

    /** The wrapped value, or `default` when there is none. */
    function GetOr(default: T): T
    {
      match this
      case Some(v) => v
      case None => default
    }
  }

  /** The outcome of a call that either returns a value or raises an error. */
  datatype Result<+R, +E> = Success(value: R) | Failure(error: E)

  /** The values `f` yields over `xs`, in order, skipping the elements it yields nothing for. */
  function FilterMap<A, B>(f: A -> Option<B>, xs: seq<A>): (ys: seq<B>)
    ensures |ys| <= |xs|
    decreases |xs|
  {
    if |xs| == 0 then []
    else (match f(xs[0]) case Some(y) => [y] case None => []) + FilterMap(f, xs[1..])
  }

  /** Every value `FilterMap` keeps satisfies what every value of `f` satisfies. */
  lemma {:induction false} FilterMapAll<A, B>(f: A -> Option<B>, xs: seq<A>, p: B -> bool)
    requires forall x :: f(x).Some? ==> p(f(x).value)
    ensures forall k :: 0 <= k < |FilterMap(f, xs)| ==> p(FilterMap(f, xs)[k])
    decreases |xs|
  {
    if |xs| > 0 {
      FilterMapAll(f, xs[1..], p);
    }
  }

  /** `FilterMap` over a concatenation is the concatenation of the two results. */
  lemma {:induction false} FilterMapAppend<A, B>(f: A -> Option<B>, a: seq<A>, b: seq<A>)
    ensures FilterMap(f, a + b) == FilterMap(f, a) + FilterMap(f, b)
    decreases |a|
  {
    if |a| > 0 {
      assert (a + b)[1..] == a[1..] + b;
      FilterMapAppend(f, a[1..], b);
    } else {
      assert a + b == b;
    }
  }

  /** One element yields its value, or nothing. */
  lemma FilterMapSingle<A, B>(f: A -> Option<B>, x: A)
    ensures FilterMap(f, [x]) == if f(x).Some? then [f(x).value] else []
  {
    assert [x][1..] == [];
  }

  /** When `f` yields a value for every element, `FilterMap` is exactly those values, in order. */
  lemma {:induction false} FilterMapTotal<A, B>(f: A -> Option<B>, xs: seq<A>, ys: seq<B>)
    requires |xs| == |ys|
    requires forall k :: 0 <= k < |xs| ==> f(xs[k]) == Some(ys[k])
    ensures FilterMap(f, xs) == ys
    decreases |xs|
  {
    if |xs| > 0 {
      FilterMapTotal(f, xs[1..], ys[1..]);
      assert ys == [ys[0]] + ys[1..];
    }
  }
}
