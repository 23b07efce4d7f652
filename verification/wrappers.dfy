/**
 * A value that may be missing: the source's optional properties, its `null`
 * results, and its `undefined` lookups.
 */
module Wrappers {

  datatype Option<+T> = None | Some(value: T) {

    /** The value, or `fallback` when it is missing: the source's `x ?? d` and `x || d` on strings. */
    function ValueOr(fallback: T): T {
      if this.Some? then value else fallback
    }

    /** The value as a list of at most one element. */
    function ToSeq(): (r: seq<T>)
      ensures |r| <= 1
      ensures r == [] <==> this.None?
    {
      if this.Some? then [value] else []
    }
  }

  /** The present results of `f` over `xs`, in order. */
  function FilterMap<S, T>(xs: seq<S>, f: S -> Option<T>): (r: seq<T>)
    ensures |r| <= |xs|
    ensures r == [] <==> forall i :: 0 <= i < |xs| ==> f(xs[i]).None?
    ensures forall y :: y in r ==> exists i :: 0 <= i < |xs| && f(xs[i]) == Some(y)
  {
    if xs == [] then []
    else
      var rest := FilterMap(xs[1..], f);
      assert forall i :: 1 <= i < |xs| ==> xs[i] == xs[1..][i - 1];
      f(xs[0]).ToSeq() + rest
  }

  /** FilterMap keeps order: the results of a concatenation are the concatenated results. */
  lemma {:induction false} FilterMapAppend<S, T>(a: seq<S>, b: seq<S>, f: S -> Option<T>)
    ensures FilterMap(a + b, f) == FilterMap(a, f) + FilterMap(b, f)
  {
    if a != [] {
      assert (a + b)[1..] == a[1..] + b;
      FilterMapAppend(a[1..], b, f);
    } else {
      assert a + b == b;
    }
  }
}
