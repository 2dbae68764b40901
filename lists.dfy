/**
  Python's filtering list comprehension `[x for x in xs if p(x)]`, and a
  conversion applied to every element that stops at the first failure.
*/
module Lists {
  import opened Wrappers

  /** The elements of `xs` that satisfy `p`, in their order in `xs`. */
  function Filter<T>(xs: seq<T>, p: T -> bool): seq<T>
  {
    if xs == [] then []
    else Filter(xs[..|xs| - 1], p) + (if p(xs[|xs| - 1]) then [xs[|xs| - 1]] else [])
  }

  /** The filter keeps exactly the elements that satisfy the condition, and
      never more elements than it was given. */
  lemma {:induction false} FilterMembers<T>(xs: seq<T>, p: T -> bool)
    ensures |Filter(xs, p)| <= |xs|
    ensures forall x :: x in Filter(xs, p) <==> x in xs && p(x)
    decreases |xs|
  {
    if xs != [] {
      var front := xs[..|xs| - 1];
      FilterMembers(front, p);
      assert xs == front + [xs[|xs| - 1]];
    }
  }

  /** Filtering a concatenation filters each part: the filter keeps the
      input order. */
  lemma {:induction false} FilterAppend<T>(xs: seq<T>, ys: seq<T>, p: T -> bool)
    ensures Filter(xs + ys, p) == Filter(xs, p) + Filter(ys, p)
    decreases |ys|
  {
    if ys == [] {
      assert xs + ys == xs;
    } else {
      var front := ys[..|ys| - 1];
      FilterAppend(xs, front, p);
      assert (xs + ys)[..|xs + ys| - 1] == xs + front;
    }
  }

  /** When every element satisfies the condition nothing is dropped. */
  lemma {:induction false} FilterAll<T>(xs: seq<T>, p: T -> bool)
    requires forall i | 0 <= i < |xs| :: p(xs[i])
    ensures Filter(xs, p) == xs
    decreases |xs|
  {
    if xs != [] {
      FilterAll(xs[..|xs| - 1], p);
    }
  }

  /** `f` applied to the first `k` elements in order, stopping at the first
      failure. */
  function MapResult<A, B, E>(xs: seq<A>, f: A -> Result<B, E>, k: nat): (r: Result<seq<B>, E>)
    requires k <= |xs|
    ensures r.Ok? ==> |r.value| == k
  {
    if k == 0 then Ok([])
    else match MapResult(xs, f, k - 1)
      case Err(e) => Err(e)
      case Ok(ys) =>
        match f(xs[k - 1])
        case Err(e) => Err(e)
        case Ok(y) => Ok(ys + [y])
  }

  /** The conversion fails exactly when some element fails, and then with
      the first element's failure. */
  lemma {:induction false} MapResultFail<A, B, E>(xs: seq<A>, f: A -> Result<B, E>, k: nat)
    requires k <= |xs|
    ensures MapResult(xs, f, k).Err? <==> exists i | 0 <= i < k :: f(xs[i]).Err?
    ensures MapResult(xs, f, k).Err? ==>
              exists i | 0 <= i < k :: && f(xs[i]).Err?
                                     && MapResult(xs, f, k) == Err(f(xs[i]).error)
                                     && forall j | 0 <= j < i :: f(xs[j]).Ok?
    decreases k
  {
    if k > 0 {
      MapResultFail(xs, f, k - 1);
      var prev := MapResult(xs, f, k - 1);
      if prev.Err? {
        var i :| 0 <= i < k - 1 && f(xs[i]).Err? && prev == Err(f(xs[i]).error)
                 && forall j | 0 <= j < i :: f(xs[j]).Ok?;
        assert MapResult(xs, f, k) == prev;
      } else if f(xs[k - 1]).Err? {
        assert MapResult(xs, f, k) == Err(f(xs[k - 1]).error);
      }
    }
  }

  /** Otherwise element `i` of the result is the conversion of element `i`. */
  lemma {:induction false} MapResultContent<A, B, E>(xs: seq<A>, f: A -> Result<B, E>, k: nat)
    requires k <= |xs|
    requires MapResult(xs, f, k).Ok?
    ensures forall i | 0 <= i < k :: f(xs[i]).Ok? && MapResult(xs, f, k).value[i] == f(xs[i]).value
    decreases k
  {
    if k > 0 {
      MapResultContent(xs, f, k - 1);
    }
  }
}
