/** Failure-compatible wrappers used across the model, and the "map, stop at
    the first failure" combinator that the Python comprehensions amount to
    when one of their steps raises. */
module Results {

  datatype Option<+T> = None | Some(value: T)

  datatype Result<+R, +E> = Success(value: R) | Failure(error: E)

  datatype Outcome<+E> = Pass | Fail(error: E)

  /** Applies `f` to every element of `xs` from left to right, as a Python
      list comprehension does; the first failing step aborts the whole
      comprehension with its error. */
  function Traverse<X, Y, E>(f: X -> Result<Y, E>, xs: seq<X>): (r: Result<seq<Y>, E>)
    ensures r.Success? <==> forall i :: 0 <= i < |xs| ==> f(xs[i]).Success?
    ensures r.Success? ==>
      |r.value| == |xs| && forall i :: 0 <= i < |xs| ==> r.value[i] == f(xs[i]).value
    ensures r.Failure? ==>
      exists i :: (0 <= i < |xs| && f(xs[i]).Failure? && r.error == f(xs[i]).error
        && forall j :: 0 <= j < i ==> f(xs[j]).Success?)
  {
    if xs == [] then Success([])
    else
      match f(xs[0])
      case Failure(e) => Failure(e)
      case Success(y) =>
        match Traverse(f, xs[1..])
        case Failure(e) =>
          TailFailure(f, xs, e);
          Failure(e)
        case Success(ys) => Success([y] + ys)
  }

  /** A failure in the tail of `xs` is a failure at a shifted index of `xs`
      when the head succeeded. */
  lemma TailFailure<X, Y, E>(f: X -> Result<Y, E>, xs: seq<X>, e: E)
    requires xs != [] && f(xs[0]).Success?
    requires exists i :: (0 <= i < |xs[1..]| && f(xs[1..][i]).Failure? && e == f(xs[1..][i]).error
      && forall j :: 0 <= j < i ==> f(xs[1..][j]).Success?)
    ensures exists i :: (0 <= i < |xs| && f(xs[i]).Failure? && e == f(xs[i]).error
      && forall j :: 0 <= j < i ==> f(xs[j]).Success?)
  {
    var i :| 0 <= i < |xs[1..]| && f(xs[1..][i]).Failure? && e == f(xs[1..][i]).error
      && forall j :: 0 <= j < i ==> f(xs[1..][j]).Success?;
    forall j | 0 <= j < i + 1
      ensures f(xs[j]).Success?
    {
      if j > 0 { assert xs[j] == xs[1..][j - 1]; }
    }
    assert xs[i + 1] == xs[1..][i];
  }
}
