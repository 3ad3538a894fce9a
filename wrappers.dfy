/** Failure-carrying results, and the Python exceptions the modelled code can raise. */
module Wrappers {

  datatype Option<+T> = None | Some(value: T)

  /** The exception classes (and HTTP error responses) raised by the scrapers and handlers. */
  datatype Error =
    | KeyError        // a dictionary lookup of a missing key
    | ValueError      // int() of a non-number, strptime of an invalid date, bad tuple unpacking
    | IndexError      // a list index out of range
    | AttributeError  // a method called on None (a missing HTML node or table cell)
    | TypeError       // `in` or subscription applied to None
    | AssertionError  // a failed `assert` statement
    | HttpError(status: int)  // FastAPI's HTTPException with this status code

  datatype Result<+T> = Success(value: T) | Failure(error: Error) {
    predicate IsFailure() { Failure? }

    function PropagateFailure<U>(): Result<U>
      requires Failure?
    {
      Failure(error)
    }

    function Extract(): T
      requires Success?
    {
      value
    }
  }

  /** `[f(x) for x in xs]` where `f` may raise: the results in order, the first failure deciding. */
  function MapResult<A, B>(xs: seq<A>, f: A -> Result<B>): Result<seq<B>>
  {
    if xs == [] then Success([])
    else
      var front :- MapResult(xs[..|xs| - 1], f);
      var last :- f(xs[|xs| - 1]);
      Success(front + [last])
  }

  /** The list is complete exactly when `f` succeeds on every element, and then holds `f`'s results
      in order; otherwise the error is the one of the first element on which `f` fails. */
  lemma {:induction false} MapResultSpec<A, B>(xs: seq<A>, f: A -> Result<B>)
    ensures MapResult(xs, f).Success? <==> forall i | 0 <= i < |xs| :: f(xs[i]).Success?
    ensures MapResult(xs, f).Success? ==>
      |MapResult(xs, f).value| == |xs| && forall i | 0 <= i < |xs| :: MapResult(xs, f).value[i] == f(xs[i]).value
    ensures MapResult(xs, f).Failure? ==> exists i | 0 <= i < |xs| ::
      f(xs[i]).Failure? && MapResult(xs, f).error == f(xs[i]).error
      && forall j | 0 <= j < i :: f(xs[j]).Success?
  {
    if xs != [] {
      var front := xs[..|xs| - 1];
      MapResultSpec(front, f);
      assert forall i | 0 <= i < |front| :: front[i] == xs[i];
      if MapResult(xs, f).Failure? && MapResult(front, f).Success? {
        var n := |xs| - 1;
        assert f(xs[n]).Failure? && forall j | 0 <= j < n :: f(xs[j]).Success?;
      }
    }
  }
}
