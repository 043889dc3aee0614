/** Failure-compatible result types used throughout the model. */
module Wrappers {

  datatype Option<+T> = None | Some(value: T) {

    /** The value, or `default` when absent (Python's `dict.get(key, default)`). */
    function GetOr(default: T): T {
      match this
      case Some(v) => v
      case None => default
    }
  }

  datatype Result<+R, +E> = Success(value: R) | Failure(error: E) {

    predicate IsFailure() {
      Failure?
    }

    function PropagateFailure<U>(): Result<U, E>
      requires Failure?
    {
      Failure(error)
    }

    function Extract(): R
      requires Success?
    {
      value
    }
  }

  /** Every element of `xs` is mapped successfully by `f`. */
  ghost predicate AllSucceed<T, U, E>(f: T -> Result<U, E>, xs: seq<T>) {
    forall i :: 0 <= i < |xs| ==> f(xs[i]).Success?
  }

  /** `e` is the error of the first element of `xs` that `f` fails on. */
  ghost predicate FailsFirstWith<T, U, E>(f: T -> Result<U, E>, xs: seq<T>, e: E) {
    exists i :: 0 <= i < |xs| && f(xs[i]) == Failure(e) && forall j :: 0 <= j < i ==> f(xs[j]).Success?
  }

  /** Maps `f` over `xs` in order, stopping at the first failure, as a Python
      list comprehension or an appending loop does when `f` raises. */
  function MapAll<T, U, E>(f: T -> Result<U, E>, xs: seq<T>): (r: Result<seq<U>, E>)
    ensures r.Success? <==> AllSucceed(f, xs)
    ensures r.Success? ==> |r.value| == |xs| && forall i :: 0 <= i < |xs| ==> f(xs[i]) == Success(r.value[i])
    ensures r.Failure? ==> FailsFirstWith(f, xs, r.error)
  {
    if xs == [] then Success([])
    else
      match f(xs[0])
      case Failure(e) =>
        assert f(xs[0]) == Failure(e);
        Failure(e)
      case Success(y) =>
        var rest := MapAll(f, xs[1..]);
        assert forall i :: 1 <= i < |xs| ==> xs[i] == xs[1..][i - 1];
        match rest
        case Failure(e) =>
          assert FailsFirstWith(f, xs, e) by {
            var k :| 0 <= k < |xs[1..]| && f(xs[1..][k]) == Failure(e) && forall j :: 0 <= j < k ==> f(xs[1..][j]).Success?;
            assert f(xs[k + 1]) == Failure(e);
          }
          Failure(e)
        case Success(ys) => Success([y] + ys)
  }

  /** The map fails with the error of the first element `f` fails on. */
  lemma {:induction false} MapAllFailsAt<T, U, E>(f: T -> Result<U, E>, xs: seq<T>, i: nat)
    requires i < |xs| && f(xs[i]).Failure?
    requires forall j :: 0 <= j < i ==> f(xs[j]).Success?
    ensures MapAll(f, xs) == Failure(f(xs[i]).error)
  {
    if i > 0 {
      assert forall j :: 0 <= j < i - 1 ==> xs[1..][j] == xs[j + 1];
      MapAllFailsAt(f, xs[1..], i - 1);
    }
  }

  /** The map succeeds with `ys` when every element maps to its partner in `ys`. */
  lemma MapAllSucceedsWith<T, U, E>(f: T -> Result<U, E>, xs: seq<T>, ys: seq<U>)
    requires |ys| == |xs| && forall j :: 0 <= j < |xs| ==> f(xs[j]) == Success(ys[j])
    ensures MapAll(f, xs) == Success(ys)
  {
    assert AllSucceed(f, xs);
    var r := MapAll(f, xs);
    assert r.value == ys;
  }
}
