/** Failure-compatible option and result types shared by the whole model. */
module Wrappers {

  /** A value that may be absent; the source's `None`. */
  datatype Option<+T> = None | Some(value: T)

  /** The outcome of a decoding step: a value, or the error that aborts the run. */
  datatype Result<+T, +E> = Ok(value: T) | Err(error: E) {

    predicate IsFailure() {
      Err?
    }

    function PropagateFailure<U>(): Result<U, E>
      requires Err?
    {
      Err(error)
    }

    function Extract(): T
      requires Ok?
    {
      value
    }
  }

  /** `f` succeeds on every element of `xs`. */
  predicate AllOk<A, B, E>(f: A -> Result<B, E>, xs: seq<A>) {
    forall i :: 0 <= i < |xs| ==> f(xs[i]).Ok?
  }

  /**
   * Applies `f` to each element left to right, stopping at the first
   * failure: the loop of the source that appends one decoded item per input
   * and lets the first exception escape.
   */
  function MapAll<A, B, E>(f: A -> Result<B, E>, xs: seq<A>): (r: Result<seq<B>, E>)
    ensures r.Ok? <==> AllOk(f, xs)
    ensures r.Ok? ==> |r.value| == |xs| && forall i :: 0 <= i < |xs| ==> f(xs[i]) == Ok(r.value[i])
    ensures r.Err? ==> exists i :: 0 <= i < |xs| && f(xs[i]) == Err(r.error) && AllOk(f, xs[..i])
  {
    if |xs| == 0 then Ok([])
    else
      match f(xs[0])
      case Err(e) =>
        assert xs[..0] == [];
        Err(e)
      case Ok(y) =>
        match MapAll(f, xs[1..])
        case Err(e) =>
          ghost var i :| 0 <= i < |xs[1..]| && f(xs[1..][i]) == Err(e) && AllOk(f, xs[1..][..i]);
          assert xs[i + 1] == xs[1..][i];
          assert xs[..i + 1] == [xs[0]] + xs[1..][..i];
          Err(e)
        case Ok(ys) =>
          assert forall i :: 1 <= i < |xs| ==> xs[i] == xs[1..][i - 1];
          Ok([y] + ys)
  }

  /** When `f` succeeds on each element with the matching element of `ys`, mapping gives `ys`. */
  lemma MapAllPointwise<A, B, E>(f: A -> Result<B, E>, xs: seq<A>, ys: seq<B>)
    requires |xs| == |ys|
    requires forall i :: 0 <= i < |xs| ==> f(xs[i]) == Ok(ys[i])
    ensures MapAll(f, xs) == Ok(ys)
  {
    assert AllOk(f, xs);
    var r := MapAll(f, xs).value;
    forall i | 0 <= i < |xs|
      ensures r[i] == ys[i]
    {
      assert f(xs[i]) == Ok(r[i]);
    }
    assert r == ys;
  }
}
