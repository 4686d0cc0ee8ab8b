/** Option and Result, the two wrappers the connector's read path returns, and
    the one way it combines many fallible results into one. */
module Wrappers {

  datatype Option<+T> = None | Some(value: T)

  datatype Result<+T, +E> = Ok(value: T) | Err(error: E)

  /** Collecting an iterator of results into a result of a vector: the first
      element that fails decides the error, and nothing after it is looked at;
      when no element fails, every value is kept, in order. */
  function Collect<A, B, E>(xs: seq<A>, f: A -> Result<B, E>): (r: Result<seq<B>, E>)
    ensures r.Ok? <==> forall i :: 0 <= i < |xs| ==> f(xs[i]).Ok?
    ensures r.Ok? ==> |r.value| == |xs| && forall i :: 0 <= i < |xs| ==> f(xs[i]) == Ok(r.value[i])
    ensures r.Err? ==>
      exists k :: 0 <= k < |xs| && f(xs[k]) == Err(r.error) && forall j :: 0 <= j < k ==> f(xs[j]).Ok?
  {
    if xs == [] then Ok([])
    else
      match f(xs[0])
      case Err(e) => Err(e)
      case Ok(b) =>
        match Collect(xs[1..], f)
        case Err(e) =>
          ghost var k :| 0 <= k < |xs[1..]| && f(xs[1..][k]) == Err(e)
                         && forall j :: 0 <= j < k ==> f(xs[1..][j]).Ok?;
          assert f(xs[k + 1]) == Err(e);
          assert forall j :: 0 <= j < k + 1 ==> f(xs[j]).Ok? by {
            forall j | 0 <= j < k + 1 ensures f(xs[j]).Ok? {
              if j > 0 { assert xs[j] == xs[1..][j - 1]; }
            }
          }
          Err(e)
        case Ok(bs) =>
          assert forall i :: 0 < i < |xs| ==> xs[i] == xs[1..][i - 1];
          Ok([b] + bs)
  }

  /** The collected result fails exactly with the error of the first failing
      element. */
  lemma CollectFirstFailure<A, B, E>(xs: seq<A>, f: A -> Result<B, E>, i: nat)
    requires i < |xs| && f(xs[i]).Err?
    requires forall j :: 0 <= j < i ==> f(xs[j]).Ok?
    ensures Collect(xs, f) == Err(f(xs[i]).error)
  {
  }
}
