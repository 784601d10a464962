/**
 * `Array.prototype.map` with a callback that may throw: the callback sees
 * each element together with its index, the elements are visited in index
 * order, and the first throw aborts the whole map.
 */
module Mapping {
  import opened Wrappers

  /** `xs.map(f)` where a `Failure` from `f` stands for a throw. */
  function MapOrFail<A, B, E>(xs: seq<A>, f: (A, nat) -> Result<B, E>): (r: Result<seq<B>, E>)
    ensures r.Success? <==> forall k :: 0 <= k < |xs| ==> f(xs[k], k).Success?
    ensures r.Success? ==> |r.value| == |xs|
    ensures r.Success? ==> forall k :: 0 <= k < |xs| ==> f(xs[k], k) == Success(r.value[k])
  {
    MapFrom(xs, 0, f)
  }

  /** The map of `xs[start..]`, each element still paired with its index in `xs`. */
  function MapFrom<A, B, E>(xs: seq<A>, start: nat, f: (A, nat) -> Result<B, E>): (r: Result<seq<B>, E>)
    requires start <= |xs|
    ensures r.Success? <==> forall k :: start <= k < |xs| ==> f(xs[k], k).Success?
    ensures r.Success? ==> |r.value| == |xs| - start
    ensures r.Success? ==> forall k :: start <= k < |xs| ==> f(xs[k], k) == Success(r.value[k - start])
    decreases |xs| - start
  {
    if start == |xs| then
      Success([])
    else
      match f(xs[start], start)
      case Failure(e) => Failure(e)
      case Success(y) =>
        match MapFrom(xs, start + 1, f)
        case Failure(e) => Failure(e)
        case Success(ys) => Success([y] + ys)
  }

  /** A failed map failed at some index `k`: every earlier element passed and `f` threw at `k`. */
  lemma {:induction false} MapFromFailsAtFirstFailure<A, B, E>(xs: seq<A>, start: nat, f: (A, nat) -> Result<B, E>)
    returns (k: nat)
    requires start <= |xs|
    requires MapFrom(xs, start, f).Failure?
    ensures start <= k < |xs|
    ensures forall j :: start <= j < k ==> f(xs[j], j).Success?
    ensures f(xs[k], k) == Failure(MapFrom(xs, start, f).error)
    decreases |xs| - start
  {
    if f(xs[start], start).Failure? {
      k := start;
    } else {
      k := MapFromFailsAtFirstFailure(xs, start + 1, f);
    }
  }

  /** The error of a failed map is the one `f` gives at the first element it refuses. */
  lemma MapFailsAtFirstFailure<A, B, E>(xs: seq<A>, f: (A, nat) -> Result<B, E>) returns (k: nat)
    requires MapOrFail(xs, f).Failure?
    ensures k < |xs|
    ensures forall j :: 0 <= j < k ==> f(xs[j], j).Success?
    ensures f(xs[k], k) == Failure(MapOrFail(xs, f).error)
  {
    k := MapFromFailsAtFirstFailure(xs, 0, f);
  }
}
