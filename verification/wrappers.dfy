/** Failure-carrying results and the all-or-nothing map that models `Promise.all`. */
module Wrappers {

  /** A value that may be absent: a missing object property (`undefined`), a
      failed remote request, or an operation that threw. */
  datatype Option<+T> = None | Some(value: T)

  /** Applies `f` to every element, in order, and succeeds only when every
      application succeeds. This is `Promise.all` over one promise per element,
      with the concurrency flattened into a sequential walk: the joined
      promise fulfils with the results in input order, or rejects as soon as
      any one of them rejects, and then no partial result survives. */
  function AllOrNothing<T, U>(xs: seq<T>, f: T -> Option<U>): (r: Option<seq<U>>)
    ensures r.Some? <==> forall i :: 0 <= i < |xs| ==> f(xs[i]).Some?
    ensures r.Some? ==> |r.value| == |xs|
    ensures r.Some? ==> forall i :: 0 <= i < |xs| ==> r.value[i] == f(xs[i]).value
  {
    if |xs| == 0 then Some([])
    else
      match f(xs[0])
      case None => None
      case Some(y) =>
        match AllOrNothing(xs[1..], f)
        case None => None
        case Some(ys) => Some([y] + ys)
  }
}
