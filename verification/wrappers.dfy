/** Failure-carrying results, and the "stop at the first error" traversal that the
    Go code writes out as a loop which appends to a slice and returns on the first
    non-nil error. */
module Wrappers {

  datatype Option<+T> = None | Some(value: T)

  datatype Result<+T, +E> = Ok(value: T) | Err(error: E)

  /** Applies `f` to the elements of `xs` from first to last. The result is every
      output in order when all succeed, and otherwise the error of the FIRST element
      that fails (no partial list is returned). */
  function MapAll<A, B, E>(xs: seq<A>, f: A -> Result<B, E>): (r: Result<seq<B>, E>)
    ensures r.Ok? <==> forall i :: 0 <= i < |xs| ==> f(xs[i]).Ok?
    ensures r.Ok? ==> |r.value| == |xs| && forall i :: 0 <= i < |xs| ==> f(xs[i]) == Ok(r.value[i])
    ensures r.Err? ==>
      exists k :: 0 <= k < |xs| && f(xs[k]) == Err(r.error) && forall j :: 0 <= j < k ==> f(xs[j]).Ok?
    decreases |xs|
  {
    if xs == [] then Ok([])
    else
      var init := xs[..|xs| - 1];
      assert forall i :: 0 <= i < |init| ==> init[i] == xs[i];
      match MapAll(init, f)
      case Err(e) => Err(e)
      case Ok(done) =>
        match f(xs[|xs| - 1])
        case Err(e) => Err(e)
        case Ok(y) => Ok(done + [y])
  }

  /** A traversal whose prefix before `i` succeeds and whose element `i` fails
      yields exactly that element's error, whatever follows it. */
  lemma {:induction false} MapAllStopsAt<A, B, E>(xs: seq<A>, f: A -> Result<B, E>, i: nat)
    requires i < |xs| && MapAll(xs[..i], f).Ok? && f(xs[i]).Err?
    ensures MapAll(xs, f) == Err(f(xs[i]).error)
    decreases |xs|
  {
    var init := xs[..|xs| - 1];
    if i < |xs| - 1 {
      assert init[..i] == xs[..i];
      MapAllStopsAt(init, f, i);
    } else {
      assert init == xs[..i];
    }
  }
}
