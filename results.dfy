/** Failure-carrying results: the model's stand-in for Python exceptions. */
module Results {

  datatype Option<+T> = None | Some(value: T)

  datatype Result<+T, +E> = Success(value: T) | Failure(error: E)

  /**
   * What a loop that raises on its first bad item leaves behind: the
   * outputs produced before the failure, and the failure if there was one.
   */
  datatype Partial<+B, +E> = Partial(done: seq<B>, error: Option<E>)

  /**
   * Applies f to the items in order and stops at the first failure: the
   * outputs of the items before it, and its error.
   */
  function MapUntilFailure<A, B, E>(f: A -> Result<B, E>, xs: seq<A>): (r: Partial<B, E>)
    ensures r.error.None? <==> forall i :: 0 <= i < |xs| ==> f(xs[i]).Success?
    ensures r.error.None? ==> |r.done| == |xs|
    ensures r.error.Some? ==>
              |r.done| < |xs| && f(xs[|r.done|]) == Failure(r.error.value)
    ensures forall i :: 0 <= i < |r.done| ==> f(xs[i]) == Success(r.done[i])
  {
    if xs == [] then Partial([], None)
    else
      var init := xs[..|xs| - 1];
      assert forall i :: 0 <= i < |init| ==> init[i] == xs[i];
      var w := MapUntilFailure(f, init);
      if w.error.Some? then w
      else
        match f(xs[|xs| - 1])
        case Failure(e) => Partial(w.done, Some(e))
        case Success(y) => Partial(w.done + [y], None)
  }

  /** A failure among the first items is the failure of the whole run. */
  lemma {:induction false} MapUntilFailurePrefix<A, B, E>(f: A -> Result<B, E>, xs: seq<A>, k: nat)
    requires k <= |xs| && MapUntilFailure(f, xs[..k]).error.Some?
    ensures MapUntilFailure(f, xs) == MapUntilFailure(f, xs[..k])
  {
    if k < |xs| {
      var init := xs[..|xs| - 1];
      assert init[..k] == xs[..k];
      MapUntilFailurePrefix(f, init, k);
    } else {
      assert xs[..k] == xs;
    }
  }

  /** One more item: its output is appended, or its failure ends the run. */
  lemma MapUntilFailureStep<A, B, E>(f: A -> Result<B, E>, xs: seq<A>, j: nat)
    requires j < |xs| && MapUntilFailure(f, xs[..j]).error.None?
    ensures var done := MapUntilFailure(f, xs[..j]).done;
            MapUntilFailure(f, xs[..j + 1])
            == match f(xs[j])
               case Failure(e) => Partial(done, Some(e))
               case Success(y) => Partial(done + [y], None)
  {
    assert xs[..j + 1][..j] == xs[..j];
  }
}
