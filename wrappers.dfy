/** The optional-value type used for every operation that can raise in the scripts. */
module Wrappers {

  datatype Option<+T> = None | Some(value: T) {

    predicate IsFailure() {
      None?
    }

    function PropagateFailure<U>(): Option<U>
      requires None?
    {
      None
    }

    function Extract(): T
      requires Some?
    {
      value
    }
  }

  /**
   * Applies `f` to each element in order, failing as soon as one
   * application fails.
   */
  function MapAll<A, B>(f: A -> Option<B>, xs: seq<A>): (r: Option<seq<B>>)
    ensures r.Some? ==> |r.value| == |xs|
    decreases |xs|
  {
    if |xs| == 0 then Some([])
    else
      match MapAll(f, xs[..|xs| - 1])
      case None => None
      case Some(init) =>
        match f(xs[|xs| - 1])
        case None => None
        case Some(y) => Some(init + [y])
  }

  /**
   * `MapAll` succeeds exactly when every application does, and then holds
   * each application's value at its element's position.
   */
  lemma {:induction false} MapAllEach<A, B>(f: A -> Option<B>, xs: seq<A>)
    ensures MapAll(f, xs).Some? <==> forall k :: 0 <= k < |xs| ==> f(xs[k]).Some?
    ensures MapAll(f, xs).Some? ==> forall k :: 0 <= k < |xs| ==> f(xs[k]) == Some(MapAll(f, xs).value[k])
    decreases |xs|
  {
    if |xs| > 0 {
      var init := xs[..|xs| - 1];
      MapAllEach(f, init);
      assert forall k :: 0 <= k < |init| ==> init[k] == xs[k];
    }
  }

  /** One more element: the run over a prefix extends by that element's application. */
  lemma MapAllStep<A, B>(f: A -> Option<B>, xs: seq<A>, k: nat, done: seq<B>)
    requires k < |xs| && MapAll(f, xs[..k]) == Some(done)
    ensures MapAll(f, xs[..k + 1]) == if f(xs[k]).None? then None else Some(done + [f(xs[k]).value])
  {
    assert xs[..k + 1][..k] == xs[..k];
  }

  /** One failing application makes the whole run fail. */
  lemma MapAllFails<A, B>(f: A -> Option<B>, xs: seq<A>, k: nat)
    requires k < |xs| && f(xs[k]).None?
    ensures MapAll(f, xs) == None
  {
    MapAllEach(f, xs);
  }
}
