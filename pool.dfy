/**
 * The promise pool shared by `PromiseHttpClient` and `WaitLoop`: the
 * responses still in flight, each attached to the promise it will settle.
 */
module Pool {
  import opened Http

  /** The state of the promise of one response. */
  datatype PromiseState = Pending | FulfilledWith(response: Handle) | RejectedWith(reason: Reason)

  /**
   * The pool as a value: the attached responses, and the state of the
   * promise of every response ever issued.
   */
  datatype PoolState = PoolState(attached: set<Handle>, promises: map<Handle, PromiseState>)

  /** A promise is pending exactly while its response is attached. */
  ghost predicate Consistent(s: PoolState) {
    s.attached <= s.promises.Keys &&
    forall h | h in s.promises :: s.promises[h].Pending? <==> h in s.attached
  }

  /** Detach `h` and settle its promise as `settled`. */
  function Settle(s: PoolState, h: Handle, settled: PromiseState): (r: PoolState)
    requires Consistent(s) && h in s.attached && !settled.Pending?
    ensures Consistent(r)
    ensures r.attached == s.attached - {h}
    ensures r.promises.Keys == s.promises.Keys
    ensures r.promises[h] == settled
    ensures forall g | g in s.promises && g != h :: r.promises[g] == s.promises[g]
  {
    PoolState(s.attached - {h}, s.promises[h := settled])
  }

  class PromisePool {
    /** The `SplObjectStorage` keys: the responses still in flight. */
    var attached: set<Handle>
    /** The state of each response's promise. */
    var promises: map<Handle, PromiseState>

    function State(): PoolState
      reads this
    {
      PoolState(attached, promises)
    }

    ghost predicate Valid()
      reads this
    {
      Consistent(State())
    }

    /** `|pool|`: how many promises are still pending. */
    function Count(): (n: nat)
      reads this
      requires Valid()
      ensures n == |set h | h in promises && promises[h].Pending?|
    {
      assert attached == set h | h in promises && promises[h].Pending?;
      |attached|
    }

    constructor ()
      ensures Valid()
      ensures attached == {} && promises == map[]
    {
      attached := {};
      promises := map[];
    }

    /** `attach`: a new response with a new pending promise. */
    method Attach(h: Handle)
      requires Valid() && h !in promises
      modifies this
      ensures Valid()
      ensures attached == old(attached) + {h}
      ensures promises == old(promises)[h := Pending]
    {
      attached := attached + {h};
      promises := promises[h := Pending];
    }

    /** `unset` or `detach`, then settling the promise. */
    method Detach(h: Handle, settled: PromiseState)
      requires Valid() && h in attached && !settled.Pending?
      modifies this
      ensures Valid()
      ensures State() == Settle(old(State()), h, settled)
    {
      attached := attached - {h};
      promises := promises[h := settled];
    }
  }
}
