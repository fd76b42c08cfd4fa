/** The pooled instances and the caller-supplied code the pool calls into.
    A factory (`Func<T>`) and a reset action (`Action<T>`) run arbitrary caller
    code; here a factory builds a new object each time it is called and records
    it, and every reset, whether the object's own `ResetState` or a pool-level
    action, is recorded in the ghost history of the object it resets. */
module Objects {

  /** One entry of an object's reset history. */
  datatype Reset = SelfReset | ByAction(action: ResetAction)

  /** An instance of a pooled type. `recyclable` says whether it implements the
      self-reset capability (IRecyclable). */
  class PooledObject {
    const recyclable: bool
    ghost var resets: seq<Reset>

    constructor (recyclable: bool)
      ensures this.recyclable == recyclable && resets == []
    {
      this.recyclable := recyclable;
      resets := [];
    }

    /** IRecyclable.ResetState: only objects with the capability have it. */
    method ResetState()
      requires recyclable
      modifies this
      ensures resets == old(resets) + [SelfReset]
    {
      resets := resets + [SelfReset];
    }
  }

  /** A pool-level reset action; only its identity matters. */
  class ResetAction {
    constructor ()
    {
    }

    method Invoke(o: PooledObject)
      modifies o
      ensures o.resets == old(o.resets) + [ByAction(this)]
    {
      o.resets := o.resets + [ByAction(this)];
    }
  }

  /** A factory method: every call constructs a new object, recorded in `made`. */
  class Factory {
    const recyclable: bool
    ghost var made: seq<PooledObject>

    constructor (recyclable: bool)
      ensures this.recyclable == recyclable && made == []
    {
      this.recyclable := recyclable;
      made := [];
    }

    method Make() returns (o: PooledObject)
      modifies this
      ensures fresh(o) && o.recyclable == recyclable && o.resets == []
      ensures made == old(made) + [o]
    {
      o := new PooledObject(recyclable);
      made := made + [o];
    }
  }

  /** The resets one return to a pool applies to an object: its own reset if it
      is recyclable, then the pool's action if one is set. */
  function ResetsOnReturn(recyclable: bool, action: ResetAction?): (r: seq<Reset>)
    ensures SelfReset in r <==> recyclable
    ensures action != null ==> ByAction(action) in r
    ensures forall i | 0 <= i < |r| && r[i].ByAction? :: r[i].action == action
    ensures recyclable ==> r[0] == SelfReset
    ensures forall i, j | 0 <= i < j < |r| :: r[i] != r[j]
  {
    (if recyclable then [SelfReset] else []) + (if action == null then [] else [ByAction(action)])
  }
}
