/** ObjectPool<T>: the pool of one type. Its bag of residents is a multiset that
    the methods replace, the way `Add` and `TryTake` change the concurrent bag
    in place; `TryTake` takes an unspecified resident. */
module TypedPool {
  import opened Objects
  import opened PoolSpec

  class ObjectPool {
    /** The type the pool is for: the `T` of `ObjectPool<T>`. */
    const tag: TypeTag
    var items: multiset<PooledObject>
    var resetAction: ResetAction?

    constructor (tag: TypeTag)
      ensures this.tag == tag && items == multiset{} && resetAction == null
    {
      this.tag := tag;
      items := multiset{};
      resetAction := null;
    }

    function View(): PoolView
      reads this
    {
      PoolView(items, resetAction)
    }

    /** Count: the number of residents. */
    function Count(): nat
      reads this
    {
      |items|
    }

    /** Takes some resident if there is one; otherwise returns what the factory
        builds, without adding it to the pool. */
    method GetObject(factory: Factory) returns (o: PooledObject)
      modifies this, factory
      ensures resetAction == old(resetAction)
      ensures old(items) != multiset{} ==>
        o in old(items) && items == old(items) - multiset{o} && factory.made == old(factory.made)
      ensures old(items) == multiset{} ==>
        items == multiset{} && fresh(o) && o.recyclable == factory.recyclable && o.resets == [] &&
        factory.made == old(factory.made) + [o]
    {
      if items != multiset{} {
        o :| o in items;
        items := items - multiset{o};
      } else {
        o := factory.Make();
      }
    }

    /** Resets the item, first by its own reset if it is recyclable, then by the
        pool's action if one is set, and adds it; no capacity check here. */
    method ReturnObject(item: PooledObject)
      modifies this, item
      ensures items == old(items) + multiset{item} && resetAction == old(resetAction)
      ensures item.resets == old(item.resets) + ResetsOnReturn(item.recyclable, resetAction)
    {
      if item.recyclable {
        item.ResetState();
      }
      if resetAction != null {
        resetAction.Invoke(item);
      }
      items := items + multiset{item};
    }

    /** Empties the bag; outstanding objects are not affected. */
    method Clear()
      modifies this
      ensures items == multiset{} && resetAction == old(resetAction)
    {
      items := multiset{};
    }

    /** Removes residents while there are more than `size`, then has the factory
        build new ones while there are fewer. */
    method SetSize(size: int, factory: Factory)
      modifies this, factory
      ensures resetAction == old(resetAction)
      ensures |items| == Max0(size)
      ensures size <= |old(items)| ==> items <= old(items) && factory.made == old(factory.made)
      ensures |old(items)| < size ==>
        |factory.made| == |old(factory.made)| + size - |old(items)| &&
        factory.made[..|old(factory.made)|] == old(factory.made) &&
        items == old(items) + multiset(factory.made[|old(factory.made)|..])
      ensures forall o | o in factory.made[|old(factory.made)|..] ::
          fresh(o) && o.recyclable == factory.recyclable && o.resets == []
    {
      ShrinkTo(size);
      GrowTo(size, factory);
    }

    /** The first loop of SetSize: drops residents while there are more than `size`. */
    method ShrinkTo(size: int)
      modifies this
      ensures resetAction == old(resetAction) && items <= old(items)
      ensures |old(items)| <= size ==> items == old(items)
      ensures size < |old(items)| ==> |items| == Max0(size)
    {
      while |items| > size && items != multiset{}
        invariant items <= old(items)
        invariant resetAction == old(resetAction)
        invariant |old(items)| <= size ==> items == old(items)
        invariant size < |old(items)| ==> Max0(size) <= |items|
        decreases |items|
      {
        var o :| o in items;
        items := items - multiset{o};
      }
    }

    /** The second loop of SetSize: has the factory build residents while there
        are fewer than `size`. */
    method GrowTo(size: int, factory: Factory)
      modifies this, factory
      ensures resetAction == old(resetAction)
      ensures |items| == if size <= |old(items)| then |old(items)| else size
      ensures |factory.made| == |old(factory.made)| + |items| - |old(items)|
      ensures factory.made[..|old(factory.made)|] == old(factory.made)
      ensures items == old(items) + multiset(factory.made[|old(factory.made)|..])
      ensures forall o | o in factory.made[|old(factory.made)|..] ::
          fresh(o) && o.recyclable == factory.recyclable && o.resets == []
    {
      while |items| < size
        invariant resetAction == old(resetAction)
        invariant |factory.made| == |old(factory.made)| + |items| - |old(items)|
        invariant factory.made[..|old(factory.made)|] == old(factory.made)
        invariant items == old(items) + multiset(factory.made[|old(factory.made)|..])
        invariant forall o | o in factory.made[|old(factory.made)|..] ::
          fresh(o) && o.recyclable == factory.recyclable && o.resets == []
        invariant |items| == |old(items)| || |items| <= size
        decreases size - |items|
      {
        ghost var before := factory.made;
        var o := factory.Make();
        items := items + multiset{o};
        assert factory.made[|old(factory.made)|..] == before[|old(factory.made)|..] + [o];
      }
    }

    /** Adds `count` objects built by the factory (none when `count` is not positive). */
    method Prepopulate(count: int, factory: Factory)
      modifies this, factory
      ensures resetAction == old(resetAction)
      ensures |factory.made| == |old(factory.made)| + Max0(count)
      ensures factory.made[..|old(factory.made)|] == old(factory.made)
      ensures items == old(items) + multiset(factory.made[|old(factory.made)|..])
      ensures forall o | o in factory.made[|old(factory.made)|..] ::
          fresh(o) && o.recyclable == factory.recyclable && o.resets == []
    {
      var i := 0;
      while i < count
        invariant 0 <= i <= Max0(count)
        invariant resetAction == old(resetAction)
        invariant |factory.made| == |old(factory.made)| + i
        invariant factory.made[..|old(factory.made)|] == old(factory.made)
        invariant items == old(items) + multiset(factory.made[|old(factory.made)|..])
        invariant forall o | o in factory.made[|old(factory.made)|..] ::
          fresh(o) && o.recyclable == factory.recyclable && o.resets == []
      {
        ghost var before := factory.made;
        var o := factory.Make();
        items := items + multiset{o};
        assert factory.made[|old(factory.made)|..] == before[|old(factory.made)|..] + [o];
        i := i + 1;
      }
    }

    /** Replaces the reset action; it applies to later returns only. */
    method SetResetAction(action: ResetAction?)
      modifies this
      ensures resetAction == action && items == old(items)
    {
      resetAction := action;
    }
  }
}
