/** GenericFactoryPool: the registry of typed pools. The source keeps it in
    static fields; here it is one object that callers share. Every operation is
    proved to take the value `View()` from the state before the call to the
    state the matching definition in PoolSpec allows. */
module FactoryPool {
  import opened Objects
  import opened PoolSpec
  import opened TypedPool

  class GenericFactoryPool {
    var pools: map<TypeTag, ObjectPool>
    var maxCapacity: nat

    /** Every type is mapped to a pool for that type (what the `pool is
        ObjectPool<T>` test checks), so distinct types have distinct pools. */
    ghost predicate Valid()
      reads this
    {
      forall t | t in pools :: pools[t].tag == t
    }

    function View(): State
      reads this, pools.Values
    {
      State(map t | t in pools :: pools[t].View(), maxCapacity)
    }

    /** No pool registered, and a capacity of 0 (unlimited). */
    constructor ()
      ensures pools == map[] && maxCapacity == 0
      ensures Valid() && View() == Initial
    {
      pools := map[];
      maxCapacity := 0;
    }

    /** Create<T>: takes an object from the pool of `t`, registering an empty pool
        first when `t` has none; the factory is called only when that pool is empty. */
    method Create(t: TypeTag, factory: Factory?) returns (r: Result<PooledObject>)
      requires Valid()
      modifies this, pools.Values, factory
      ensures Valid() && maxCapacity == old(maxCapacity)
      ensures CreateStep(old(View()), t, factory, r, View())
      ensures t in old(pools) || factory == null ==> pools == old(pools)
      ensures t !in old(pools) && factory != null ==> t in pools && pools == old(pools)[t := pools[t]] && fresh(pools[t])
      ensures factory != null && t in old(pools) && old(pools[t].items) != multiset{} ==>
        factory.made == old(factory.made)
      ensures factory != null && (t !in old(pools) || old(pools[t].items) == multiset{}) ==>
        r.Success? && fresh(r.value) && r.value.recyclable == factory.recyclable && r.value.resets == [] &&
        factory.made == old(factory.made) + [r.value]
    {
      if factory == null {
        return Failure(NullArgument("factoryMethod"));
      }
      ghost var s0 := View();
      var pool: ObjectPool;
      if t in pools {
        pool := pools[t];
      } else {
        pool := new ObjectPool(t);
        pools := pools[t := pool];
      }
      assert pool == pools[t] && Valid();
      var o := pool.GetObject(factory);
      OnlyPoolChanged(this, t, s0);
      if PoolOf(s0, t).items == multiset{} {
        forall u | u in s0.pools
          ensures o !in s0.pools[u].items
        {
        }
      }
      r := Success(o);
    }

    /** Recycle<T>: a null item is rejected; the item is reset and added only when
        `t` has a pool and that pool holds fewer than the cap or the cap is 0. */
    method Recycle(t: TypeTag, item: PooledObject?) returns (outcome: Outcome)
      requires Valid()
      modifies pools.Values, item
      ensures Valid() && pools == old(pools)
      ensures Step(outcome, View()) == PoolSpec.Recycle(old(View()), t, item)
      ensures item != null ==>
        item.resets == old(item.resets) + (if Accepts(old(View()), t, item)
                                          then ResetsOnReturn(item.recyclable, old(PoolOf(View(), t).resetAction))
                                          else [])
    {
      if item == null {
        return Fail(NullArgument("item"));
      }
      outcome := Pass;
      if t in pools {
        var count := GetPoolCount(t);
        if count < maxCapacity || maxCapacity == 0 {
          ghost var before := View();
          pools[t].ReturnObject(item);
          OnlyPoolChanged(this, t, before);
        }
      }
    }

    /** SetMaxCapacity: a negative capacity is rejected before anything changes. */
    method SetMaxCapacity(newCapacity: int) returns (outcome: Outcome)
      modifies this
      ensures pools == old(pools)
      ensures Step(outcome, View()) == PoolSpec.SetMaxCapacity(old(View()), newCapacity)
    {
      if newCapacity < 0 {
        return Fail(InvalidArgument("newCapacity"));
      }
      maxCapacity := newCapacity;
      outcome := Pass;
    }

    /** SetPoolResetAction<T>: a null action is rejected; the action is set on the
        pool of `t` if there is one, and dropped otherwise. */
    method SetPoolResetAction(t: TypeTag, action: ResetAction?) returns (outcome: Outcome)
      requires Valid()
      modifies pools.Values
      ensures Valid() && pools == old(pools)
      ensures Step(outcome, View()) == PoolSpec.SetPoolResetAction(old(View()), t, action)
    {
      if action == null {
        return Fail(NullArgument("resetAction"));
      }
      outcome := Pass;
      if t in pools {
        ghost var before := View();
        pools[t].SetResetAction(action);
        OnlyPoolChanged(this, t, before);
      }
    }

    /** ClearPool<T>: empties the pool of `t` if there is one. */
    method ClearPool(t: TypeTag)
      requires Valid()
      modifies pools.Values
      ensures Valid() && pools == old(pools)
      ensures View() == PoolSpec.ClearPool(old(View()), t)
    {
      if t in pools {
        ghost var before := View();
        pools[t].Clear();
        OnlyPoolChanged(this, t, before);
      }
    }

    /** GetPoolCount<T>: the number of residents of `t`'s pool, 0 without one. */
    method GetPoolCount(t: TypeTag) returns (n: nat)
      ensures n == PoolCount(View(), t)
    {
      n := if t in pools then pools[t].Count() else 0;
    }

    /** SetPoolSize<T>: validated first; then the pool of `t`, if any, is shrunk
        or grown to exactly `size` residents (none when `size` is negative). */
    method SetPoolSize(t: TypeTag, size: int, factory: Factory?) returns (outcome: Outcome)
      requires Valid()
      modifies pools.Values, factory
      ensures Valid() && pools == old(pools)
      ensures outcome == CheckFill(old(View()), size, factory, "size")
      ensures SetPoolSizeStep(old(View()), t, size, factory, View())
      ensures factory != null && (outcome.Fail? || t !in pools) ==> factory.made == old(factory.made)
      ensures factory != null && outcome == Pass && t in pools ==>
        |factory.made| == |old(factory.made)| + Max0(size - old(PoolCount(View(), t)))
      ensures factory != null && outcome == Pass && t in old(pools) && size <= old(PoolCount(View(), t)) ==>
        factory.made == old(factory.made)
      ensures factory != null && outcome == Pass && t in old(pools) && old(PoolCount(View(), t)) < size ==>
        |old(factory.made)| <= |factory.made| &&
        factory.made[..|old(factory.made)|] == old(factory.made) &&
        pools[t].items == old(pools[t].items) + multiset(factory.made[|old(factory.made)|..]) &&
        forall o | o in factory.made[|old(factory.made)|..] ::
          fresh(o) && o.recyclable == factory.recyclable && o.resets == []
    {
      if factory == null {
        return Fail(NullArgument("factoryMethod"));
      }
      if size > maxCapacity && maxCapacity > 0 {
        return Fail(InvalidArgument("size"));
      }
      outcome := Pass;
      if t in pools {
        ghost var before := View();
        var pool := pools[t];
        pool.SetSize(size, factory);
        OnlyPoolChanged(this, t, before);
        forall o | o in pool.items - before.pools[t].items
          ensures !Resident(before, o)
        {
          assert o in factory.made[|old(factory.made)|..];
        }
      }
    }

    /** PrepopulatePool<T>: validated first; then `count` new objects are added to
        the pool of `t`, if any, whatever it already holds. */
    method PrepopulatePool(t: TypeTag, count: int, factory: Factory?) returns (outcome: Outcome)
      requires Valid()
      modifies pools.Values, factory
      ensures Valid() && pools == old(pools)
      ensures outcome == CheckFill(old(View()), count, factory, "count")
      ensures PrepopulatePoolStep(old(View()), t, count, factory, View())
      ensures factory != null && (outcome.Fail? || t !in pools) ==> factory.made == old(factory.made)
      ensures factory != null && outcome == Pass && t in old(pools) ==>
        |factory.made| == |old(factory.made)| + Max0(count) &&
        factory.made[..|old(factory.made)|] == old(factory.made) &&
        pools[t].items == old(pools[t].items) + multiset(factory.made[|old(factory.made)|..]) &&
        forall o | o in factory.made[|old(factory.made)|..] ::
          fresh(o) && o.recyclable == factory.recyclable && o.resets == []
    {
      if factory == null {
        return Fail(NullArgument("factoryMethod"));
      }
      if count > maxCapacity && maxCapacity > 0 {
        return Fail(InvalidArgument("count"));
      }
      outcome := Pass;
      if t in pools {
        ghost var before := View();
        var pool := pools[t];
        pool.Prepopulate(count, factory);
        OnlyPoolChanged(this, t, before);
        forall o | o in pool.items - before.pools[t].items
          ensures !Resident(before, o)
        {
          assert o in factory.made[|old(factory.made)|..];
        }
      }
    }
  }

  /** After calls that changed only the pool of `t`, registering it if it was
      missing, the view differs from the earlier one `before` only there. */
  lemma OnlyPoolChanged(r: GenericFactoryPool, t: TypeTag, before: State)
    requires t in r.pools && r.pools.Keys == before.pools.Keys + {t} && before.maxCapacity == r.maxCapacity
    requires forall u | u in before.pools && u != t :: r.pools[u].View() == before.pools[u]
    ensures r.View() == WithPool(before, t, r.pools[t].View())
  {
    var now, expected := r.View().pools, WithPool(before, t, r.pools[t].View()).pools;
    assert now.Keys == expected.Keys;
    forall u | u in now
      ensures now[u] == expected[u]
    {
    }
  }
}
