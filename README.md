# GenericFactoryPool in Dafny

GenericFactoryPool is a C# registry of object pools, one pool per pooled type.
`Create<T>` hands out a pooled instance of `T`, or has the caller's factory
build one when the pool is empty. `Recycle<T>` resets the item and puts it
back, as long as the pool for `T` exists and is below the global capacity
(0 means unlimited). The remaining calls do the following:

- set the capacity;
- attach a reset action to a pool;
- clear a pool;
- count a pool's residents;
- resize a pool to an exact size;
- add freshly built objects to a pool.

Each pool is an `ObjectPool<T>` around an unordered concurrent bag.

The model has two layers:

- **Imperative classes.** `FactoryPool.GenericFactoryPool` holds a map from type
  to pool and the capacity. `TypedPool.ObjectPool` holds a multiset of residents
  and a reset action. Their methods update those fields the way the C# methods
  update the dictionary and the bag. The loops of `SetSize` and `Prepopulate`
  are kept as loops.
- **A value-level specification.** `PoolSpec` describes every registry
  operation as a step from one `State` (pool contents per type, plus the cap)
  to the next. Each class method is proved to take its `View()` from the state
  before the call to the state the specification allows.

`PoolProperties` proves facts about sequences of calls:

- when the capacity bound holds, and the two calls that can break it;
- no call ever removes a registered pool;
- a rejected call changes nothing;
- take/return round trips;
- idempotence of resizing;
- accumulation under repeated prepopulation.

The pooled objects, the factories and the reset actions live in `Objects`.

- A factory builds a new object on every call and records it in the ghost
  sequence `made`.
- Every reset an object receives is recorded in its ghost sequence `resets`:
  its own `ResetState` (IRecyclable) or a pool's reset action.

This makes the order of resets on a return a provable property.

Where the code and its doc comments disagree, the model follows the code:

- The class comment (GenericFactoryPool.cs:10) gives a default maximum size of
  64. `_maxCapacity` starts at 0, which means unlimited, so the initial
  capacity is 0.
- `ObjectPool<T>` is described as "Ordered" (GenericFactoryPool.cs:213). It is
  a `ConcurrentBag`, so the residents are a multiset, and which one a take
  returns is left open.
- The message for a negative capacity (GenericFactoryPool.cs:102) says the
  capacity must be positive. The code accepts 0, and so does the model.
- The `resetAction` parameters (GenericFactoryPool.cs:117, 303) are described
  as resetting an object when it is retrieved from the pool. The code runs the
  action when the object is returned (GenericFactoryPool.cs:253), and so does
  the model.
- The size of `SetPoolSize` is described as needing to be a positive integer
  (GenericFactoryPool.cs:163). The code accepts zero and negative sizes and
  empties the pool for them (GenericFactoryPool.cs:279). The model does the
  same.

## Model

| member | source | states |
|---|---|---|
| Objects.PooledObject.ResetState | GenericFactoryPool/Interfaces/IRecyclable.cs:14 | only a recyclable object has a self reset; it appends one SelfReset to the object's reset history and nothing else |
| Objects.ResetAction.Invoke | GenericFactoryPool.cs:253 | running a pool's reset action on an object appends exactly that action to the object's reset history |
| Objects.Factory.Make | GenericFactoryPool.cs:238 | a factory call yields a newly allocated object with an empty reset history and appends it to the factory's record of what it built |
| Objects.ResetsOnReturn | GenericFactoryPool.cs:246-255 | a return applies a self reset exactly when the object is recyclable, and always first; it applies the pool's action when one is set, no other action, and no reset twice |
| PoolSpec.Recycle | GenericFactoryPool.cs:75-86 | a null item fails with `NullArgument("item")`; otherwise the item is added to the pool of `t` exactly when that pool exists and its count is below a positive cap or the cap is 0; the count grows by one exactly then, and no other pool, the keys, the cap or the reset action change; a rejected return leaves the state as it was; a pool within a positive cap stays within it |
| PoolSpec.SetMaxCapacity | GenericFactoryPool.cs:98-106 | fails exactly for a negative capacity, with `InvalidArgument("newCapacity")` and no change; otherwise the cap becomes the new value and the pools are untouched |
| PoolSpec.SetPoolResetAction | GenericFactoryPool.cs:118-126 | fails exactly for a null action, with `NullArgument("resetAction")`; sets the action on an existing pool of `t`, and leaves the state unchanged when `t` has no pool; never changes any pool's residents, the keys or the cap |
| PoolSpec.ClearPool | GenericFactoryPool.cs:138-144 | afterwards the pool of `t` counts 0, keeps its reset action, and every other pool, the keys and the cap are unchanged |
| PoolSpec.CheckFill | GenericFactoryPool.cs:175-179 | the validation SetPoolSize and PrepopulatePool make first: a null factory fails with `NullArgument("factoryMethod")` whatever the target; a non-null factory with a target above a positive cap fails with `InvalidArgument` naming the parameter; it passes exactly when neither applies |
| TypedPool.ObjectPool.constructor | GenericFactoryPool.cs:224-229 | a new pool has no residents and no reset action |
| TypedPool.ObjectPool.GetObject | GenericFactoryPool.cs:236-239 | from a non-empty bag it removes and returns one of the residents without calling the factory; from an empty bag it returns a new object built by one factory call, carrying the factory's `recyclable` flag and an empty reset history, and leaves the bag empty |
| TypedPool.ObjectPool.ReturnObject | GenericFactoryPool.cs:246-255 | the item joins the bag, after receiving exactly the resets ResetsOnReturn lists for its capability and the pool's current action |
| TypedPool.ObjectPool.Clear | GenericFactoryPool.cs:260-264 | the bag is empty afterwards and the reset action is kept |
| TypedPool.ObjectPool.SetSize | GenericFactoryPool.cs:277-285 | the bag holds exactly max(size, 0) residents afterwards; a shrink keeps a sub-bag of the old residents and calls no factory; a growth keeps all old residents and adds exactly the new objects built by `size - count` factory calls |
| TypedPool.ObjectPool.ShrinkTo | GenericFactoryPool.cs:279 | the first loop leaves a sub-bag of the old residents, of exactly max(size, 0) residents when there were more, and the bag untouched otherwise |
| TypedPool.ObjectPool.GrowTo | GenericFactoryPool.cs:281-284 | the second loop raises the count to `size` if below it, adding exactly the newly allocated objects built by one factory call per missing resident |
| TypedPool.ObjectPool.Prepopulate | GenericFactoryPool.cs:292-298 | exactly max(count, 0) factory calls are made, and the objects they build are added to the old residents |
| TypedPool.ObjectPool.SetResetAction | GenericFactoryPool.cs:304-307 | the action is replaced and the residents are untouched |
| FactoryPool.GenericFactoryPool.constructor | GenericFactoryPool.cs:31-32 | the registry starts with no pools and a capacity of 0 (unlimited) |
| FactoryPool.GenericFactoryPool.Create | GenericFactoryPool.cs:48-61 | a null factory fails and changes nothing; otherwise the call registers a new empty pool for `t` if it had none, then takes a resident without calling the factory; from an empty pool it instead returns a new object built by exactly one factory call, with the factory's `recyclable` flag and an empty reset history, and not added to any pool; the state afterwards is one CreateStep allows |
| FactoryPool.GenericFactoryPool.Recycle | GenericFactoryPool.cs:75-86 | outcome and new state are those of PoolSpec.Recycle; an accepted item receives exactly the resets ResetsOnReturn lists, and a rejected one receives none |
| FactoryPool.GenericFactoryPool.SetMaxCapacity | GenericFactoryPool.cs:98-106 | outcome and new state are those of PoolSpec.SetMaxCapacity |
| FactoryPool.GenericFactoryPool.SetPoolResetAction | GenericFactoryPool.cs:118-126 | outcome and new state are those of PoolSpec.SetPoolResetAction |
| FactoryPool.GenericFactoryPool.ClearPool | GenericFactoryPool.cs:138-144 | the new state is PoolSpec.ClearPool of the old one |
| FactoryPool.GenericFactoryPool.GetPoolCount | GenericFactoryPool.cs:156-159 | the number of residents of `t`'s pool (the pool's `Count`, line 269), or 0 when `t` has none, and no state changes |
| FactoryPool.GenericFactoryPool.SetPoolSize | GenericFactoryPool.cs:173-185 | the outcome is CheckFill's verdict on `size`; a failure or a missing pool changes nothing and calls no factory; otherwise only the pool of `t` changes, to exactly max(size, 0) residents, as Resized allows; a shrink keeps a sub-bag of the old residents and calls no factory; a growth makes `size - count` factory calls and adds exactly the newly allocated objects they built (with the factory's `recyclable` flag and no resets) to all the old residents |
| FactoryPool.GenericFactoryPool.PrepopulatePool | GenericFactoryPool.cs:198-210 | the outcome is CheckFill's verdict on `count`; a failure or a missing pool changes nothing and calls no factory; otherwise only the pool of `t` changes: exactly max(count, 0) factory calls are made, and the newly allocated objects they built (with the factory's `recyclable` flag and no resets) are added to all the old residents |
| PoolProperties.CapSafeStepKeepsBound | GenericFactoryPool.cs:81-83 | any call other than a prepopulation that would overfill a pool, or a lowering of the cap below a current count, keeps every pool within the cap |
| PoolProperties.CapSafeRunKeepsBound | GenericFactoryPool.cs:81-83 | along any run of such calls from a state within the cap, every state stays within the cap |
| PoolProperties.PrepopulateCanExceedCap | GenericFactoryPool.cs:201-208 | the prepopulation check compares `count` with the cap, not the resulting size: a full pool of cap 1 prepopulated with 1 exceeds the cap |
| PoolProperties.LoweringCapLeavesPoolAbove | GenericFactoryPool.cs:98-106 | lowering the cap below a pool's count does not shrink the pool, which is then above the cap |
| PoolProperties.StepKeepsPools | GenericFactoryPool.cs:48-61 | no call removes a registered pool; only Create adds one, and only SetMaxCapacity changes the cap |
| PoolProperties.RunKeepsPools | GenericFactoryPool.cs:31 | along any run, a pool registered at one point is registered at every later point |
| PoolProperties.RejectedCallChangesNothing | GenericFactoryPool.cs:48-210 | every call rejected with an exception (null factory, item or action, negative capacity, target above the cap) leaves the registry unchanged |
| PoolProperties.TakeThenRecycleRestores | GenericFactoryPool.cs:236-255 | taking a resident from a pool within the cap and recycling it restores the registry exactly |
| PoolProperties.CreateRecycleCreate | GenericFactoryPool.cs:48-86 | for a new type, Create builds a new object; after recycling x, the next Create hands back x and leaves the registry as the first Create left it |
| PoolProperties.CapacityOneKeepsFirst | GenericFactoryPool.cs:81-83 | with a cap of 1, recycling x then y into an empty pool keeps x alone |
| PoolProperties.SetPoolSizeIdempotent | GenericFactoryPool.cs:277-285 | SetPoolSize leaves exactly the requested count, so repeating it with the same size changes nothing |
| PoolProperties.PrepopulateAccumulates | GenericFactoryPool.cs:292-298 | two prepopulations add their counts and keep every earlier resident |

## Left out

- Concurrency is not modelled. The model does not capture `ConcurrentDictionary` and `ConcurrentBag` thread safety, the race between `TryGetValue` and `TryAdd` in `Create<T>`, or the non-atomic count-then-add in `Recycle<T>`. Each operation is one atomic step.
- TypedPool.ObjectPool.Clear: the drain loop after `_pool.Clear()` (GenericFactoryPool.cs:263) is not modelled. It can only find items that another thread added in between.
- Generics and the `pool is ObjectPool<T>` casts: a type is a `TypeTag`, and each pool carries the tag it was made for. The invariant `Valid` keeps each pool under its own tag, which is why the casts always succeed.
- Objects.Factory.Make: a factory always builds a new object. Factories that hand back shared or already-pooled instances, or that throw, are not modelled.
- Reset actions that throw are not modelled. Neither is the effect of either reset on the object's state: only that a reset happened, and in which order, is recorded.
- Exceptions are modelled as `Outcome`/`Result` values. For `ArgumentNullException.ThrowIfNull` (GenericFactoryPool.cs:50, 77, 120, 175, 200), `NullArgument` carries the parameter name the exception carries. The `ArgumentException`s at lines 102, 178 and 203 are built from a message alone, so their parameter name is null; the name in `InvalidArgument("newCapacity" | "size" | "count")` stands for the parameter their message names. The message texts are not modelled.
- `int` counts and capacities are unbounded here. The 32-bit range of `Count` and `_maxCapacity` is not modelled.
- The static class with static fields is modelled as one explicitly constructed registry object.
- TypedPool.ObjectPool.ReturnObject: pooled items are modelled as reference objects, so a reset changes the item that is pooled. For a struct `T` the C# code resets copies instead. `ResetState` (GenericFactoryPool.cs:250) runs on the boxed copy made by the `is IRecyclable` test at line 248. The reset action (line 253) receives a copy. So the item added at line 254 is not reset. For a struct `T`, the null check at line 77 can also never fail, and `GetObject` (line 238) hands out copies rather than the pooled instance.
- IRecyclable is a capability flag (`recyclable`) on the pooled object. Its namespace (`Factories.Interfaces`, while the pool imports `GenericFactoryPool.Interfaces`) is not modelled.
- TypedPool.ObjectPool.GetObject: which resident `TryTake` returns is left unspecified. The thread-local ordering preferences of `ConcurrentBag` are not modelled.
