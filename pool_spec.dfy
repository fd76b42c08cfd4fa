/** The registry as a value: what every registry operation does to the map from
    type to pool contents and to the one global capacity. The classes in
    object_pool.dfy and generic_factory_pool.dfy are proved against these
    definitions, and pool_properties.dfy proves facts about them.

    Operations whose result the pool leaves open (which resident `GetObject`
    hands out, which residents a shrink drops, which new objects a factory
    builds) are relations between the state before and after; the others are
    functions. A newly built object is characterised here only by not being
    resident in any pool. */
module PoolSpec {
  import opened Objects

  /** The key of a pool: the pooled type (`typeof(T)` in the source). */
  datatype TypeTag = TypeTag(name: string)

  /** ArgumentNullException and ArgumentException, with the parameter's name. */
  datatype Error = NullArgument(param: string) | InvalidArgument(param: string)

  datatype Outcome = Pass | Fail(error: Error)

  datatype Result<T> = Success(value: T) | Failure(error: Error)

  /** The contents of one typed pool: its resident objects (an unordered bag)
      and its reset action, null while none is set. */
  datatype PoolView = PoolView(items: multiset<PooledObject>, resetAction: ResetAction?)

  /** The registry: one pool per type, and the global capacity (0 = unlimited). */
  datatype State = State(pools: map<TypeTag, PoolView>, maxCapacity: nat)

  /** An operation's outcome together with the state it leaves. */
  datatype Step = Step(outcome: Outcome, state: State)

  const EmptyPool := PoolView(multiset{}, null)

  /** No pool yet, and a capacity of 0: unlimited. */
  const Initial := State(map[], 0)

  /** The pool registered for `t`, or an empty one when there is none. */
  function PoolOf(s: State, t: TypeTag): PoolView
  {
    if t in s.pools then s.pools[t] else EmptyPool
  }

  /** GetPoolCount: the number of residents of `t`'s pool, 0 when it has none. */
  function PoolCount(s: State, t: TypeTag): nat
  {
    |PoolOf(s, t).items|
  }

  function WithPool(s: State, t: TypeTag, p: PoolView): State
  {
    s.(pools := s.pools[t := p])
  }

  function Max0(n: int): nat
  {
    if n < 0 then 0 else n
  }

  /** The capacity gate `Recycle` applies to the count before the return. */
  predicate Admits(count: nat, maxCapacity: nat)
  {
    count < maxCapacity || maxCapacity == 0
  }

  /** The validation of `SetPoolSize` and `PrepopulatePool`: above a positive cap. */
  predicate ExceedsCap(n: int, maxCapacity: nat)
  {
    n > maxCapacity && maxCapacity > 0
  }

  /** Every pool holds at most the cap, or the cap is unlimited. */
  predicate WithinCap(s: State)
  {
    s.maxCapacity == 0 || forall t | t in s.pools :: |s.pools[t].items| <= s.maxCapacity
  }

  ghost predicate Resident(s: State, o: PooledObject)
  {
    exists t | t in s.pools :: o in s.pools[t].items
  }

  /** None of `m` is resident in `s`: objects a factory has just built. */
  ghost predicate NoneResident(s: State, m: multiset<PooledObject>)
  {
    forall o | o in m :: !Resident(s, o)
  }

  // ---------------------------------------------------------------------------
  // The registry operations
  // ---------------------------------------------------------------------------

  /** Create<T>(factory): a null factory is rejected; otherwise the pool for `t`
      is registered empty if missing, and a resident is taken from it, or, when
      it has none, the factory builds a new object that is not added. */
  ghost predicate CreateStep(s: State, t: TypeTag, factory: Factory?, r: Result<PooledObject>, s': State)
  {
    if factory == null then
      r == Failure(NullArgument("factoryMethod")) && s' == s
    else
      var p := PoolOf(s, t);
      r.Success? &&
      if p.items != multiset{} then
        r.value in p.items && s' == WithPool(s, t, p.(items := p.items - multiset{r.value}))
      else
        !Resident(s, r.value) && s' == WithPool(s, t, p)
  }

  /** Recycle<T>(item) takes the item into an existing pool when the gate admits it. */
  predicate Accepts(s: State, t: TypeTag, item: PooledObject?)
  {
    item != null && t in s.pools && Admits(|s.pools[t].items|, s.maxCapacity)
  }

  function Recycle(s: State, t: TypeTag, item: PooledObject?): (r: Step)
    ensures r.outcome == Pass <==> item != null
    ensures item == null ==> r.outcome == Fail(NullArgument("item"))
    ensures r.state.maxCapacity == s.maxCapacity && r.state.pools.Keys == s.pools.Keys
    ensures forall u | u != t :: PoolOf(r.state, u) == PoolOf(s, u)
    ensures PoolOf(r.state, t).resetAction == PoolOf(s, t).resetAction
    ensures PoolCount(r.state, t) == PoolCount(s, t) + (if Accepts(s, t, item) then 1 else 0)
    ensures Accepts(s, t, item) ==> PoolOf(r.state, t).items == PoolOf(s, t).items + multiset{item}
    ensures !Accepts(s, t, item) ==> r.state == s
    ensures 0 < s.maxCapacity && PoolCount(s, t) <= s.maxCapacity ==> PoolCount(r.state, t) <= s.maxCapacity
  {
    if item == null then
      Step(Fail(NullArgument("item")), s)
    else if Accepts(s, t, item) then
      var p := s.pools[t];
      Step(Pass, WithPool(s, t, p.(items := p.items + multiset{item})))
    else
      Step(Pass, s)
  }

  /** SetMaxCapacity(n): a negative capacity is rejected, any other replaces the cap. */
  function SetMaxCapacity(s: State, newCapacity: int): (r: Step)
    ensures r.outcome.Fail? <==> newCapacity < 0
    ensures r.outcome.Fail? ==> r.state == s && r.outcome == Fail(InvalidArgument("newCapacity"))
    ensures r.outcome == Pass ==> r.state.pools == s.pools && r.state.maxCapacity == newCapacity
  {
    if newCapacity < 0 then Step(Fail(InvalidArgument("newCapacity")), s)
    else Step(Pass, s.(maxCapacity := newCapacity))
  }

  /** SetPoolResetAction<T>(action): a null action is rejected; the action is set
      on an existing pool and is lost when `t` has none. */
  function SetPoolResetAction(s: State, t: TypeTag, action: ResetAction?): (r: Step)
    ensures r.outcome == Pass <==> action != null
    ensures action == null ==> r.outcome == Fail(NullArgument("resetAction"))
    ensures t !in s.pools || action == null ==> r.state == s
    ensures r.state.maxCapacity == s.maxCapacity && r.state.pools.Keys == s.pools.Keys
    ensures forall u | u in s.pools :: r.state.pools[u].items == s.pools[u].items
    ensures t in s.pools && action != null ==> r.state.pools[t].resetAction == action
    ensures forall u | u in s.pools && u != t :: r.state.pools[u] == s.pools[u]
  {
    if action == null then Step(Fail(NullArgument("resetAction")), s)
    else if t in s.pools then Step(Pass, WithPool(s, t, s.pools[t].(resetAction := action)))
    else Step(Pass, s)
  }

  /** ClearPool<T>(): empties an existing pool, keeping its reset action. */
  function ClearPool(s: State, t: TypeTag): (s': State)
    ensures PoolCount(s', t) == 0
    ensures s'.maxCapacity == s.maxCapacity && s'.pools.Keys == s.pools.Keys
    ensures PoolOf(s', t).resetAction == PoolOf(s, t).resetAction
    ensures forall u | u != t :: PoolOf(s', u) == PoolOf(s, u)
  {
    if t in s.pools then WithPool(s, t, s.pools[t].(items := multiset{})) else s
  }

  /** The checks `SetPoolSize` and `PrepopulatePool` make before touching any
      state: a null factory first, then a target above a positive cap. */
  function CheckFill(s: State, n: int, factory: Factory?, param: string): (r: Outcome)
    ensures r == Pass <==> factory != null && !ExceedsCap(n, s.maxCapacity)
    ensures factory == null ==> r == Fail(NullArgument("factoryMethod"))
    ensures factory != null && ExceedsCap(n, s.maxCapacity) ==> r == Fail(InvalidArgument(param))
  {
    if factory == null then Fail(NullArgument("factoryMethod"))
    else if ExceedsCap(n, s.maxCapacity) then Fail(InvalidArgument(param))
    else Pass
  }

  /** ObjectPool.SetSize: exactly `n` residents afterwards; a shrink keeps some of
      the old residents, a growth keeps all of them and adds new objects. */
  ghost predicate Resized(s: State, p: PoolView, n: nat, p': PoolView)
  {
    p'.resetAction == p.resetAction && |p'.items| == n &&
    (n <= |p.items| ==> p'.items <= p.items) &&
    (|p.items| < n ==> p.items <= p'.items && NoneResident(s, p'.items - p.items))
  }

  /** ObjectPool.Prepopulate: `n` new objects added to the old residents. */
  ghost predicate Prepopulated(s: State, p: PoolView, n: nat, p': PoolView)
  {
    p'.resetAction == p.resetAction && p.items <= p'.items &&
    |p'.items| == |p.items| + n && NoneResident(s, p'.items - p.items)
  }

  /** SetPoolSize<T>(size, factory): validated; a no-op without a pool. */
  ghost predicate SetPoolSizeStep(s: State, t: TypeTag, size: int, factory: Factory?, s': State)
  {
    if CheckFill(s, size, factory, "size").Fail? || t !in s.pools then s' == s
    else t in s'.pools && s' == WithPool(s, t, s'.pools[t]) && Resized(s, s.pools[t], Max0(size), s'.pools[t])
  }

  /** PrepopulatePool<T>(count, factory): validated; a no-op without a pool. */
  ghost predicate PrepopulatePoolStep(s: State, t: TypeTag, count: int, factory: Factory?, s': State)
  {
    if CheckFill(s, count, factory, "count").Fail? || t !in s.pools then s' == s
    else t in s'.pools && s' == WithPool(s, t, s'.pools[t]) && Prepopulated(s, s.pools[t], Max0(count), s'.pools[t])
  }

  // ---------------------------------------------------------------------------
  // Sequences of calls
  // ---------------------------------------------------------------------------

  /** A call of a state-changing registry operation (GetPoolCount changes
      nothing); a call of Create records the result it returned. */
  datatype Op =
    | CreateOp(t: TypeTag, factory: Factory?, result: Result<PooledObject>)
    | RecycleOp(t: TypeTag, item: PooledObject?)
    | SetMaxCapacityOp(newCapacity: int)
    | SetPoolResetActionOp(t: TypeTag, action: ResetAction?)
    | ClearPoolOp(t: TypeTag)
    | SetPoolSizeOp(t: TypeTag, size: int, factory: Factory?)
    | PrepopulatePoolOp(t: TypeTag, count: int, factory: Factory?)

  ghost predicate Next(s: State, op: Op, s': State)
  {
    match op
    case CreateOp(t, factory, r) => CreateStep(s, t, factory, r, s')
    case RecycleOp(t, item) => s' == Recycle(s, t, item).state
    case SetMaxCapacityOp(n) => s' == SetMaxCapacity(s, n).state
    case SetPoolResetActionOp(t, action) => s' == SetPoolResetAction(s, t, action).state
    case ClearPoolOp(t) => s' == ClearPool(s, t)
    case SetPoolSizeOp(t, size, factory) => SetPoolSizeStep(s, t, size, factory, s')
    case PrepopulatePoolOp(t, count, factory) => PrepopulatePoolStep(s, t, count, factory, s')
  }

  /** `states[i + 1]` is what `ops[i]` leaves of `states[i]`. */
  ghost predicate Run(states: seq<State>, ops: seq<Op>)
  {
    |states| == |ops| + 1 &&
    forall i | 0 <= i < |ops| :: Next(states[i], ops[i], states[i + 1])
  }
}
