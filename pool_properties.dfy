/** Properties of the registry that relate several calls: the capacity bound
    over whole runs, what breaks it, round trips between taking and returning,
    and the usage scenarios the pool is meant to support. */
module PoolProperties {
  import opened Objects
  import opened PoolSpec

  // ---------------------------------------------------------------------------
  // The capacity bound
  // ---------------------------------------------------------------------------

  /** Calls that cannot lift a pool above a positive cap: all but a Prepopulate
      that would overfill the pool and a SetMaxCapacity below a current count. */
  predicate CapSafe(s: State, op: Op)
  {
    match op
    case SetMaxCapacityOp(n) => n <= 0 || forall t | t in s.pools :: |s.pools[t].items| <= n
    case PrepopulatePoolOp(t, count, _) => s.maxCapacity == 0 || PoolCount(s, t) + Max0(count) <= s.maxCapacity
    case _ => true
  }

  /** Replacing one pool by one within the cap keeps the whole registry within it. */
  lemma ReplacingPoolKeepsBound(s: State, t: TypeTag, p: PoolView)
    requires WithinCap(s) && (s.maxCapacity == 0 || |p.items| <= s.maxCapacity)
    ensures WithinCap(WithPool(s, t, p))
  {
  }

  /** One cap-safe call keeps every pool within the cap. */
  lemma CapSafeStepKeepsBound(s: State, op: Op, s': State)
    requires WithinCap(s) && CapSafe(s, op) && Next(s, op, s')
    ensures WithinCap(s')
  {
    match op {
      case CreateOp(t, factory, r) =>
        if factory != null {
          ReplacingPoolKeepsBound(s, t, s'.pools[t]);
        }
      case RecycleOp(t, item) =>
        if Accepts(s, t, item) {
          ReplacingPoolKeepsBound(s, t, s'.pools[t]);
        }
      case SetMaxCapacityOp(n) =>
      case SetPoolResetActionOp(t, action) =>
        if action != null && t in s.pools {
          ReplacingPoolKeepsBound(s, t, s'.pools[t]);
        }
      case ClearPoolOp(t) =>
        if t in s.pools {
          ReplacingPoolKeepsBound(s, t, s'.pools[t]);
        }
      case SetPoolSizeOp(t, size, factory) =>
        if CheckFill(s, size, factory, "size") == Pass && t in s.pools {
          ReplacingPoolKeepsBound(s, t, s'.pools[t]);
        }
      case PrepopulatePoolOp(t, count, factory) =>
        if CheckFill(s, count, factory, "count") == Pass && t in s.pools {
          ReplacingPoolKeepsBound(s, t, s'.pools[t]);
        }
    }
  }

  /** Along any run of cap-safe calls, every pool stays within the cap. */
  lemma {:induction false} CapSafeRunKeepsBound(states: seq<State>, ops: seq<Op>)
    requires Run(states, ops) && WithinCap(states[0])
    requires forall i | 0 <= i < |ops| :: CapSafe(states[i], ops[i])
    ensures forall i | 0 <= i < |states| :: WithinCap(states[i])
  {
    if ops != [] {
      CapSafeStepKeepsBound(states[0], ops[0], states[1]);
      assert Run(states[1..], ops[1..]) by {
        forall i | 0 <= i < |ops| - 1
          ensures Next(states[1..][i], ops[1..][i], states[1..][i + 1])
        {
          assert Next(states[i + 1], ops[i + 1], states[i + 2]);
        }
      }
      CapSafeRunKeepsBound(states[1..], ops[1..]);
      forall i | 1 <= i < |states|
        ensures WithinCap(states[i])
      {
        assert states[i] == states[1..][i - 1];
      }
    }
  }

  /** PrepopulatePool checks `count` against the cap, not the count it leads to. */
  lemma PrepopulateCanExceedCap(s: State, t: TypeTag, factory: Factory, s': State)
    requires s.maxCapacity == 1 && PoolCount(s, t) == 1 && t in s.pools
    requires Next(s, PrepopulatePoolOp(t, 1, factory), s')
    ensures !WithinCap(s')
  {
  }

  /** Lowering the cap does not shrink a pool that already holds more. */
  lemma LoweringCapLeavesPoolAbove(s: State, t: TypeTag, s': State)
    requires PoolCount(s, t) == 2 && t in s.pools
    requires Next(s, SetMaxCapacityOp(1), s')
    ensures !WithinCap(s')
  {
  }

  // ---------------------------------------------------------------------------
  // Registry entries persist
  // ---------------------------------------------------------------------------

  /** No call removes a pool, and only SetMaxCapacity changes the cap. */
  lemma StepKeepsPools(s: State, op: Op, s': State)
    requires Next(s, op, s')
    ensures s.pools.Keys <= s'.pools.Keys
    ensures !op.SetMaxCapacityOp? ==> s'.maxCapacity == s.maxCapacity
    ensures !op.CreateOp? ==> s'.pools.Keys == s.pools.Keys
  {
  }

  /** Along any run, a pool once registered stays registered. */
  lemma {:induction false} RunKeepsPools(states: seq<State>, ops: seq<Op>, i: nat, j: nat)
    requires Run(states, ops) && i <= j < |states|
    ensures states[i].pools.Keys <= states[j].pools.Keys
    decreases j - i
  {
    if i < j {
      StepKeepsPools(states[i], ops[i], states[i + 1]);
      RunKeepsPools(states, ops, i + 1, j);
    }
  }

  // ---------------------------------------------------------------------------
  // Rejected calls
  // ---------------------------------------------------------------------------

  /** The calls the registry rejects with an exception. */
  predicate Rejected(s: State, op: Op)
  {
    match op
    case CreateOp(_, factory, _) => factory == null
    case RecycleOp(_, item) => item == null
    case SetMaxCapacityOp(n) => n < 0
    case SetPoolResetActionOp(_, action) => action == null
    case ClearPoolOp(_) => false
    case SetPoolSizeOp(_, size, factory) => CheckFill(s, size, factory, "size").Fail?
    case PrepopulatePoolOp(_, count, factory) => CheckFill(s, count, factory, "count").Fail?
  }

  /** Validation happens before any change: a rejected call changes nothing. */
  lemma RejectedCallChangesNothing(s: State, op: Op, s': State)
    requires Next(s, op, s') && Rejected(s, op)
    ensures s' == s
  {
  }

  // ---------------------------------------------------------------------------
  // Taking and returning
  // ---------------------------------------------------------------------------

  /** Taking a resident and recycling it restores the registry, when the pool
      was within the cap. */
  lemma TakeThenRecycleRestores(s: State, t: TypeTag, factory: Factory, r: Result<PooledObject>, s1: State)
    requires WithinCap(s) && PoolCount(s, t) > 0
    requires CreateStep(s, t, factory, r, s1)
    ensures r.Success? && r.value in s.pools[t].items
    ensures Recycle(s1, t, r.value).state == s
  {
    var p := s.pools[t];
    assert p.items - multiset{r.value} + multiset{r.value} == p.items;
  }

  /** Create, Recycle(x), Create on a type never used before: the second Create
      hands back x and leaves the registry as the first Create left it, whatever
      the cap. */
  lemma CreateRecycleCreate(s0: State, t: TypeTag, f1: Factory, f2: Factory, x: PooledObject,
                            r1: Result<PooledObject>, s1: State, s2: State, r2: Result<PooledObject>, s3: State)
    requires t !in s0.pools
    requires CreateStep(s0, t, f1, r1, s1)
    requires s2 == Recycle(s1, t, x).state
    requires CreateStep(s2, t, f2, r2, s3)
    ensures r1.Success? && !Resident(s0, r1.value)
    ensures r2 == Success(x) && s3 == s1 && PoolCount(s3, t) == 0
  {
  }

  /** With a cap of 1, recycling x and then y into an empty pool keeps only x. */
  lemma CapacityOneKeepsFirst(s: State, t: TypeTag, x: PooledObject, y: PooledObject, s1: State, s2: State)
    requires s.maxCapacity == 1 && t in s.pools && PoolCount(s, t) == 0
    requires s1 == Recycle(s, t, x).state && s2 == Recycle(s1, t, y).state
    ensures PoolCount(s2, t) == 1 && s2.pools[t].items == multiset{x}
  {
  }

  // ---------------------------------------------------------------------------
  // Resizing and prepopulating
  // ---------------------------------------------------------------------------

  lemma SubMultisetOfSameSize<T>(a: multiset<T>, b: multiset<T>)
    requires a <= b && |a| == |b|
    ensures a == b
  {
    assert |b - a| == |b| - |a|;
  }

  /** A second SetPoolSize to the same size finds the pool at that size and
      leaves it as it is. */
  lemma SetPoolSizeIdempotent(s: State, t: TypeTag, size: int, factory: Factory, s1: State, s2: State)
    requires t in s.pools && CheckFill(s, size, factory, "size") == Pass
    requires SetPoolSizeStep(s, t, size, factory, s1) && SetPoolSizeStep(s1, t, size, factory, s2)
    ensures PoolCount(s1, t) == Max0(size)
    ensures s2 == s1
  {
    SubMultisetOfSameSize(s2.pools[t].items, s1.pools[t].items);
  }

  /** Two PrepopulatePool calls add up, and keep every earlier resident. */
  lemma PrepopulateAccumulates(s: State, t: TypeTag, a: int, b: int, factory: Factory, s1: State, s2: State)
    requires t in s.pools && !ExceedsCap(a, s.maxCapacity) && !ExceedsCap(b, s.maxCapacity)
    requires PrepopulatePoolStep(s, t, a, factory, s1) && PrepopulatePoolStep(s1, t, b, factory, s2)
    ensures PoolCount(s2, t) == PoolCount(s, t) + Max0(a) + Max0(b)
    ensures s.pools[t].items <= s2.pools[t].items
  {
  }
}
