/**
 * The values shared by the cache lifecycle state machine and its states:
 * cache instances, transactions, the per-state context, the dirty-transaction
 * record, the four state variants, the two cache construction strategies and
 * the results a state handler hands back to the machine.
 */
module CacheStates {
  import opened Wrappers

  /** A cache instance (or a proxy standing in for it), known by its identity. */
  type CacheId = nat

  /** A database transaction, known by its identity. */
  type Tx = nat

  /** The per-state context carried from state to state (`NonRuntimeCacheContext`). */
  datatype StateContext = StateContext(reinitializationRequired: bool)

  /** The record of transactions that dirtied a cache (`DirtyTransactions`). */
  datatype DirtyTransactions = DirtyTransactions(transactions: set<Tx>, cache: Option<CacheId>)

  /** `DirtyTransactions.createOneDirtyTransaction`: one transaction marked dirty over a cache. */
  function OneDirtyTransaction(tx: Tx, cache: Option<CacheId>): (d: DirtyTransactions)
    ensures d.transactions == {tx} && d.cache == cache
  {
    DirtyTransactions({tx}, cache)
  }

  /**
   * The content of a cache state; each constructor stands for what the state
   * factory's `create...State` builds. Only `Empty` has its handlers modelled
   * here; the handlers of the other three are inputs of the machine.
   */
  datatype StateValue =
    | Empty(held: Option<CacheId>, context: StateContext)
    | Initializing(cache: CacheId, context: StateContext)
    | Initialized(cache: CacheId, context: StateContext)
    | Dirty(held: Option<CacheId>, dirty: DirtyTransactions, context: StateContext)

  /** A call a build handler makes on the cache factory or on a cache it created. */
  datatype FactoryCall =
    | CreateProxy            // LazyInitializedCacheFactory.createProxy
    | BuildCache             // StaticCacheFactory.buildCache
    | CommitBuiltCache(cache: CacheId)  // CacheImplementation.commitCache on a built cache

  /**
   * What asking the cache factory for a cache does: it returns an instance
   * whose `commitCache` succeeds, or an instance whose `commitCache` throws,
   * or `createCache` itself throws.
   */
  datatype Creation = Creates(cache: CacheId) | CommitThrows(cache: CacheId) | CreateThrows

  /** The two adapters the machine can be created with. */
  datatype CacheFactory = LazyCacheFactory | StaticCacheFactory {

    /** Whether the cache is built later, in the background, behind a proxy. */
    function HasDelayedInitialization(): bool {
      LazyCacheFactory?
    }

    /** The call that `createCache` makes on the adapted factory. */
    function CreateCacheCall(): FactoryCall {
      if LazyCacheFactory? then CreateProxy else BuildCache
    }
  }

  /** The lazy adapter delays initialization and creates caches as proxies. */
  lemma LazyFactoryIsDelayed()
    ensures LazyCacheFactory.HasDelayedInitialization()
    ensures LazyCacheFactory.CreateCacheCall() == CreateProxy
  {
  }

  /** The static adapter builds immediately, by calling the adapted factory's build. */
  lemma StaticFactoryIsImmediate()
    ensures !StaticCacheFactory.HasDelayedInitialization()
    ensures StaticCacheFactory.CreateCacheCall() == BuildCache
  {
  }

  /** `StateCommandResult`: an optional next state (`None` means stay). */
  datatype CommandResult = CommandResult(next: Option<StateValue>)

  /**
   * `StateCommandResultWithCache`: the cache handed to the caller, the optional
   * next state, and the factory calls the handler made to produce them.
   */
  datatype BuildResult = BuildResult(cache: Option<CacheId>, next: Option<StateValue>, calls: seq<FactoryCall>)

  /** An exception out of a build handler, with the factory calls made before it was thrown. */
  datatype BuildFailure = BuildFailure(calls: seq<FactoryCall>)

  /** `StateCommandResultWithData<Boolean>`: a flag and the optional next state. */
  datatype DataResult = DataResult(data: bool, next: Option<StateValue>)
}
