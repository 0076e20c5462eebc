/**
 * The handlers of the Empty cache state (no usable cache: freshly dropped, or
 * reinitialization forced). Every handler only builds a result; the one place
 * with effects, building a cache, records the factory calls it makes.
 */
module EmptyCacheState {
  import opened Wrappers
  import opened CacheStates

  /** Empty knows of no dirty transaction at all. */
  function IsDirtyTransactionExists(s: StateValue): (r: bool)
    requires s.Empty?
    ensures !r
  {
    false
  }

  /** Empty considers no transaction dirty. */
  function IsDirtyTransaction(s: StateValue, tx: Tx): (r: bool)
    requires s.Empty?
    ensures !r
  {
    false
  }

  /** Empty never has a cache to hand out without building one. */
  function GetCacheQuickNoBuild(s: StateValue, tx: Tx): (r: Option<CacheId>)
    requires s.Empty?
    ensures r.None?
  {
    None
  }

  /**
   * Build (or reuse) a cache. `created` is what the factory's `createCache`
   * does when it is called; an exception it throws, or one thrown by the
   * built cache's `commitCache`, ends the handler with no result.
   */
  function InitiateCacheCreation(s: StateValue, factory: CacheFactory, created: Creation): (r: Result<BuildResult, BuildFailure>)
    requires s.Empty?
    // whatever the branch, a caller that gets a result receives the cache the next state holds
    ensures r.Success? ==> r.value.next.Some? && r.value.cache.Some?
    ensures r.Success? ==>
              (r.value.next.value.Initializing? || r.value.next.value.Initialized?) &&
              r.value.next.value.cache == r.value.cache.value && r.value.next.value.context == s.context
    // a held cache that needs no reinitialization is reused, with no factory call
    ensures !s.context.reinitializationRequired && s.held.Some? ==>
              r.Success? && r.value.next.value.Initialized? && r.value.cache == s.held && r.value.calls == []
    // otherwise the lazy strategy goes to Initializing, reusing the held cache or creating a proxy
    ensures (s.context.reinitializationRequired || s.held.None?) && factory.HasDelayedInitialization() && s.held.Some? ==>
              r.Success? && r.value.next.value.Initializing? && r.value.cache == s.held && r.value.calls == []
    ensures (s.context.reinitializationRequired || s.held.None?) && factory.HasDelayedInitialization() && s.held.None? ==>
              (r.Failure? <==> created.CreateThrows?) &&
              (r.Failure? ==> r.error.calls == [CreateProxy]) &&
              (r.Success? ==> r.value.next.value.Initializing? && r.value.cache == Some(created.cache) &&
                              r.value.calls == [CreateProxy])
    // and the static strategy builds a cache, commits it once, and goes to Initialized
    ensures (s.context.reinitializationRequired || s.held.None?) && !factory.HasDelayedInitialization() ==>
              (r.Success? <==> created.Creates?) &&
              (created.CreateThrows? ==> r.Failure? && r.error.calls == [BuildCache]) &&
              (!created.CreateThrows? ==> (r.Success? ==> r.value.calls == [BuildCache, CommitBuiltCache(created.cache)]) &&
                                          (r.Failure? ==> r.error.calls == [BuildCache, CommitBuiltCache(created.cache)])) &&
              (r.Success? ==> r.value.next.value.Initialized? && r.value.cache == Some(created.cache))
  {
    if s.context.reinitializationRequired || s.held.None? then
      if factory.HasDelayedInitialization() then
        if s.held.Some? then
          Success(BuildResult(s.held, Some(Initializing(s.held.value, s.context)), []))
        else if created.CreateThrows? then
          Failure(BuildFailure([factory.CreateCacheCall()]))
        else
          Success(BuildResult(Some(created.cache), Some(Initializing(created.cache, s.context)), [factory.CreateCacheCall()]))
      else if created.CreateThrows? then
        Failure(BuildFailure([factory.CreateCacheCall()]))
      else
        var calls := [factory.CreateCacheCall(), CommitBuiltCache(created.cache)];
        if created.CommitThrows? then
          Failure(BuildFailure(calls))
        else
          Success(BuildResult(Some(created.cache), Some(Initialized(created.cache, s.context)), calls))
    else
      Success(BuildResult(s.held, Some(Initialized(s.held.value, s.context)), []))
  }

  /** `getCache` on Empty: start building. */
  function GetCache(s: StateValue, factory: CacheFactory, tx: Tx, created: Creation): (r: Result<BuildResult, BuildFailure>)
    requires s.Empty?
    ensures r == InitiateCacheCreation(s, factory, created)
  {
    InitiateCacheCreation(s, factory, created)
  }

  /** `getCacheIfNotLocked` on Empty: start building, exactly as `getCache`. */
  function GetCacheIfNotLocked(s: StateValue, factory: CacheFactory, tx: Tx, created: Creation): (r: Result<BuildResult, BuildFailure>)
    requires s.Empty?
    ensures r == InitiateCacheCreation(s, factory, created)
  {
    InitiateCacheCreation(s, factory, created)
  }

  /** A change always moves to Dirty, tracking exactly the changing transaction. */
  function OnChange(s: StateValue, tx: Tx): (r: CommandResult)
    requires s.Empty?
    ensures r.next.Some? && r.next.value.Dirty?
    ensures r.next.value.dirty.transactions == {tx}
    ensures r.next.value.held == s.held && r.next.value.dirty.cache == s.held
    ensures r.next.value.context == s.context
  {
    CommandResult(Some(Dirty(s.held, OneDirtyTransaction(tx, s.held), s.context)))
  }

  /** Nothing to prepare before a transaction completes: stay. */
  function BeforeTransactionComplete(s: StateValue, tx: Tx): (r: CommandResult)
    requires s.Empty?
    ensures r.next.None?
  {
    CommandResult(None)
  }

  /**
   * Completing a transaction is not expected on Empty; the state answers with a
   * new Empty over the same cache and context and reports all transactions done.
   */
  function CompleteTransaction(s: StateValue, tx: Tx): (r: DataResult)
    requires s.Empty?
    ensures r.data
    ensures r.next == Some(Empty(s.held, s.context))
  {
    DataResult(true, Some(Empty(s.held, s.context)))
  }

  /** A commit is not expected on Empty; the state stays. */
  function CommitCache(s: StateValue, cache: CacheId): (r: CommandResult)
    requires s.Empty?
    ensures r.next.None?
  {
    CommandResult(None)
  }

  /** Dropping moves to a new Empty with no cache and a fresh context. */
  function DropCache(s: StateValue, freshContext: StateContext): (r: CommandResult)
    requires s.Empty?
    ensures r.next == Some(Empty(None, freshContext))
  {
    CommandResult(Some(Empty(None, freshContext)))
  }

  /** Both build entry points give the same result for every input. */
  lemma GetCacheAgreesWithIfNotLocked(s: StateValue, factory: CacheFactory, tx: Tx, created: Creation)
    requires s.Empty?
    ensures GetCache(s, factory, tx, created) == GetCacheIfNotLocked(s, factory, tx, created)
  {
  }

  /**
   * After a drop, the next build never reuses the dropped cache: it always
   * asks the factory first, and succeeds with the factory's instance unless
   * the factory throws (or, building at once, the commit does).
   */
  lemma DropThenBuildCreatesNewCache(s: StateValue, freshContext: StateContext, factory: CacheFactory, created: Creation)
    requires s.Empty?
    ensures var e := DropCache(s, freshContext).next.value;
            var b := InitiateCacheCreation(e, factory, created);
            var calls := if b.Success? then b.value.calls else b.error.calls;
            && calls != [] && calls[0] == factory.CreateCacheCall()
            && (b.Success? <==> created.Creates? || (created.CommitThrows? && factory.HasDelayedInitialization()))
            && (b.Success? ==> b.value.cache == Some(created.cache))
  {
  }
}
