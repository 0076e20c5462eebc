/**
 * The cache lifecycle state machine: one current state, replaced only through
 * compare-and-set. Every operation reads the current state, asks that state's
 * handler for a result (a payload and an optional next state) and applies the
 * result with `ApplyCommandResult`.
 *
 * The model is sequential: nothing changes the state between an operation's
 * read and its compare-and-set, so the retry loops of the operations always
 * finish in their first iteration, and each operation is written as that one
 * iteration. `discard` and `accept` on state objects are recorded in a ghost
 * event log.
 */
module CacheStateMachine {
  import opened Wrappers
  import opened CacheStates
  import EmptyCacheState

  /**
   * The handlers of the Initializing, Initialized and Dirty states, whose code
   * is not part of this model, given as total functions of the state content.
   */
  datatype VariantHandlers = VariantHandlers(
    isDirtyTransactionExists: StateValue -> bool,
    isDirtyTransaction: (StateValue, Tx) -> bool,
    getCacheQuickNoBuild: (StateValue, Tx) -> Option<CacheId>,
    getCache: (StateValue, Tx, Creation) -> Result<BuildResult, BuildFailure>,
    getCacheIfNotLocked: (StateValue, Tx, Creation) -> Result<BuildResult, BuildFailure>,
    onChange: (StateValue, Tx) -> CommandResult,
    beforeTransactionComplete: (StateValue, Tx) -> CommandResult,
    completeTransaction: (StateValue, Tx) -> DataResult,
    commitCache: (StateValue, CacheId) -> CommandResult,
    dropCache: StateValue -> CommandResult)

  // Dispatch of each handler on the state variant: Empty uses the handlers
  // modelled in EmptyCacheState, the other variants the given ones.

  function DirtyTransactionExists(h: VariantHandlers, v: StateValue): bool {
    if v.Empty? then EmptyCacheState.IsDirtyTransactionExists(v) else h.isDirtyTransactionExists(v)
  }

  function DirtyFor(h: VariantHandlers, v: StateValue, tx: Tx): bool {
    if v.Empty? then EmptyCacheState.IsDirtyTransaction(v, tx) else h.isDirtyTransaction(v, tx)
  }

  function QuickResult(h: VariantHandlers, v: StateValue, tx: Tx): Option<CacheId> {
    if v.Empty? then EmptyCacheState.GetCacheQuickNoBuild(v, tx) else h.getCacheQuickNoBuild(v, tx)
  }

  function BuildFor(h: VariantHandlers, f: CacheFactory, v: StateValue, tx: Tx, created: Creation): Result<BuildResult, BuildFailure> {
    if v.Empty? then EmptyCacheState.GetCache(v, f, tx, created) else h.getCache(v, tx, created)
  }

  function BuildIfNotLockedFor(h: VariantHandlers, f: CacheFactory, v: StateValue, tx: Tx, created: Creation): Result<BuildResult, BuildFailure> {
    if v.Empty? then EmptyCacheState.GetCacheIfNotLocked(v, f, tx, created) else h.getCacheIfNotLocked(v, tx, created)
  }

  function ChangeFor(h: VariantHandlers, v: StateValue, tx: Tx): CommandResult {
    if v.Empty? then EmptyCacheState.OnChange(v, tx) else h.onChange(v, tx)
  }

  function BeforeCompleteFor(h: VariantHandlers, v: StateValue, tx: Tx): CommandResult {
    if v.Empty? then EmptyCacheState.BeforeTransactionComplete(v, tx) else h.beforeTransactionComplete(v, tx)
  }

  function CompleteFor(h: VariantHandlers, v: StateValue, tx: Tx): DataResult {
    if v.Empty? then EmptyCacheState.CompleteTransaction(v, tx) else h.completeTransaction(v, tx)
  }

  function CommitFor(h: VariantHandlers, v: StateValue, cache: CacheId): CommandResult {
    if v.Empty? then EmptyCacheState.CommitCache(v, cache) else h.commitCache(v, cache)
  }

  function DropFor(h: VariantHandlers, v: StateValue, freshContext: StateContext): CommandResult {
    if v.Empty? then EmptyCacheState.DropCache(v, freshContext) else h.dropCache(v)
  }

  /** A published (or candidate) state object; its identity is what compare-and-set compares. */
  class CacheState {
    const value: StateValue

    constructor (value: StateValue)
      ensures this.value == value
    {
      this.value := value;
    }
  }

  /**
   * What happened, in order: the effects of `discard` and `accept` on state
   * objects, defect reports, and the audit's all-transactions-completed notice.
   */
  datatype Event = Discarded(state: CacheState) | Accepted(state: CacheState) | DefectReported | AllTransactionsCompleted(tx: Tx)

  class Machine {
    /** The construction strategy, fixed for the machine's lifetime. */
    const factory: CacheFactory
    const handlers: VariantHandlers
    /** The context a newly created Empty state receives. */
    const freshContext: StateContext
    /** The current state. */
    var state: CacheState
    ghost var events: seq<Event>

    /** The machine starts in a new Empty state with no cache. */
    constructor (factory: CacheFactory, handlers: VariantHandlers, freshContext: StateContext)
      ensures this.factory == factory && this.handlers == handlers && this.freshContext == freshContext
      ensures fresh(state) && state.value == Empty(None, freshContext)
      ensures events == []
    {
      this.factory := factory;
      this.handlers := handlers;
      this.freshContext := freshContext;
      state := new CacheState(Empty(None, freshContext));
      events := [];
    }

    /**
     * The outcome of applying a handler result whose expected state was the
     * current one: with no next state nothing changes, otherwise a new object
     * holding the next state is current, the old one was discarded and the new
     * one accepted.
     */
    twostate predicate Stepped(next: Option<StateValue>)
      reads this
    {
      if next.None? then
        state == old(state) && events == old(events)
      else
        fresh(state) && state.value == next.value &&
        events == old(events) + [Discarded(old(state)), Accepted(state)]
    }

    /** Whether the current state considers `tx` dirty; no transition. */
    method IsDirtyTransaction(tx: Tx) returns (r: bool)
      ensures r == DirtyFor(handlers, state.value, tx)
      ensures state.value.Empty? ==> !r
    {
      r := DirtyFor(handlers, state.value, tx);
    }

    /** The cache the current state hands out without building; no transition. */
    method GetCacheQuick(tx: Tx) returns (r: Option<CacheId>)
      ensures r == QuickResult(handlers, state.value, tx)
      ensures state.value.Empty? ==> r.None?
    {
      r := QuickResult(handlers, state.value, tx);
    }

    /**
     * Apply a handler result computed from `current`. `next == null` means stay;
     * a next state identical to `current` is a handler defect treated as stay;
     * otherwise the compare-and-set either swaps in `next` (discarding the old
     * state, accepting the new) or fails (discarding the candidate).
     */
    method ApplyCommandResult(current: CacheState, next: CacheState?) returns (ok: bool)
      modifies this
      ensures next == null ==> ok && state == old(state) && events == old(events)
      ensures next == current ==>
                ok && state == old(state) && events == old(events) + [DefectReported]
      ensures next != null && next != current && old(state) == current ==>
                ok && state == next && events == old(events) + [Discarded(current), Accepted(next)]
      ensures next != null && next != current && old(state) != current ==>
                !ok && state == old(state) && events == old(events) + [Discarded(next)]
    {
      if next == null {
        return true;
      }
      if next == current {
        events := events + [DefectReported];
        return true;
      }
      if state == current {
        state := next;
        events := events + [Discarded(current), Accepted(next)];
        return true;
      }
      events := events + [Discarded(next)];
      return false;
    }

    /** Publish a handler's optional next state, computed from the current state. */
    method Transition(next: Option<StateValue>)
      modifies this
      ensures Stepped(next)
    {
      var current := state;
      var ok: bool;
      if next.None? {
        ok := ApplyCommandResult(current, null);
      } else {
        var candidate := new CacheState(next.value);
        ok := ApplyCommandResult(current, candidate);
      }
      // the compare-and-set cannot fail: nothing replaced the state since it was read
      assert ok;
    }

    /**
     * Get a usable cache. A quick result is returned with no transition;
     * otherwise the current state's build handler runs and its result is
     * applied. `created` is what the factory's `createCache` does if called; an
     * exception out of the build handler leaves the machine as it was and is
     * returned as a failure.
     */
    method GetCache(tx: Tx, isWriteTransaction: bool, created: Creation) returns (r: Result<Option<CacheId>, BuildFailure>)
      modifies this
      ensures var q := QuickResult(handlers, old(state.value), tx);
              q.Some? ==> r == Success(q) && state == old(state) && events == old(events)
      ensures var q := QuickResult(handlers, old(state.value), tx);
              var b := BuildFor(handlers, factory, old(state.value), tx, created);
              q.None? && b.Failure? ==> r == Failure(b.error) && state == old(state) && events == old(events)
      ensures var q := QuickResult(handlers, old(state.value), tx);
              var b := BuildFor(handlers, factory, old(state.value), tx, created);
              q.None? && b.Success? ==> r == Success(b.value.cache) && Stepped(b.value.next)
    {
      var current := state;
      var quick := QuickResult(handlers, current.value, tx);
      if quick.Some? {
        return Success(quick);
      }
      var result := BuildFor(handlers, factory, current.value, tx, created);
      if result.Failure? {
        return Failure(result.error);
      }
      Transition(result.value.next);
      r := Success(result.value.cache);
    }

    /**
     * As `GetCache`, except that when there is no quick result and some dirty
     * transaction exists it returns `None` (locked) without building.
     */
    method GetCacheIfNotLocked(tx: Tx, isWriteTransaction: bool, created: Creation) returns (r: Result<Option<CacheId>, BuildFailure>)
      modifies this
      ensures var q := QuickResult(handlers, old(state.value), tx);
              q.Some? ==> r == Success(q) && state == old(state) && events == old(events)
      ensures var q := QuickResult(handlers, old(state.value), tx);
              q.None? && DirtyTransactionExists(handlers, old(state.value)) ==>
                r == Success(None) && state == old(state) && events == old(events)
      ensures var q := QuickResult(handlers, old(state.value), tx);
              var b := BuildIfNotLockedFor(handlers, factory, old(state.value), tx, created);
              q.None? && !DirtyTransactionExists(handlers, old(state.value)) && b.Failure? ==>
                r == Failure(b.error) && state == old(state) && events == old(events)
      ensures var q := QuickResult(handlers, old(state.value), tx);
              var b := BuildIfNotLockedFor(handlers, factory, old(state.value), tx, created);
              q.None? && !DirtyTransactionExists(handlers, old(state.value)) && b.Success? ==>
                r == Success(b.value.cache) && Stepped(b.value.next)
    {
      var current := state;
      var quick := QuickResult(handlers, current.value, tx);
      if quick.Some? {
        return Success(quick);
      }
      if DirtyTransactionExists(handlers, current.value) {
        return Success(None);
      }
      var result := BuildIfNotLockedFor(handlers, factory, current.value, tx, created);
      if result.Failure? {
        return Failure(result.error);
      }
      Transition(result.value.next);
      r := Success(result.value.cache);
    }

    /** A change by `tx`; a handler that does not switch state is reported as a defect. */
    method OnChange(tx: Tx)
      modifies this
      ensures var n := ChangeFor(handlers, old(state.value), tx).next;
              n.None? ==> state == old(state) && events == old(events) + [DefectReported]
      ensures var n := ChangeFor(handlers, old(state.value), tx).next;
              n.Some? ==> Stepped(n)
    {
      var result := ChangeFor(handlers, state.value, tx);
      if result.next.None? {
        events := events + [DefectReported];
      }
      Transition(result.next);
    }

    /** Notification that `tx` is about to complete. */
    method BeforeTransactionComplete(tx: Tx)
      modifies this
      ensures Stepped(BeforeCompleteFor(handlers, old(state.value), tx).next)
    {
      var result := BeforeCompleteFor(handlers, state.value, tx);
      Transition(result.next);
    }

    /**
     * Notification that `tx` completed; a handler that does not switch state is
     * reported as a defect. When the handler says all dirty transactions
     * completed, the audit is told so after the result is applied.
     */
    method OnTransactionCompleted(tx: Tx)
      modifies this
      ensures var c := CompleteFor(handlers, old(state.value), tx);
              var notice := if c.data then [AllTransactionsCompleted(tx)] else [];
              c.next.None? ==> state == old(state) && events == old(events) + [DefectReported] + notice
      ensures var c := CompleteFor(handlers, old(state.value), tx);
              var notice := if c.data then [AllTransactionsCompleted(tx)] else [];
              c.next.Some? ==>
                fresh(state) && state.value == c.next.value &&
                events == old(events) + [Discarded(old(state)), Accepted(state)] + notice
    {
      var result := CompleteFor(handlers, state.value, tx);
      if result.next.None? {
        events := events + [DefectReported];
      }
      Transition(result.next);
      if result.data {
        events := events + [AllTransactionsCompleted(tx)];
      }
    }

    /**
     * Callback of a finished background build. A commit for a state that is no
     * longer current is ignored: no handler runs and nothing changes.
     */
    method CommitCache(committed: CacheState, cache: CacheId)
      modifies this
      ensures committed != old(state) ==> state == old(state) && events == old(events)
      ensures var n := CommitFor(handlers, committed.value, cache).next;
              committed == old(state) && n.None? ==>
                state == old(state) && events == old(events) + [DefectReported]
      ensures var n := CommitFor(handlers, committed.value, cache).next;
              committed == old(state) && n.Some? ==> Stepped(n)
    {
      if committed != state {
        return;
      }
      var result := CommitFor(handlers, committed.value, cache);
      if result.next.None? {
        events := events + [DefectReported];
      }
      Transition(result.next);
    }

    /**
     * Callback of a failed background build: a new Empty state is offered with
     * `committed` as the expected state, so it is installed only if `committed`
     * is still current; otherwise only the candidate is discarded.
     */
    method OnError(committed: CacheState)
      modifies this
      ensures committed == old(state) ==>
                fresh(state) && state.value == Empty(None, freshContext) &&
                events == old(events) + [Discarded(committed), Accepted(state)]
      ensures committed != old(state) ==>
                state == old(state) && |events| == |old(events)| + 1 &&
                events[..|old(events)|] == old(events) &&
                events[|old(events)|].Discarded? && fresh(events[|old(events)|].state) &&
                events[|old(events)|].state.value == Empty(None, freshContext)
    {
      var candidate := new CacheState(Empty(None, freshContext));
      var ok := ApplyCommandResult(committed, candidate);
    }

    /** Drop the cache: apply the current state's drop handler. */
    method DropCache()
      modifies this
      ensures Stepped(DropFor(handlers, old(state.value), freshContext).next)
      ensures old(state.value).Empty? ==> fresh(state) && state.value == Empty(None, freshContext)
    {
      var current := state;
      var result := DropFor(handlers, current.value, freshContext);
      Transition(result.next);
    }

    /**
     * dropCache as the source writes it, under one interleaving: the state is
     * read once, another thread then publishes `interleaved`, and every retry
     * compares against the stale reading. Each retry asks the stale state for
     * a fresh drop result, so when that result is a transition no retry can
     * succeed; the source loops for ever, here the retries stop after
     * `attempts`.
     */
    method DropCacheAsWritten(interleaved: CacheState, attempts: nat) returns (dropped: bool)
      requires interleaved != state
      modifies this
      ensures DropFor(handlers, old(state).value, freshContext).next.Some? ==> !dropped && state == interleaved
      ensures DropFor(handlers, old(state).value, freshContext).next.None? && attempts > 0 ==>
                dropped && state == interleaved
    {
      var current := state;
      state := interleaved;
      dropped := false;
      var n := 0;
      while n < attempts && !dropped
        invariant current == old(state) && n <= attempts
        invariant DropFor(handlers, current.value, freshContext).next.Some? ==> !dropped && state == interleaved
        invariant DropFor(handlers, current.value, freshContext).next.None? ==>
                    state == interleaved && (n > 0 ==> dropped)
      {
        var result := DropFor(handlers, current.value, freshContext);
        var candidate: CacheState? := null;
        if result.next.Some? {
          candidate := new CacheState(result.next.value);
        }
        dropped := ApplyCommandResult(current, candidate);
        n := n + 1;
      }
    }

    /**
     * dropCache re-reading the state on every attempt, as the other retry
     * loops do, under the same interleaving: the first attempt fails against
     * the stale reading, the second drops whatever state is then current.
     */
    method DropCacheRereading(interleaved: CacheState, attempts: nat) returns (dropped: bool)
      requires interleaved != state && attempts >= 2
      modifies this
      ensures dropped
      ensures DropFor(handlers, old(state).value, freshContext).next.None? ==> state == interleaved
      ensures DropFor(handlers, old(state).value, freshContext).next.Some? ==>
                var next := DropFor(handlers, interleaved.value, freshContext).next;
                (next.None? ==> state == interleaved) &&
                (next.Some? ==> fresh(state) && state.value == next.value)
    {
      ghost var first := state;
      dropped := false;
      var n := 0;
      while n < attempts && !dropped
        invariant n <= attempts
        invariant n == 0 ==> !dropped && state == first
        invariant n >= 2 ==> dropped
        invariant n > 0 && !dropped ==>
                    DropFor(handlers, first.value, freshContext).next.Some? && state == interleaved
        invariant dropped && DropFor(handlers, first.value, freshContext).next.None? ==> state == interleaved
        invariant dropped && DropFor(handlers, first.value, freshContext).next.Some? ==>
                    var next := DropFor(handlers, interleaved.value, freshContext).next;
                    (next.None? ==> state == interleaved) &&
                    (next.Some? ==> fresh(state) && state.value == next.value)
      {
        var current := state;
        if n == 0 {
          state := interleaved;
        }
        var result := DropFor(handlers, current.value, freshContext);
        var candidate: CacheState? := null;
        if result.next.Some? {
          candidate := new CacheState(result.next.value);
        }
        dropped := ApplyCommandResult(current, candidate);
        n := n + 1;
      }
    }
  }

  /**
   * Dropping an Empty cache and then asking for a cache, as any transaction,
   * returns the instance the factory creates, never the dropped one; when the
   * factory throws, the machine stays in the fresh Empty state with no cache.
   */
  method DropThenGetCache(m: Machine, tx: Tx, created: Creation) returns (r: Result<Option<CacheId>, BuildFailure>)
    requires m.state.value.Empty?
    modifies m
    ensures created.Creates? ==> r == Success(Some(created.cache))
    ensures created.CreateThrows? ==> r.Failure?
    ensures r.Success? ==> fresh(m.state) && (m.state.value.Initializing? || m.state.value.Initialized?) &&
                           m.state.value.cache == created.cache
    ensures r.Failure? ==> fresh(m.state) && m.state.value == Empty(None, m.freshContext)
  {
    m.DropCache();
    r := m.GetCache(tx, true, created);
  }

  /**
   * With the lazy strategy, a build from Empty publishes an Initializing state;
   * when a drop replaces it before the background build finishes, the build's
   * late commit against that Initializing state changes nothing.
   */
  method LateCommitAfterDropIsIgnored(m: Machine, tx: Tx, proxy: CacheId, built: CacheId) returns (ghost dropped: CacheState)
    requires m.factory == LazyCacheFactory && m.state.value.Empty? && m.state.value.held.None?
    requires forall v :: m.handlers.dropCache(v).next.Some?
    modifies m
    ensures m.state == dropped
    ensures m.state.value == m.handlers.dropCache(Initializing(proxy, old(m.state.value.context))).next.value
    // two transitions (build, drop) and nothing from the commit
    ensures |m.events| == |old(m.events)| + 4 && m.events[|m.events| - 1] == Accepted(m.state)
  {
    var r := m.GetCache(tx, false, Creates(proxy));
    var building := m.state;
    assert building.value.Initializing?;
    m.DropCache();
    assert m.state != building;
    dropped := m.state;
    ghost var log := m.events;
    m.CommitCache(building, built);
    assert m.state == dropped && m.events == log;
  }
}
