# RunaWFE server: cache lifecycle, HQL alias mapping and substitution cache

This project models four parts of the RunaWFE workflow server core in Dafny and proves properties of the model.

- **Cache state machine** (`CacheStateMachine`): a cache lifecycle machine. It holds one current state object and replaces it only by compare-and-set. Each operation asks the current state's handler for a result: a payload plus an optional next state. It then applies that result. A stale result is discarded. A handler that "switches" to itself is reported as a defect. There are two construction strategies:
  - the lazy one returns a proxy and builds in the background;
  - the static one builds and commits the cache at once.
- **Empty cache state** (`EmptyCacheState`): the handlers of the state with no usable cache. They decide whether a cache is reused or created, and through which strategy. They also say how a change, a transaction completion, a commit and a drop move the machine on.
- **HQL alias mapping** (`AliasMapping`): the alias tables built for a batch presentation.
  - A field of the root class gets the class alias.
  - A removable field gets `editedField<idx>`.
  - An editable field gets no alias.
  - A field of any other entity gets the alias `tbl<n>` of its joined entity. Joined entities are numbered 1, 2, … in order of first occurrence. A joined entity that also occurs among the display fields is recorded as visible.
- **Substitution cache** (`SubstitutionCache`): two indexes built from the substitution rules.
  - actor → (substitution → substitutor ids), where a terminator rule maps to "no set";
  - its inverse, substitutor → the inactive actors they stand in for.

The pure logic is written as datatypes, functions and lemmas. The objects whose fields the source updates in place are classes:

- `Machine`, whose `state` field changes by compare-and-set;
- `HqlAliasMapping`, with its six maps;
- `SubstitutionCacheState`, whose two indexes are fixed at construction.

The loops of the alias mapping and the substitution cache are methods with invariants. The retry loops of the state machine are modelled as their single successful pass (see "Left out"). Each loop method is proved against a specification function:

- `Compile`, the fold of the constructor's loop body `Step`;
- `Grouped`, the first pass of the substitution cache;
- `Inverted`, the inverse index as a map comprehension;
- `Expansion`, the substitutor ids of a list of executors.

Lemmas then state what those functions hold.

Inputs the core cannot see are parameters:

- the executor directory, the organisation-function evaluator and the substitution list (`Directory`, with `None` for a lookup that throws);
- what the cache factory's `createCache` does when called (`created`, a `Creation`): it returns an instance whose `commitCache` succeeds, or one whose `commitCache` throws, or it throws itself;
- the handlers of the Initializing, Initialized and Dirty states (`VariantHandlers`);
- the naming constants of `ClassPresentation` (`Conventions`).

## Model

| member | source | states |
|---|---|---|
| CacheStates.OneDirtyTransaction | wfe-core/src/main/java/ru/runa/wfe/commons/cache/states/nonruntime/EmptyCacheState.java:91 | the dirty record of one transaction holds exactly that transaction and the given cache |
| CacheStates.LazyFactoryIsDelayed | wfe-core/src/main/java/ru/runa/wfe/commons/cache/sm/CacheStateMachine.java:388-395 | the lazy adapter reports delayed initialization and creates a cache by asking for a proxy |
| CacheStates.StaticFactoryIsImmediate | wfe-core/src/main/java/ru/runa/wfe/commons/cache/sm/CacheStateMachine.java:452-466 | the static adapter reports no delayed initialization and creates a cache by building it |
| EmptyCacheState.IsDirtyTransactionExists | wfe-core/src/main/java/ru/runa/wfe/commons/cache/states/nonruntime/EmptyCacheState.java:43-45 | Empty never reports a dirty transaction |
| EmptyCacheState.IsDirtyTransaction | wfe-core/src/main/java/ru/runa/wfe/commons/cache/states/nonruntime/EmptyCacheState.java:48-50 | Empty considers no transaction dirty |
| EmptyCacheState.GetCacheQuickNoBuild | wfe-core/src/main/java/ru/runa/wfe/commons/cache/states/nonruntime/EmptyCacheState.java:53-55 | Empty never hands out a cache without building |
| EmptyCacheState.InitiateCacheCreation | wfe-core/src/main/java/ru/runa/wfe/commons/cache/states/nonruntime/EmptyCacheState.java:74-86 | on success the caller receives the cache of the next state, which is Initializing or Initialized with the same context; a held cache with no reinitialization is reused with no factory call; otherwise the lazy strategy goes to Initializing over the held cache or a new proxy, and fails exactly when creating the proxy throws; the static strategy builds, commits once and goes to Initialized, and fails exactly when the build or the commit throws, with the calls made before the exception recorded |
| EmptyCacheState.GetCache | wfe-core/src/main/java/ru/runa/wfe/commons/cache/states/nonruntime/EmptyCacheState.java:58-60 | getCache on Empty is cache creation |
| EmptyCacheState.GetCacheIfNotLocked | wfe-core/src/main/java/ru/runa/wfe/commons/cache/states/nonruntime/EmptyCacheState.java:63-65 | getCacheIfNotLocked on Empty is cache creation |
| EmptyCacheState.OnChange | wfe-core/src/main/java/ru/runa/wfe/commons/cache/states/nonruntime/EmptyCacheState.java:89-93 | a change moves to Dirty over the same cache and context, tracking exactly the changing transaction |
| EmptyCacheState.BeforeTransactionComplete | wfe-core/src/main/java/ru/runa/wfe/commons/cache/states/nonruntime/EmptyCacheState.java:96-98 | no transition |
| EmptyCacheState.CompleteTransaction | wfe-core/src/main/java/ru/runa/wfe/commons/cache/states/nonruntime/EmptyCacheState.java:101-104 | reports all transactions completed and moves to a new Empty over the same cache and context |
| EmptyCacheState.CommitCache | wfe-core/src/main/java/ru/runa/wfe/commons/cache/states/nonruntime/EmptyCacheState.java:107-110 | no transition |
| EmptyCacheState.DropCache | wfe-core/src/main/java/ru/runa/wfe/commons/cache/states/nonruntime/EmptyCacheState.java:121-123 | moves to an Empty with no cache and a fresh context |
| EmptyCacheState.GetCacheAgreesWithIfNotLocked | wfe-core/src/main/java/ru/runa/wfe/commons/cache/states/nonruntime/EmptyCacheState.java:58-65 | both build entry points give the same result on every input |
| EmptyCacheState.DropThenBuildCreatesNewCache | wfe-core/src/main/java/ru/runa/wfe/commons/cache/states/nonruntime/EmptyCacheState.java:74-86 | after a drop, the next build always calls the factory first; it succeeds exactly when the factory returns an instance (and, building at once, its commit succeeds), and then hands out that instance, never the dropped cache |
| CacheStateMachine.Machine.constructor | wfe-core/src/main/java/ru/runa/wfe/commons/cache/sm/CacheStateMachine.java:55-67 | the machine starts in a new Empty state with no cache and an empty event history |
| CacheStateMachine.Machine.IsDirtyTransaction | wfe-core/src/main/java/ru/runa/wfe/commons/cache/sm/CacheStateMachine.java:76-78 | answers with the current state's handler, with no transition; false on Empty |
| CacheStateMachine.Machine.GetCacheQuick | wfe-core/src/main/java/ru/runa/wfe/commons/cache/sm/CacheStateMachine.java:83-85 | answers with the current state's quick lookup, with no transition; none on Empty |
| CacheStateMachine.Machine.ApplyCommandResult | wfe-core/src/main/java/ru/runa/wfe/commons/cache/sm/CacheStateMachine.java:285-308 | all four outcomes: no next state means stay; a next state identical to the current one means stay and report a defect; a successful compare-and-set installs the new state, discards the old one and accepts the new one; a failed one leaves the state and discards the candidate, returning false |
| CacheStateMachine.Machine.Transition | wfe-core/src/main/java/ru/runa/wfe/commons/cache/sm/CacheStateMachine.java:285-308 | applying a result computed from the state just read never fails: it stays, or installs a fresh state holding the next value after discarding the old one and accepting the new one |
| CacheStateMachine.Machine.GetCache | wfe-core/src/main/java/ru/runa/wfe/commons/cache/sm/CacheStateMachine.java:96-124 | a quick result is returned with no transition; otherwise the cache of the state's build handler is returned and its next state applied; an exception from the handler propagates and changes nothing |
| CacheStateMachine.Machine.GetCacheIfNotLocked | wfe-core/src/main/java/ru/runa/wfe/commons/cache/sm/CacheStateMachine.java:135-166 | as getCache, except that with no quick result and a dirty transaction present it returns null and changes nothing |
| CacheStateMachine.Machine.OnChange | wfe-core/src/main/java/ru/runa/wfe/commons/cache/sm/CacheStateMachine.java:176-191 | applies the change handler's next state; a handler that stays is reported as a defect |
| CacheStateMachine.Machine.BeforeTransactionComplete | wfe-core/src/main/java/ru/runa/wfe/commons/cache/sm/CacheStateMachine.java:199-208 | applies the handler's next state |
| CacheStateMachine.Machine.OnTransactionCompleted | wfe-core/src/main/java/ru/runa/wfe/commons/cache/sm/CacheStateMachine.java:216-234 | applies the handler's next state, a handler that stays being reported as a defect; when the handler says all transactions completed, that notice is recorded after the result is applied |
| CacheStateMachine.Machine.CommitCache | wfe-core/src/main/java/ru/runa/wfe/commons/cache/sm/CacheStateMachine.java:237-253 | a commit for a state that is no longer current changes nothing; otherwise the commit handler's next state is applied, and a stay is reported as a defect |
| CacheStateMachine.Machine.OnError | wfe-core/src/main/java/ru/runa/wfe/commons/cache/sm/CacheStateMachine.java:256-262 | a failed background build installs a new Empty only when its state is still current; otherwise only the candidate is discarded |
| CacheStateMachine.Machine.DropCache | wfe-core/src/main/java/ru/runa/wfe/commons/cache/sm/CacheStateMachine.java:267-272 | applies the drop handler's next state; dropping Empty yields a new Empty with no cache |
| CacheStateMachine.Machine.DropCacheAsWritten | wfe-core/src/main/java/ru/runa/wfe/commons/cache/sm/CacheStateMachine.java:267-272 | with the state read once and replaced by another thread before the compare-and-set, no retry ever succeeds when the stale state's drop handler returns a next state (see Findings); when it returns none, the first attempt succeeds and leaves the other thread's state |
| CacheStateMachine.Machine.DropCacheRereading | wfe-core/src/main/java/ru/runa/wfe/commons/cache/sm/CacheStateMachine.java:267-272 | re-reading the state on each attempt, the drop succeeds by the second attempt and drops whatever state is then current |
| CacheStateMachine.DropThenGetCache | wfe-core/src/main/java/ru/runa/wfe/commons/cache/sm/CacheStateMachine.java:96-124 | dropping an Empty cache and then asking for a cache returns the instance the factory creates, in an Initializing or Initialized state; when the factory throws, the machine stays in the fresh Empty state with no cache |
| CacheStateMachine.LateCommitAfterDropIsIgnored | wfe-core/src/main/java/ru/runa/wfe/commons/cache/sm/CacheStateMachine.java:237-253 | with the lazy strategy, a commit from a background build whose Initializing state was dropped meanwhile changes nothing: the state is the one the drop published, and the log holds only the build's and the drop's transitions |
| AliasMapping.DecimalInjective | wfe-core/src/main/java/ru/runa/wfe/presentation/hibernate/HibernateCompilerAliasMapping.java:91-96 | distinct numbers render to distinct decimal strings |
| AliasMapping.TableAliasInjective | wfe-core/src/main/java/ru/runa/wfe/presentation/hibernate/HibernateCompilerAliasMapping.java:96 | distinct table numbers give distinct "tbl" aliases |
| AliasMapping.EditedAlias | wfe-core/src/main/java/ru/runa/wfe/presentation/hibernate/HibernateCompilerAliasMapping.java:91 | the removable-field alias is "editedField" followed by a non-empty decimal index |
| AliasMapping.KindOf | wfe-core/src/main/java/ru/runa/wfe/presentation/hibernate/HibernateCompilerAliasMapping.java:88-103 | classifies a field, in the source's order of tests: root class, removable prefix, editable prefix, otherwise joined |
| AliasMapping.DistinctEntitiesSpec | wfe-core/src/main/java/ru/runa/wfe/presentation/hibernate/HibernateCompilerAliasMapping.java:72-78 | the display entities are the entities of the display fields, each listed once |
| AliasMapping.JoinedEntitiesSpec | wfe-core/src/main/java/ru/runa/wfe/presentation/hibernate/HibernateCompilerAliasMapping.java:95-101 | the joined entities are the entities of the joined fields, each listed once |
| AliasMapping.JoinedNumbering | wfe-core/src/main/java/ru/runa/wfe/presentation/hibernate/HibernateCompilerAliasMapping.java:95-97 | a joined entity seen first at field i is number k+1, where k is the number of joined entities before i |
| AliasMapping.CompileJoined | wfe-core/src/main/java/ru/runa/wfe/presentation/hibernate/HibernateCompilerAliasMapping.java:82-104 | after the pass, joined entity number k (1-based, in first-occurrence order) has alias tbl<k> in both directions, and only those; the visible maps hold exactly the joined entities that are display entities |
| AliasMapping.CompileInverse | wfe-core/src/main/java/ru/runa/wfe/presentation/hibernate/HibernateCompilerAliasMapping.java:209-217 | the joined class/alias maps are mutual inverses, and so are the visible ones |
| AliasMapping.CompileFields | wfe-core/src/main/java/ru/runa/wfe/presentation/hibernate/HibernateCompilerAliasMapping.java:82-104 | after the pass, every field except the editable ones has an alias; each field in an alias's list has an alias, and that same alias unless it is removable (a removable field repeated at a later index is re-aliased but stays in its earlier list, as in the source) |
| AliasMapping.CompileFieldAlias | wfe-core/src/main/java/ru/runa/wfe/presentation/hibernate/HibernateCompilerAliasMapping.java:88-103 | a field has an alias iff it is a field and not editable; root fields get the class alias, removable fields editedField<index of their last occurrence>, joined fields the tbl alias of their entity's number |
| AliasMapping.VisibleAliases | wfe-core/src/main/java/ru/runa/wfe/presentation/hibernate/HibernateCompilerAliasMapping.java:98-100 | the visible joined aliases are exactly tbl<k+1> for the k-th joined entity that is a display entity |
| AliasMapping.CompileSnoc | wfe-core/src/main/java/ru/runa/wfe/presentation/hibernate/HibernateCompilerAliasMapping.java:82-104 | the pass over one more field is one more Step |
| AliasMapping.StepAliased | wfe-core/src/main/java/ru/runa/wfe/presentation/hibernate/HibernateCompilerAliasMapping.java:88-103 | one iteration keeps every alias invariant for the fields seen so far |
| AliasMapping.CollectDisplayEntities | wfe-core/src/main/java/ru/runa/wfe/presentation/hibernate/HibernateCompilerAliasMapping.java:72-78 | fails iff some display field has no db sources, with the display error; otherwise returns the distinct display entities |
| AliasMapping.HqlAliasMapping.New | wfe-core/src/main/java/ru/runa/wfe/presentation/hibernate/HibernateCompilerAliasMapping.java:71-105 | fails iff a display field or any field has no db sources, with the display error exactly when a display field has none; otherwise the new mapping holds the maps the pass computes |
| AliasMapping.HqlAliasMapping.Fill | wfe-core/src/main/java/ru/runa/wfe/presentation/hibernate/HibernateCompilerAliasMapping.java:80-104 | the loop over all fields succeeds iff every field has db sources, and then leaves exactly the maps of the whole pass |
| AliasMapping.HqlAliasMapping.AddNext | wfe-core/src/main/java/ru/runa/wfe/presentation/hibernate/HibernateCompilerAliasMapping.java:82-104 | the iteration on field idx turns the maps of the pass over the fields before it into those of the pass including it |
| AliasMapping.HqlAliasMapping.AddField | wfe-core/src/main/java/ru/runa/wfe/presentation/hibernate/HibernateCompilerAliasMapping.java:82-104 | one iteration of the constructor's loop changes the maps exactly as Step does |
| AliasMapping.HqlAliasMapping.AddAliasMapping | wfe-core/src/main/java/ru/runa/wfe/presentation/hibernate/HibernateCompilerAliasMapping.java:194-199 | the field gets the alias, and the field is appended to the alias's field list |
| AliasMapping.HqlAliasMapping.AddJoinedAliasMapping | wfe-core/src/main/java/ru/runa/wfe/presentation/hibernate/HibernateCompilerAliasMapping.java:209-212 | records the entity/alias pair in both joined maps |
| AliasMapping.HqlAliasMapping.AddVisibleJoinedAliasMapping | wfe-core/src/main/java/ru/runa/wfe/presentation/hibernate/HibernateCompilerAliasMapping.java:214-217 | records the entity/alias pair in both visible maps |
| AliasMapping.HqlAliasMapping.GetAlias | wfe-core/src/main/java/ru/runa/wfe/presentation/hibernate/HibernateCompilerAliasMapping.java:114-116 | the alias of a field, by the four rules; none for editable or unknown fields |
| AliasMapping.HqlAliasMapping.GetFields | wfe-core/src/main/java/ru/runa/wfe/presentation/hibernate/HibernateCompilerAliasMapping.java:125-130 | returns the alias's field list, creating an empty one when missing; it holds every field with that alias, and every field in it has an alias equal to this one, except for removable fields repeated at another index; no other map changes |
| AliasMapping.HqlAliasMapping.GetAliases | wfe-core/src/main/java/ru/runa/wfe/presentation/hibernate/HibernateCompilerAliasMapping.java:137-139 | every alias of a field is among the aliases |
| AliasMapping.HqlAliasMapping.GetAliasedFields | wfe-core/src/main/java/ru/runa/wfe/presentation/hibernate/HibernateCompilerAliasMapping.java:146-148 | exactly the presentation's fields that are not editable |
| AliasMapping.HqlAliasMapping.GetJoinedClasses | wfe-core/src/main/java/ru/runa/wfe/presentation/hibernate/HibernateCompilerAliasMapping.java:155-157 | exactly the entities of joined fields |
| AliasMapping.HqlAliasMapping.GetVisibleJoinedClasses | wfe-core/src/main/java/ru/runa/wfe/presentation/hibernate/HibernateCompilerAliasMapping.java:164-166 | exactly the joined entities that are entities of display fields |
| AliasMapping.HqlAliasMapping.GetJoinedAliases | wfe-core/src/main/java/ru/runa/wfe/presentation/hibernate/HibernateCompilerAliasMapping.java:173-175 | exactly tbl1 … tbl<n> for the n joined entities |
| AliasMapping.HqlAliasMapping.GetVisibleJoinedAliases | wfe-core/src/main/java/ru/runa/wfe/presentation/hibernate/HibernateCompilerAliasMapping.java:182-184 | exactly the aliases tbl<k+1> of joined entities that are display entities |
| SubstitutionCache.CollectSubstitutors | wfe-core/src/main/java/ru/runa/wfe/ss/cache/SubstitutionCacheStateImpl.java:115-126 | the substitutor ids are each actor's id and the ids of all actors of each group; none if listing a group's actors throws |
| SubstitutionCache.MembersUpToNext | wfe-core/src/main/java/ru/runa/wfe/ss/cache/SubstitutionCacheStateImpl.java:115-126 | one more executor adds exactly its own ids |
| SubstitutionCache.GetMapActorToSubstitutors | wfe-core/src/main/java/ru/runa/wfe/ss/cache/SubstitutionCacheStateImpl.java:91-135 | none if loading the substitution list throws; otherwise the fold of the per-substitution step over the list |
| SubstitutionCache.GroupedSpec | wfe-core/src/main/java/ru/runa/wfe/ss/cache/SubstitutionCacheStateImpl.java:94-130 | the first index has a key exactly for each existing actor with an enabled substitution; its map holds exactly that actor's enabled substitutions whose substitutors could be evaluated; a terminator's entry is none, the others hold their substitutor ids |
| SubstitutionCache.AddSubstituted | wfe-core/src/main/java/ru/runa/wfe/ss/cache/SubstitutionCacheStateImpl.java:144-154 | adds the actor under every substitutor of every non-terminator entry, creating sets as needed |
| SubstitutionCache.InvertedStep | wfe-core/src/main/java/ru/runa/wfe/ss/cache/SubstitutionCacheStateImpl.java:139-160 | one actor of the loop adds its id under its substitutors if it is inactive and exists, and changes nothing otherwise |
| SubstitutionCache.GetMapActorToSubstituted | wfe-core/src/main/java/ru/runa/wfe/ss/cache/SubstitutionCacheStateImpl.java:137-162 | the loop builds the inverse index |
| SubstitutionCache.InvertedSpec | wfe-core/src/main/java/ru/runa/wfe/ss/cache/SubstitutionCacheStateImpl.java:137-162 | t maps to a in the inverse index iff some inactive existing actor with id a lists t as a substitutor; no set in it is empty |
| SubstitutionCache.SubstitutesFromList | wfe-core/src/main/java/ru/runa/wfe/ss/cache/SubstitutionCacheStateImpl.java:91-162 | end to end: a is substituted by t iff some inactive existing actor with id a has an enabled, non-terminator substitution whose substitutors include t |
| SubstitutionCache.SubstitutionCacheState.constructor | wfe-core/src/main/java/ru/runa/wfe/ss/cache/SubstitutionCacheStateImpl.java:56-63 | both caches are filled from the two passes |
| SubstitutionCache.SubstitutionCacheState.GetSubstitutors | wfe-core/src/main/java/ru/runa/wfe/ss/cache/SubstitutionCacheStateImpl.java:66-75 | an active actor gets an empty map; an inactive one gets exactly its enabled substitutions that could be evaluated, each with its substitutor ids (none for a terminator) |
| SubstitutionCache.SubstitutionCacheState.TryToGetSubstitutors | wfe-core/src/main/java/ru/runa/wfe/ss/cache/SubstitutionCacheStateImpl.java:78-80 | always none |
| SubstitutionCache.SubstitutionCacheState.GetSubstituted | wfe-core/src/main/java/ru/runa/wfe/ss/cache/SubstitutionCacheStateImpl.java:83-89 | exactly the actors the given actor substitutes; empty if there are none |
| SubstitutionCache.SubstitutionCacheState.Unlock | wfe-core/src/main/java/ru/runa/wfe/ss/cache/SubstitutionCacheStateImpl.java:165-167 | always none |
| SubstitutionCache.SubstitutionCacheState.OnChange | wfe-core/src/main/java/ru/runa/wfe/ss/cache/SubstitutionCacheStateImpl.java:170-172 | never asks for invalidation |

## Left out

- Threads, the monitor and the retry loops of the state machine: the model is sequential. Nothing changes the state between an operation's read and its compare-and-set, so each operation is its first iteration. The one interleaving modelled is the one behind the dropCache finding.
- The background build thread of the lazy factory (`startDelayedInitialization`, with its transaction executor): it is not part of this model. Its outcome reaches the machine through `CommitCache` and `OnError`, which are modelled.
- The handlers of the Initializing, Initialized and Dirty states and the state factory: they are not part of this model. They are inputs (`VariantHandlers`), and each `create...State` call is a constructor of `StateValue`.
- Audit, logging and the `commitCache` callbacks on cache instances: audit and logging are left out. A defect report is a ghost event, and a commit on a built cache is a recorded factory call.
- `discard` and `accept` on states: they are recorded as events. On Empty both are no-ops.
- The cache factory's `createCache` is an input (`created`): its instance, or which of it and the instance's `commitCache` throws. The factory is not called; the model records which calls would be made. An exception is one `BuildFailure`, whatever its class.
- `Transition` always wraps the next state in a new `CacheState`, so the handler defect of returning the current state object itself (CacheStateMachine.java:292-298) is reachable only through `ApplyCommandResult`, whose contract states that branch.
- The DAOs, `SwimlaneInitializerHelper.evaluate` and the cache storage (`createCache`, `putAll`): they become the `Directory` functions, the substitution list, and const maps set in the constructor.
- Exceptions in the substitution passes: every exception is one `None`, so the kinds of exception are not told apart. The first pass catches every `Exception`; a `Throwable` that is not one (an `Error`) would end the loop with a partial index, and is not modelled. The second pass catches only `ExecutorDoesNotExistException` (SubstitutionCacheStateImpl.java:158); any other exception there would propagate out of the constructor, and is not modelled: every `None` is treated as that exception. A failure to load the substitution list yields empty indexes.
- SubstitutionCache.SubstitutionCacheState.GetSubstitutors: `loadIfRequired` is ignored, as in the source. The `TreeMap` ordering of substitutions is not modelled: substitutions are map keys compared by value.
- SubstitutionCache.SubstitutionCacheState.GetSubstituted: the source hands out the cached mutable set itself; the model returns its value, so aliasing is not modelled.
- AliasMapping.HqlAliasMapping.GetFields: the source returns the mutable list stored in the map, and callers may change it; the model returns its value, so aliasing is not modelled.
- AliasMapping.HqlAliasMapping.GetAliases: only the aliases of fields are stated to be included. Aliases created by earlier `getFields` calls for unknown aliases may also be present, as in the source.
- `FieldDescriptor` and entity classes are compared by value. A field's `dbSources` is reduced to whether it is present: an empty array is treated like null, and a missing display source is a `Failure` where the source throws a null-pointer exception.
- `ClassPresentation` constants and prefix tests: the class alias and the two prefixes are parameters (`Conventions`), and `startsWith` is a sequence prefix test.

## Findings

| source | as written | input that shows it | evidently intended | confidence | as-written member | corrected member |
|---|---|---|---|---|---|---|
| wfe-core/src/main/java/ru/runa/wfe/commons/cache/sm/CacheStateMachine.java:267-272 | dropCache reads the state once, before its retry loop, and every retry does its compare-and-set against that reading | another thread publishes a new state between the read and the first compare-and-set, and the stale state's drop handler returns a next state: every retry fails, and the loop never ends | re-read the current state on each attempt, as the other retry loops of the machine do (lines 99, 138, 179, 202, 219) | medium, not executed | CacheStateMachine.Machine.DropCacheAsWritten | CacheStateMachine.Machine.DropCacheRereading |
