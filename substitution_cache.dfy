/**
 * The substitution cache: for each inactive actor, the substitutions that
 * name someone to stand in for them, and for each substitutor the actors they
 * stand in for.
 *
 * The executor directory, the substitution list and the evaluation of
 * organisation functions are lookups the cache cannot see; they are the
 * inputs `Directory` and the substitution list, with `None` for a lookup that
 * throws. The first index is specified by the fold `Grouped` and the second
 * by the comprehension `Inverted`; the lemmas below say what each holds.
 */
module SubstitutionCache {
  import opened Wrappers

  type ExecutorId = nat

  /** An organisation function, by its text. */
  type OrgFunction = string

  datatype Actor = Actor(id: ExecutorId, active: bool)

  /** What an organisation function yields: an actor, or a group to stand for all its actors. */
  datatype Executor = ActorExecutor(id: ExecutorId) | GroupExecutor(id: ExecutorId)

  /** A substitution rule: whose it is, whether it is on, whether it terminates the chain, and who substitutes. */
  datatype Substitution = Substitution(id: nat, actorId: ExecutorId, enabled: bool, terminator: bool, orgFunction: OrgFunction)

  /** The lookups the cache is built from; `None` is a lookup that throws. */
  datatype Directory = Directory(
    getActor: ExecutorId -> Option<Actor>,
    evaluate: OrgFunction -> Option<seq<Executor>>,
    groupActors: ExecutorId -> Option<seq<Actor>>)

  /** The substitutions of one actor, each with its substitutor ids, or `None` for a terminator. */
  type Substitutors = map<Substitution, Option<set<ExecutorId>>>

  type SubstitutorIndex = map<ExecutorId, Substitutors>

  type SubstitutedIndex = map<ExecutorId, set<ExecutorId>>

  // ---------------------------------------------------------------------------
  // Expanding executors to actor ids

  /** The group members of the first n executors can all be listed. */
  ghost predicate ExpandableUpTo(dir: Directory, execs: seq<Executor>, n: nat) {
    forall i :: 0 <= i < n && i < |execs| && execs[i].GroupExecutor? ==> dir.groupActors(execs[i].id).Some?
  }

  /** The actor ids an executor stands for: itself, or every actor of the group. */
  ghost function Members(dir: Directory, x: Executor): set<ExecutorId>
    requires x.GroupExecutor? ==> dir.groupActors(x.id).Some?
  {
    match x
    case ActorExecutor(id) => {id}
    case GroupExecutor(g) =>
      var actors := dir.groupActors(g).value;
      set j | 0 <= j < |actors| :: actors[j].id
  }

  ghost function MembersUpTo(dir: Directory, execs: seq<Executor>, n: nat): set<ExecutorId>
    requires n <= |execs| && ExpandableUpTo(dir, execs, n)
  {
    set j, x | 0 <= j < n && x in Members(dir, execs[j]) :: x
  }

  /** The substitutor ids of a list of executors, or `None` when a group's actors cannot be listed. */
  ghost function Expansion(dir: Directory, execs: seq<Executor>): Option<set<ExecutorId>> {
    if ExpandableUpTo(dir, execs, |execs|) then Some(MembersUpTo(dir, execs, |execs|)) else None
  }

  /**
   * The substitutor ids of the executors: each actor's own id and the ids of
   * all actors of each group; `None` if listing a group's actors throws.
   */
  method CollectSubstitutors(dir: Directory, execs: seq<Executor>) returns (r: Option<set<ExecutorId>>)
    ensures r == Expansion(dir, execs)
  {
    var ids: set<ExecutorId> := {};
    for i := 0 to |execs|
      invariant ExpandableUpTo(dir, execs, i)
      invariant ids == MembersUpTo(dir, execs, i)
    {
      match execs[i] {
        case ActorExecutor(id) =>
          ids := ids + {id};
        case GroupExecutor(g) =>
          var actors := dir.groupActors(g);
          if actors.None? {
            return None;
          }
          ghost var before := ids;
          for k := 0 to |actors.value|
            invariant ids == before + set j | 0 <= j < k :: actors.value[j].id
          {
            ids := ids + {actors.value[k].id};
          }
          assert ids == before + Members(dir, execs[i]);
      }
      assert ExpandableUpTo(dir, execs, i + 1);
      MembersUpToNext(dir, execs, i);
    }
    return Some(ids);
  }

  lemma MembersUpToNext(dir: Directory, execs: seq<Executor>, i: nat)
    requires i < |execs| && ExpandableUpTo(dir, execs, i + 1)
    ensures MembersUpTo(dir, execs, i + 1) == MembersUpTo(dir, execs, i) + Members(dir, execs[i])
  {
    assert ExpandableUpTo(dir, execs, i);
  }

  // ---------------------------------------------------------------------------
  // Substitutions grouped by actor

  /** The substitution belongs to actor a: its actor exists with id a and it is enabled. */
  ghost predicate Resolved(dir: Directory, s: Substitution, a: ExecutorId) {
    dir.getActor(s.actorId).Some? && dir.getActor(s.actorId).value.id == a && s.enabled
  }

  /**
   * The entry a substitution gets in its actor's map: `None` for a
   * terminator, the substitutor ids otherwise; no entry at all when
   * evaluating its organisation function or expanding a group throws.
   */
  ghost function EntryOf(dir: Directory, s: Substitution): Option<Option<set<ExecutorId>>> {
    if s.terminator then Some(None)
    else match dir.evaluate(s.orgFunction)
      case None => None
      case Some(execs) =>
        match Expansion(dir, execs)
        case None => None
        case Some(ids) => Some(Some(ids))
  }

  function EntryFor(r: SubstitutorIndex, a: ExecutorId): Substitutors {
    if a in r then r[a] else map[]
  }

  /** One substitution of the first pass: its actor gets a map, and the map gets its entry. */
  ghost function Record(dir: Directory, r: SubstitutorIndex, s: Substitution): SubstitutorIndex {
    if dir.getActor(s.actorId).None? || !s.enabled then r
    else
      var a := dir.getActor(s.actorId).value.id;
      var entry := EntryFor(r, a);
      match EntryOf(dir, s)
      case None => r[a := entry]
      case Some(v) => r[a := entry[s := v]]
  }

  /** The first pass over a substitution list. */
  ghost function Grouped(dir: Directory, ss: seq<Substitution>): SubstitutorIndex
    decreases |ss|
  {
    if ss == [] then map[] else Record(dir, Grouped(dir, ss[..|ss| - 1]), ss[|ss| - 1])
  }

  /**
   * The actor-to-substitutors index: for each enabled substitution whose
   * actor exists, that actor's map gets the substitution with its
   * substitutor ids (none for a terminator); a substitution whose function
   * cannot be evaluated is skipped, though its actor still gets a map. When
   * the substitution list cannot be read the index is empty.
   */
  method GetMapActorToSubstitutors(dir: Directory, all: Option<seq<Substitution>>) returns (r: SubstitutorIndex)
    ensures all.None? ==> r == map[]
    ensures all.Some? ==> r == Grouped(dir, all.value)
  {
    r := map[];
    if all.None? {
      return;
    }
    var ss := all.value;
    for i := 0 to |ss|
      invariant r == Grouped(dir, ss[..i])
    {
      var substitution := ss[i];
      assert ss[..i + 1][..i] == ss[..i];
      var actor := dir.getActor(substitution.actorId);
      if actor.None? {
        continue;
      }
      if !substitution.enabled {
        continue;
      }
      var actorId := actor.value.id;
      var subDescr := EntryFor(r, actorId);
      r := r[actorId := subDescr];
      if substitution.terminator {
        r := r[actorId := subDescr[substitution := None]];
        continue;
      }
      var executors := dir.evaluate(substitution.orgFunction);
      if executors.None? {
        continue;
      }
      var substitutors := CollectSubstitutors(dir, executors.value);
      if substitutors.None? {
        continue;
      }
      r := r[actorId := subDescr[substitution := substitutors]];
    }
    assert ss[..|ss|] == ss;
  }

  /** Exactly the actors of the listed substitutions that resolve have a map. */
  ghost predicate IndexedActors(dir: Directory, ss: seq<Substitution>, g: SubstitutorIndex) {
    forall a :: a in g <==> exists s :: s in ss && Resolved(dir, s, a)
  }

  /** Under each actor, exactly its listed substitutions that got an entry. */
  ghost predicate IndexedEntries(dir: Directory, ss: seq<Substitution>, g: SubstitutorIndex) {
    forall a, s :: a in g ==> (s in g[a] <==> s in ss && Resolved(dir, s, a) && EntryOf(dir, s).Some?)
  }

  /** Each substitution with its entry. */
  ghost predicate IndexedValues(dir: Directory, g: SubstitutorIndex) {
    forall a, s :: a in g && s in g[a] ==> EntryOf(dir, s) == Some(g[a][s])
  }

  lemma RecordActors(dir: Directory, p: seq<Substitution>, g: SubstitutorIndex, s: Substitution)
    requires IndexedActors(dir, p, g)
    ensures IndexedActors(dir, p + [s], Record(dir, g, s))
  {
    var g' := Record(dir, g, s);
    forall a ensures a in g' <==> exists x :: x in p + [s] && Resolved(dir, x, a) {
      if exists x :: x in p && Resolved(dir, x, a) {
        var x :| x in p && Resolved(dir, x, a);
        assert x in p + [s];
      }
      if exists x :: x in p + [s] && Resolved(dir, x, a) {
        var x :| x in p + [s] && Resolved(dir, x, a);
        assert x in p || x == s;
      }
      if Resolved(dir, s, a) {
        assert s in p + [s];
      }
    }
  }

  lemma RecordEntries(dir: Directory, p: seq<Substitution>, g: SubstitutorIndex, s: Substitution)
    requires IndexedActors(dir, p, g) && IndexedEntries(dir, p, g)
    ensures IndexedEntries(dir, p + [s], Record(dir, g, s))
  {
    var g' := Record(dir, g, s);
    if dir.getActor(s.actorId).None? || !s.enabled {
      assert g' == g;
      forall a, x | a in g' ensures x in g'[a] <==> x in p + [s] && Resolved(dir, x, a) && EntryOf(dir, x).Some? {
        assert x in p + [s] <==> x in p || x == s;
      }
    } else {
      var a0 := dir.getActor(s.actorId).value.id;
      forall a, x | a in g' ensures x in g'[a] <==> x in p + [s] && Resolved(dir, x, a) && EntryOf(dir, x).Some? {
        assert x in p + [s] <==> x in p || x == s;
        if a == a0 && a0 !in g {
          assert !(x in p && Resolved(dir, x, a));
        }
      }
    }
  }

  lemma RecordValues(dir: Directory, g: SubstitutorIndex, s: Substitution)
    requires IndexedValues(dir, g)
    ensures IndexedValues(dir, Record(dir, g, s))
  {
  }

  /**
   * What the first index holds: exactly the actors of the enabled
   * substitutions whose actor exists; under each, exactly its substitutions
   * that got an entry; and each with its entry.
   */
  lemma {:induction false} GroupedSpec(dir: Directory, ss: seq<Substitution>)
    ensures IndexedActors(dir, ss, Grouped(dir, ss))
    ensures IndexedEntries(dir, ss, Grouped(dir, ss))
    ensures IndexedValues(dir, Grouped(dir, ss))
    decreases |ss|
  {
    if ss != [] {
      var p := ss[..|ss| - 1];
      var s := ss[|ss| - 1];
      GroupedSpec(dir, p);
      assert ss == p + [s];
      RecordActors(dir, p, Grouped(dir, p), s);
      RecordEntries(dir, p, Grouped(dir, p), s);
      RecordValues(dir, Grouped(dir, p), s);
    }
  }

  // ---------------------------------------------------------------------------
  // The inverse index

  /** A substituted actor counts only if it exists and is not active. */
  ghost predicate Eligible(dir: Directory, k: ExecutorId) {
    dir.getActor(k).Some? && !dir.getActor(k).value.active
  }

  /** Every substitutor id of the non-terminator entries. */
  ghost function Targets(sub: Substitutors): set<ExecutorId> {
    set s, t | s in sub && sub[s].Some? && t in sub[s].value :: t
  }

  /** The substitutor ids of the entries among the substitutions in done. */
  ghost function TargetsOf(sub: Substitutors, done: set<Substitution>): set<ExecutorId> {
    set s, t | s in done && s in sub && sub[s].Some? && t in sub[s].value :: t
  }

  /** The substitutors of the eligible keys in done. */
  ghost function ReachedFrom(dir: Directory, m: SubstitutorIndex, done: set<ExecutorId>): set<ExecutorId> {
    set k, t | k in done && k in m && Eligible(dir, k) && t in Targets(m[k]) :: t
  }

  /** The actor ids of the eligible keys in done that list substitutor t. */
  ghost function SubstitutedFrom(dir: Directory, m: SubstitutorIndex, done: set<ExecutorId>, t: ExecutorId): set<ExecutorId> {
    set k | k in done && k in m && Eligible(dir, k) && t in Targets(m[k]) :: dir.getActor(k).value.id
  }

  /** The inverse of the first index over the keys in done. */
  ghost function Inverted(dir: Directory, m: SubstitutorIndex, done: set<ExecutorId>): SubstitutedIndex {
    map t | t in ReachedFrom(dir, m, done) :: SubstitutedFrom(dir, m, done, t)
  }

  function SubstitutedOf(r: SubstitutedIndex, t: ExecutorId): set<ExecutorId> {
    if t in r then r[t] else {}
  }

  /** r' is r with actor a added under each substitutor in ts, sets created as needed. */
  ghost predicate AddedUnder(r: SubstitutedIndex, r': SubstitutedIndex, ts: set<ExecutorId>, a: ExecutorId) {
    && (forall t :: t in r' <==> t in r || t in ts)
    && (forall t :: t in r' ==> r'[t] == SubstitutedOf(r, t) + (if t in ts then {a} else {}))
  }

  lemma AddedUnderCompose(r: SubstitutedIndex, r1: SubstitutedIndex, r2: SubstitutedIndex,
                          xs: set<ExecutorId>, ys: set<ExecutorId>, a: ExecutorId)
    requires AddedUnder(r, r1, xs, a) && AddedUnder(r1, r2, ys, a)
    ensures AddedUnder(r, r2, xs + ys, a)
  {
    forall t | t in r2 ensures r2[t] == SubstitutedOf(r, t) + (if t in xs + ys then {a} else {}) {
      ComposeAt(SubstitutedOf(r, t), SubstitutedOf(r1, t), r2[t], t in xs, t in ys, a);
    }
  }

  /** One substitutor's set after two additions of a. */
  lemma ComposeAt(s: set<ExecutorId>, s1: set<ExecutorId>, s2: set<ExecutorId>, inX: bool, inY: bool, a: ExecutorId)
    requires s1 == s + (if inX then {a} else {})
    requires s2 == s1 + (if inY then {a} else {})
    ensures s2 == s + (if inX || inY then {a} else {})
  {
  }

  lemma AddedUnderUnique(r: SubstitutedIndex, r1: SubstitutedIndex, r2: SubstitutedIndex, ts: set<ExecutorId>, a: ExecutorId)
    requires AddedUnder(r, r1, ts, a) && AddedUnder(r, r2, ts, a)
    ensures r1 == r2
  {
    assert r1.Keys == r2.Keys;
  }

  lemma AddedUnderOne(r: SubstitutedIndex, r': SubstitutedIndex, done: set<ExecutorId>, t: ExecutorId, a: ExecutorId)
    requires AddedUnder(r, r', done, a)
    ensures AddedUnder(r, r'[t := SubstitutedOf(r', t) + {a}], done + {t}, a)
  {
  }

  lemma AddedUnderNone(r: SubstitutedIndex, a: ExecutorId)
    ensures AddedUnder(r, r, {}, a)
  {
  }

  /** Adds actor a to the substituted set of every substitutor in ts. */
  method AddToEach(r: SubstitutedIndex, ts: set<ExecutorId>, a: ExecutorId) returns (r': SubstitutedIndex)
    ensures AddedUnder(r, r', ts, a)
  {
    r' := r;
    var rest := ts;
    ghost var done: set<ExecutorId> := {};
    AddedUnderNone(r, a);
    while rest != {}
      invariant rest + done == ts
      invariant AddedUnder(r, r', done, a)
      decreases |rest|
    {
      var t :| t in rest;
      rest := rest - {t};
      AddedUnderOne(r, r', done, t, a);
      r' := r'[t := SubstitutedOf(r', t) + {a}];
      done := done + {t};
    }
  }

  lemma TargetsOfStep(sub: Substitutors, done: set<Substitution>, s: Substitution)
    requires s in sub
    ensures TargetsOf(sub, done + {s}) == TargetsOf(sub, done) + (if sub[s].Some? then sub[s].value else {})
  {
  }

  /** Adds actor a to the substituted set of every substitutor id of the entries of sub. */
  method AddSubstituted(r: SubstitutedIndex, sub: Substitutors, a: ExecutorId) returns (r': SubstitutedIndex)
    ensures AddedUnder(r, r', Targets(sub), a)
  {
    r' := r;
    var todo := sub.Keys;
    ghost var done: set<Substitution> := {};
    AddedUnderNone(r, a);
    assert TargetsOf(sub, {}) == {};
    while todo != {}
      invariant todo + done == sub.Keys && todo !! done
      invariant AddedUnder(r, r', TargetsOf(sub, done), a)
      decreases |todo|
    {
      var s :| s in todo;
      todo := todo - {s};
      ghost var before := r';
      if sub[s].Some? {
        r' := AddToEach(r', sub[s].value, a);
      }
      AddedUnderEntry(r, before, r', sub, done, s, a);
      done := done + {s};
    }
    TargetsOfAll(sub, done);
  }

  /** One entry of the loop: its substitutor ids, if any, join those already added. */
  lemma AddedUnderEntry(r: SubstitutedIndex, before: SubstitutedIndex, after: SubstitutedIndex,
                        sub: Substitutors, done: set<Substitution>, s: Substitution, a: ExecutorId)
    requires s in sub && AddedUnder(r, before, TargetsOf(sub, done), a)
    requires sub[s].Some? ==> AddedUnder(before, after, sub[s].value, a)
    requires sub[s].None? ==> after == before
    ensures AddedUnder(r, after, TargetsOf(sub, done + {s}), a)
  {
    TargetsOfStep(sub, done, s);
    if sub[s].Some? {
      AddedUnderCompose(r, before, after, TargetsOf(sub, done), sub[s].value, a);
    }
  }

  lemma TargetsOfAll(sub: Substitutors, done: set<Substitution>)
    requires done == sub.Keys
    ensures TargetsOf(sub, done) == Targets(sub)
  {
  }

  lemma ReachedFromStep(dir: Directory, m: SubstitutorIndex, done: set<ExecutorId>, k: ExecutorId)
    requires k in m
    ensures ReachedFrom(dir, m, done + {k}) ==
              ReachedFrom(dir, m, done) + (if Eligible(dir, k) then Targets(m[k]) else {})
  {
  }

  lemma SubstitutedFromStep(dir: Directory, m: SubstitutorIndex, done: set<ExecutorId>, k: ExecutorId, t: ExecutorId)
    requires k in m
    ensures SubstitutedFrom(dir, m, done + {k}, t) ==
              SubstitutedFrom(dir, m, done, t) +
              (if Eligible(dir, k) && t in Targets(m[k]) then {dir.getActor(k).value.id} else {})
  {
  }

  lemma NotReached(dir: Directory, m: SubstitutorIndex, done: set<ExecutorId>, t: ExecutorId)
    requires t !in ReachedFrom(dir, m, done)
    ensures SubstitutedFrom(dir, m, done, t) == {}
  {
  }

  /** One more key of the first index adds its actor under each of its substitutors, if it is eligible. */
  lemma InvertedStep(dir: Directory, m: SubstitutorIndex, done: set<ExecutorId>, k: ExecutorId)
    requires k in m
    ensures Eligible(dir, k) ==>
              AddedUnder(Inverted(dir, m, done), Inverted(dir, m, done + {k}), Targets(m[k]), dir.getActor(k).value.id)
    ensures !Eligible(dir, k) ==> Inverted(dir, m, done + {k}) == Inverted(dir, m, done)
  {
    var before, after := Inverted(dir, m, done), Inverted(dir, m, done + {k});
    ReachedFromStep(dir, m, done, k);
    forall t ensures SubstitutedFrom(dir, m, done + {k}, t) ==
                     SubstitutedOf(before, t) +
                     (if Eligible(dir, k) && t in Targets(m[k]) then {dir.getActor(k).value.id} else {}) {
      SubstitutedFromStep(dir, m, done, k, t);
      if t !in before {
        NotReached(dir, m, done, t);
      }
    }
    if !Eligible(dir, k) {
      assert after.Keys == before.Keys;
      forall t | t in after ensures after[t] == before[t] {
      }
    }
  }

  /**
   * The substitutor-to-substituted index: for every inactive existing actor
   * of the first index, its id is added under every substitutor of its
   * non-terminator substitutions.
   */
  /** One key of the loop: the index over done, extended by that key's actor, is the index over done and the key. */
  lemma InvertedAdvance(dir: Directory, m: SubstitutorIndex, done: set<ExecutorId>, k: ExecutorId,
                        before: SubstitutedIndex, after: SubstitutedIndex)
    requires k in m && before == Inverted(dir, m, done)
    requires Eligible(dir, k) ==> AddedUnder(before, after, Targets(m[k]), dir.getActor(k).value.id)
    requires !Eligible(dir, k) ==> after == before
    ensures after == Inverted(dir, m, done + {k})
  {
    InvertedStep(dir, m, done, k);
    if Eligible(dir, k) {
      AddedUnderUnique(before, after, Inverted(dir, m, done + {k}), Targets(m[k]), dir.getActor(k).value.id);
    }
  }

  /** Over no keys the inverse index is empty. */
  lemma InvertedNone(dir: Directory, m: SubstitutorIndex)
    ensures Inverted(dir, m, {}) == map[]
  {
    assert ReachedFrom(dir, m, {}) == {};
  }

  method GetMapActorToSubstituted(dir: Directory, m: SubstitutorIndex) returns (r: SubstitutedIndex)
    ensures r == Inverted(dir, m, m.Keys)
  {
    r := map[];
    var todo := m.Keys;
    ghost var done: set<ExecutorId> := {};
    InvertedNone(dir, m);
    while todo != {}
      invariant todo + done == m.Keys && todo !! done
      invariant r == Inverted(dir, m, done)
      decreases |todo|
    {
      var substitutedId :| substitutedId in todo;
      todo := todo - {substitutedId};
      ghost var before := r;
      var substitutedActor := dir.getActor(substitutedId);
      if substitutedActor.Some? && !substitutedActor.value.active {
        r := AddSubstituted(r, m[substitutedId], substitutedActor.value.id);
      }
      InvertedAdvance(dir, m, done, substitutedId, before, r);
      done := done + {substitutedId};
    }
  }

  /** Some inactive existing actor of m, with id a, has t among its substitutors. */
  ghost predicate Substitutes(dir: Directory, m: SubstitutorIndex, t: ExecutorId, a: ExecutorId) {
    exists k :: k in m && Eligible(dir, k) && dir.getActor(k).value.id == a && t in Targets(m[k])
  }

  /**
   * What the inverse index holds: a is under t exactly when some inactive
   * existing actor of the first index, with id a, has t among its
   * substitutors; and no set in it is empty.
   */
  lemma InvertedSpec(dir: Directory, m: SubstitutorIndex)
    ensures var r := Inverted(dir, m, m.Keys);
            forall t, a :: t in r && a in r[t] <==> Substitutes(dir, m, t, a)
    ensures var r := Inverted(dir, m, m.Keys);
            forall t :: t in r ==> r[t] != {}
  {
    var r := Inverted(dir, m, m.Keys);
    forall t, a ensures t in r && a in r[t] <==> Substitutes(dir, m, t, a) {
      if Substitutes(dir, m, t, a) {
        var k :| k in m && Eligible(dir, k) && dir.getActor(k).value.id == a && t in Targets(m[k]);
        assert t in ReachedFrom(dir, m, m.Keys);
        assert a in SubstitutedFrom(dir, m, m.Keys, t);
      }
    }
    forall t | t in r ensures r[t] != {} {
      var k :| k in m.Keys && k in m && Eligible(dir, k) && t in Targets(m[k]);
      assert dir.getActor(k).value.id in r[t];
    }
  }

  /** A substitutor id is among an actor's targets exactly when some non-terminator entry lists it. */
  lemma TargetsSpec(sub: Substitutors, t: ExecutorId)
    ensures t in Targets(sub) <==> exists s :: s in sub && sub[s].Some? && t in sub[s].value
  {
  }

  /** Substitution s, listed and enabled, of the existing actor with id k, names t as a substitutor. */
  ghost predicate Names(dir: Directory, ss: seq<Substitution>, k: ExecutorId, s: Substitution, t: ExecutorId) {
    s in ss && Resolved(dir, s, k) && EntryOf(dir, s).Some? && EntryOf(dir, s).value.Some? &&
    t in EntryOf(dir, s).value.value
  }

  /**
   * End to end: after both passes, a is under t exactly when some inactive
   * existing actor with id a was reached by an enabled substitution whose
   * substitutors include t.
   */
  lemma SubstitutesFromList(dir: Directory, ss: seq<Substitution>, t: ExecutorId, a: ExecutorId)
    ensures Substitutes(dir, Grouped(dir, ss), t, a) <==>
              exists k, s :: Eligible(dir, k) && dir.getActor(k).value.id == a && Names(dir, ss, k, s, t)
  {
    GroupedSpec(dir, ss);
    var g := Grouped(dir, ss);
    if Substitutes(dir, g, t, a) {
      IndexedNames(dir, ss, g, t, a);
    }
    if exists k, s :: Eligible(dir, k) && dir.getActor(k).value.id == a && Names(dir, ss, k, s, t) {
      var k, s :| Eligible(dir, k) && dir.getActor(k).value.id == a && Names(dir, ss, k, s, t);
      NamesIndexed(dir, ss, g, k, s, t);
    }
  }

  /** In an index of ss, a substitution pair found in the index is named in ss. */
  lemma IndexedNames(dir: Directory, ss: seq<Substitution>, g: SubstitutorIndex, t: ExecutorId, a: ExecutorId)
    requires IndexedActors(dir, ss, g) && IndexedEntries(dir, ss, g) && IndexedValues(dir, g)
    requires Substitutes(dir, g, t, a)
    ensures exists k, s :: Eligible(dir, k) && dir.getActor(k).value.id == a && Names(dir, ss, k, s, t)
  {
    var k :| k in g && Eligible(dir, k) && dir.getActor(k).value.id == a && t in Targets(g[k]);
    var s :| s in g[k] && g[k][s].Some? && t in g[k][s].value;
    assert Names(dir, ss, k, s, t);
  }

  /** In an index of ss, a substitution named in ss is found in the index. */
  lemma NamesIndexed(dir: Directory, ss: seq<Substitution>, g: SubstitutorIndex, k: ExecutorId, s: Substitution, t: ExecutorId)
    requires IndexedActors(dir, ss, g) && IndexedEntries(dir, ss, g) && IndexedValues(dir, g)
    requires Names(dir, ss, k, s, t)
    ensures k in g && t in Targets(g[k])
  {
    assert k in g;
    assert s in g[k];
  }

  // ---------------------------------------------------------------------------
  // The cache

  /** The two indexes, built once from the directory and the substitution list. */
  class SubstitutionCacheState {
    const actorToSubstitutors: SubstitutorIndex
    const actorToSubstituted: SubstitutedIndex

    ghost const directory: Directory
    ghost const substitutions: Option<seq<Substitution>>

    ghost predicate Valid() {
      && actorToSubstitutors == (if substitutions.None? then map[] else Grouped(directory, substitutions.value))
      && actorToSubstituted == Inverted(directory, actorToSubstitutors, actorToSubstitutors.Keys)
    }

    constructor(dir: Directory, all: Option<seq<Substitution>>)
      ensures directory == dir && substitutions == all && Valid()
    {
      directory, substitutions := dir, all;
      var toSubstitutors := GetMapActorToSubstitutors(dir, all);
      var toSubstituted := GetMapActorToSubstituted(dir, toSubstitutors);
      actorToSubstitutors, actorToSubstituted := toSubstitutors, toSubstituted;
    }

    /**
     * The substitutions of an actor: none for an active actor; for an
     * inactive one, exactly its enabled substitutions that got an entry, each
     * with its entry.
     */
    function GetSubstitutors(actor: Actor, loadIfRequired: bool): (r: Substitutors)
      requires Valid()
      ensures actor.active ==> r == map[]
      ensures substitutions.None? ==> r == map[]
      ensures !actor.active && substitutions.Some? ==>
                forall s :: s in r <==>
                  s in substitutions.value && Resolved(directory, s, actor.id) && EntryOf(directory, s).Some?
      ensures forall s :: s in r ==> EntryOf(directory, s) == Some(r[s])
    {
      GroupedSpec(directory, if substitutions.Some? then substitutions.value else []);
      if actor.active then map[]
      else if actor.id in actorToSubstitutors then actorToSubstitutors[actor.id]
      else map[]
    }

    /** Nothing is ever loaded on demand. */
    function TryToGetSubstitutors(actor: Actor): (r: Option<Substitutors>)
      ensures r.None?
    {
      None
    }

    /**
     * The actors a substitutor stands in for: exactly the inactive existing
     * actors of the first index that list the substitutor in some
     * non-terminator substitution.
     */
    function GetSubstituted(actor: Actor): (r: set<ExecutorId>)
      requires Valid()
      ensures forall a :: a in r <==> Substitutes(directory, actorToSubstitutors, actor.id, a)
    {
      InvertedSpec(directory, actorToSubstitutors);
      if actor.id in actorToSubstituted then actorToSubstituted[actor.id] else {}
    }

    /** The cache never hands over an implementation to unlock. */
    function Unlock(): (r: Option<SubstitutionCacheState>)
      ensures r.None?
    {
      None
    }

    /** No change makes this cache drop itself. */
    function OnChange<T>(changedObject: T): (r: bool)
      ensures !r
    {
      false
    }
  }
}
