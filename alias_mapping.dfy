/**
 * Assignment of HQL query aliases to the fields of a batch presentation.
 *
 * One pass over all fields, in order: a field of the presentation class gets
 * the class alias; a field whose display name has the removable prefix gets
 * `editedField<idx>`; one with the editable prefix gets no alias; every other
 * field is joined, and each distinct joined entity gets `tbl<k>`, numbered
 * 1, 2, ... in order of first appearance. Joined entities that some display
 * field shows are also recorded as visible.
 *
 * `Compile` is the pass as a fold over the fields; the lemmas below state what
 * it produces; the class `HqlAliasMapping` holds the six maps and its factory
 * `New` runs the pass in place and is proved to produce what `Compile` does.
 */
module AliasMapping {
  import opened Wrappers

  /** A persistent class, by name. */
  type Entity = string

  /** A field descriptor: the entity of its first db source, its display name, and whether it has db sources at all. */
  datatype Field = Field(entity: Entity, displayName: string, hasDbSources: bool)

  /** The constants of the presentation layer: the class alias and the two display-name prefixes. */
  datatype Conventions = Conventions(classNameSQL: string, removablePrefix: string, editablePrefix: string)

  /** A batch presentation: its presentation class, the displayed fields and all fields. */
  datatype Presentation = Presentation(presentationClass: Entity, displayFields: seq<Field>, allFields: seq<Field>)

  /** How construction fails: a display field without db sources, or any field without them. */
  datatype AliasError = NullDisplayDbSources | NullDbSources

  // ---------------------------------------------------------------------------
  // Decimal rendering of the numbers glued onto aliases

  function DigitChar(d: nat): char
    requires d < 10
  {
    ('0' as int + d) as char
  }

  /** Decimal text of a non-negative number, as Java's string concatenation writes an int. */
  function Decimal(n: nat): string
    decreases n
  {
    if n < 10 then [DigitChar(n)] else Decimal(n / 10) + [DigitChar(n % 10)]
  }

  lemma DecimalNonEmpty(n: nat)
    ensures |Decimal(n)| >= 1
    ensures n >= 10 ==> |Decimal(n)| >= 2
  {
  }

  /** Different numbers are written differently. */
  lemma {:induction false} DecimalInjective(a: nat, b: nat)
    ensures Decimal(a) == Decimal(b) ==> a == b
    decreases a
  {
    if Decimal(a) == Decimal(b) {
      DecimalNonEmpty(a);
      DecimalNonEmpty(b);
      if a < 10 && b < 10 {
        assert Decimal(a)[0] == Decimal(b)[0];
      } else if a >= 10 && b >= 10 {
        var da, db := Decimal(a), Decimal(b);
        assert da[|da| - 1] == db[|db| - 1];
        assert DigitChar(a % 10) == DigitChar(b % 10);
        assert da[..|da| - 1] == Decimal(a / 10);
        assert db[..|db| - 1] == Decimal(b / 10);
        DecimalInjective(a / 10, b / 10);
      }
    }
  }

  /** Alias of the k-th joined entity. */
  function TableAlias(k: nat): string {
    "tbl" + Decimal(k)
  }

  /** Alias of a removable field at position idx. */
  function EditedAlias(idx: nat): string {
    "editedField" + Decimal(idx)
  }

  lemma TableAliasInjective(a: nat, b: nat)
    ensures TableAlias(a) == TableAlias(b) ==> a == b
  {
    if TableAlias(a) == TableAlias(b) {
      assert TableAlias(a)[3..] == Decimal(a);
      assert TableAlias(b)[3..] == Decimal(b);
      DecimalInjective(a, b);
    }
  }

  /** The table aliases tbl1 .. tbln. */
  function TableAliases(n: nat): set<string> {
    set k | 1 <= k <= n :: TableAlias(k)
  }

  // ---------------------------------------------------------------------------
  // Classification of fields and the joined entities

  datatype FieldKind = Root | Removable | Editable | Joined

  /** Which branch of the pass a field takes; the checks are made in this order. */
  function KindOf(c: Conventions, presentationClass: Entity, f: Field): FieldKind {
    if f.entity == presentationClass then Root
    else if c.removablePrefix <= f.displayName then Removable
    else if c.editablePrefix <= f.displayName then Editable
    else Joined
  }

  /** The position of the last occurrence of x in s. */
  function LastIndex<T(==)>(s: seq<T>, x: T): (i: nat)
    requires x in s
    ensures i < |s| && s[i] == x && x !in s[i + 1..]
    decreases |s|
  {
    if s[|s| - 1] == x then |s| - 1
    else
      var i := LastIndex(s[..|s| - 1], x);
      assert s[i + 1..] == s[..|s| - 1][i + 1..] + [s[|s| - 1]];
      i
  }

  /** The position of the first occurrence of x in s. */
  function IndexOf<T(==)>(s: seq<T>, x: T): (k: nat)
    requires x in s
    ensures k < |s| && s[k] == x && x !in s[..k]
  {
    if s[0] == x then 0 else 1 + IndexOf(s[1..], x)
  }

  /** The last occurrence is the only occurrence with no later copy. */
  lemma LastIndexUnique<T>(s: seq<T>, i: nat)
    requires i < |s| && s[i] !in s[i + 1..]
    ensures LastIndex(s, s[i]) == i
  {
  }

  /** The distinct entities of the joined fields of fs, in order of first appearance. */
  function JoinedEntities(c: Conventions, pc: Entity, fs: seq<Field>): seq<Entity>
    decreases |fs|
  {
    if fs == [] then []
    else
      var J := JoinedEntities(c, pc, fs[..|fs| - 1]);
      var f := fs[|fs| - 1];
      if KindOf(c, pc, f) == Joined && f.entity !in J then J + [f.entity] else J
  }

  /** The distinct entities of the given fields, in order of first appearance. */
  function DistinctEntities(fs: seq<Field>): seq<Entity>
    decreases |fs|
  {
    if fs == [] then []
    else
      var D := DistinctEntities(fs[..|fs| - 1]);
      var e := fs[|fs| - 1].entity;
      if e !in D then D + [e] else D
  }

  ghost predicate Distinct(s: seq<Entity>) {
    forall i, j :: 0 <= i < j < |s| ==> s[i] != s[j]
  }

  /** The display entities contain each entity of a display field once, and nothing else. */
  lemma {:induction false} DistinctEntitiesSpec(fs: seq<Field>)
    ensures Distinct(DistinctEntities(fs))
    ensures forall e :: e in DistinctEntities(fs) <==> exists i :: 0 <= i < |fs| && fs[i].entity == e
    decreases |fs|
  {
    if fs != [] {
      var p := fs[..|fs| - 1];
      DistinctEntitiesSpec(p);
      forall e ensures e in DistinctEntities(fs) <==> exists i :: 0 <= i < |fs| && fs[i].entity == e {
        if e in DistinctEntities(fs) && e != fs[|fs| - 1].entity {
          var i :| 0 <= i < |p| && p[i].entity == e;
          assert fs[i] == p[i];
        }
        if exists i :: 0 <= i < |fs| && fs[i].entity == e {
          var i :| 0 <= i < |fs| && fs[i].entity == e;
          if i < |p| {
            assert p[i] == fs[i];
          }
        }
      }
    }
  }

  /** Each joined entity appears once, and exactly the entities of joined fields appear. */
  lemma {:induction false} JoinedEntitiesSpec(c: Conventions, pc: Entity, fs: seq<Field>)
    ensures Distinct(JoinedEntities(c, pc, fs))
    ensures forall e :: e in JoinedEntities(c, pc, fs) <==>
              exists i :: 0 <= i < |fs| && KindOf(c, pc, fs[i]) == Joined && fs[i].entity == e
    decreases |fs|
  {
    if fs != [] {
      var p := fs[..|fs| - 1];
      JoinedEntitiesSpec(c, pc, p);
      forall e ensures e in JoinedEntities(c, pc, fs) <==>
                       exists i :: 0 <= i < |fs| && KindOf(c, pc, fs[i]) == Joined && fs[i].entity == e {
        if e in JoinedEntities(c, pc, p) {
          var i :| 0 <= i < |p| && KindOf(c, pc, p[i]) == Joined && p[i].entity == e;
          assert fs[i] == p[i];
        }
        if exists i :: 0 <= i < |fs| && KindOf(c, pc, fs[i]) == Joined && fs[i].entity == e {
          var i :| 0 <= i < |fs| && KindOf(c, pc, fs[i]) == Joined && fs[i].entity == e;
          if i < |p| {
            assert p[i] == fs[i];
          }
        }
      }
    }
  }

  /** The joined entities of a prefix are a prefix of the joined entities: numbers once given never change. */
  lemma {:induction false} JoinedEntitiesPrefix(c: Conventions, pc: Entity, fs: seq<Field>, n: nat)
    requires n <= |fs|
    ensures JoinedEntities(c, pc, fs[..n]) <= JoinedEntities(c, pc, fs)
    decreases |fs| - n
  {
    if n < |fs| {
      JoinedEntitiesPrefix(c, pc, fs, n + 1);
      assert fs[..n + 1][..n] == fs[..n];
    } else {
      assert fs[..n] == fs;
    }
  }

  /**
   * Numbering in order of first appearance: a joined field whose entity was not
   * seen among the earlier fields makes that entity the next one, so it gets
   * the number one past the count of distinct joined entities seen before it.
   */
  lemma JoinedNumbering(c: Conventions, pc: Entity, fs: seq<Field>, i: nat)
    requires i < |fs| && KindOf(c, pc, fs[i]) == Joined
    requires fs[i].entity !in JoinedEntities(c, pc, fs[..i])
    ensures var k := |JoinedEntities(c, pc, fs[..i])|;
            k < |JoinedEntities(c, pc, fs)| && JoinedEntities(c, pc, fs)[k] == fs[i].entity
  {
    assert fs[..i + 1][..i] == fs[..i];
    JoinedEntitiesPrefix(c, pc, fs, i + 1);
  }

  // ---------------------------------------------------------------------------
  // The pass as a fold

  /** The six maps of an alias mapping, and the table counter of the pass. */
  datatype Maps = Maps(
    fieldToAlias: map<Field, string>,
    aliasToField: map<string, seq<Field>>,
    joinedClassToAlias: map<Entity, string>,
    joinedAliasToClass: map<string, Entity>,
    visibleJoinedClassToAlias: map<Entity, string>,
    visibleJoinedAliasToClass: map<string, Entity>,
    tableIndex: nat)

  const NoMaps := Maps(map[], map[], map[], map[], map[], map[], 0)

  /** The fields listed under an alias, none when it has no list. */
  function FieldsFor(m: map<string, seq<Field>>, alias: string): seq<Field> {
    if alias in m then m[alias] else []
  }

  function WithAlias(m: Maps, f: Field, alias: string): Maps {
    m.(fieldToAlias := m.fieldToAlias[f := alias],
       aliasToField := m.aliasToField[alias := FieldsFor(m.aliasToField, alias) + [f]])
  }

  function WithJoined(m: Maps, e: Entity, alias: string): Maps {
    m.(joinedClassToAlias := m.joinedClassToAlias[e := alias],
       joinedAliasToClass := m.joinedAliasToClass[alias := e])
  }

  function WithVisible(m: Maps, e: Entity, alias: string): Maps {
    m.(visibleJoinedClassToAlias := m.visibleJoinedClassToAlias[e := alias],
       visibleJoinedAliasToClass := m.visibleJoinedAliasToClass[alias := e])
  }

  /** A new joined entity: the next table alias, visible too when a display field shows the entity. */
  function Join(m: Maps, e: Entity, display: seq<Entity>): Maps {
    var alias := TableAlias(m.tableIndex + 1);
    var m1 := WithJoined(m.(tableIndex := m.tableIndex + 1), e, alias);
    if e in display && e !in m1.visibleJoinedClassToAlias then WithVisible(m1, e, alias) else m1
  }

  /** One iteration of the pass, on the field at position idx. */
  function Step(c: Conventions, pc: Entity, display: seq<Entity>, m: Maps, idx: nat, f: Field): Maps {
    match KindOf(c, pc, f)
    case Root => WithAlias(m, f, c.classNameSQL)
    case Removable => WithAlias(m, f, EditedAlias(idx))
    case Editable => m
    case Joined =>
      var m1 := if f.entity !in m.joinedClassToAlias then Join(m, f.entity, display) else m;
      WithAlias(m1, f, m1.joinedClassToAlias[f.entity])
  }

  /** The maps after the pass over fs. */
  function Compile(c: Conventions, pc: Entity, display: seq<Entity>, fs: seq<Field>): Maps
    decreases |fs|
  {
    if fs == [] then NoMaps
    else Step(c, pc, display, Compile(c, pc, display, fs[..|fs| - 1]), |fs| - 1, fs[|fs| - 1])
  }

  // ---------------------------------------------------------------------------
  // What the pass produces

  /** The joined maps number the joined entities J densely, tbl1 .. tbl|J|. */
  ghost predicate JoinedNumbered(m: Maps, J: seq<Entity>) {
    && m.tableIndex == |J|
    && (forall e :: e in m.joinedClassToAlias <==> e in J)
    && (forall k :: 0 <= k < |J| ==> m.joinedClassToAlias[J[k]] == TableAlias(k + 1))
    && m.joinedAliasToClass.Keys == TableAliases(|J|)
    && (forall k :: 0 <= k < |J| ==> m.joinedAliasToClass[TableAlias(k + 1)] == J[k])
  }

  /** The visible joined maps are the joined maps restricted to the display entities D. */
  ghost predicate VisibleRestricted(m: Maps, D: seq<Entity>) {
    && (forall e :: e in m.visibleJoinedClassToAlias <==> e in m.joinedClassToAlias && e in D)
    && (forall e :: e in m.visibleJoinedClassToAlias ==>
          m.visibleJoinedClassToAlias[e] == m.joinedClassToAlias[e])
    && (forall a :: a in m.visibleJoinedAliasToClass <==>
          a in m.joinedAliasToClass && m.joinedAliasToClass[a] in D)
    && (forall a :: a in m.visibleJoinedAliasToClass ==>
          m.visibleJoinedAliasToClass[a] == m.joinedAliasToClass[a])
  }

  lemma TableAliasesGrow(n: nat)
    ensures TableAliases(n + 1) == TableAliases(n) + {TableAlias(n + 1)}
    ensures TableAlias(n + 1) !in TableAliases(n)
  {
    forall k | 1 <= k <= n ensures TableAlias(k) != TableAlias(n + 1) {
      TableAliasInjective(k, n + 1);
    }
  }

  /** Joining sets the next number and records the entity under its alias, both ways. */
  lemma JoinJoinedMaps(m: Maps, e: Entity, D: seq<Entity>)
    ensures Join(m, e, D).tableIndex == m.tableIndex + 1
    ensures Join(m, e, D).joinedClassToAlias == m.joinedClassToAlias[e := TableAlias(m.tableIndex + 1)]
    ensures Join(m, e, D).joinedAliasToClass == m.joinedAliasToClass[TableAlias(m.tableIndex + 1) := e]
  {
  }

  // The four clauses of JoinedNumbered, each extended by one new entity.

  lemma JoinedKeysSnoc(ca: map<Entity, string>, J: seq<Entity>, e: Entity, alias: string)
    requires forall x :: x in ca <==> x in J
    ensures forall x :: x in ca[e := alias] <==> x in J + [e]
  {
  }

  lemma JoinedAliasesSnoc(ca: map<Entity, string>, J: seq<Entity>, e: Entity)
    requires e !in J && forall x :: x in ca <==> x in J
    requires forall k :: 0 <= k < |J| ==> ca[J[k]] == TableAlias(k + 1)
    ensures forall k :: 0 <= k < |J + [e]| ==> ca[e := TableAlias(|J| + 1)][(J + [e])[k]] == TableAlias(k + 1)
  {
    var J', ca' := J + [e], ca[e := TableAlias(|J| + 1)];
    forall k | 0 <= k < |J'| ensures ca'[J'[k]] == TableAlias(k + 1) {
      if k < |J| {
        assert J'[k] == J[k] && J[k] != e;
      }
    }
  }

  lemma AliasKeysSnoc(ac: map<string, Entity>, n: nat, e: Entity)
    requires ac.Keys == TableAliases(n)
    ensures ac[TableAlias(n + 1) := e].Keys == TableAliases(n + 1)
  {
    TableAliasesGrow(n);
  }

  lemma AliasClassesSnoc(ac: map<string, Entity>, J: seq<Entity>, e: Entity)
    requires ac.Keys == TableAliases(|J|)
    requires forall k :: 0 <= k < |J| ==> ac[TableAlias(k + 1)] == J[k]
    ensures forall k :: 0 <= k < |J + [e]| ==> ac[TableAlias(|J| + 1) := e][TableAlias(k + 1)] == (J + [e])[k]
  {
    var J', ac' := J + [e], ac[TableAlias(|J| + 1) := e];
    forall k | 0 <= k < |J'| ensures ac'[TableAlias(k + 1)] == J'[k] {
      if k < |J| {
        TableAliasInjective(k + 1, |J| + 1);
        assert J'[k] == J[k];
      }
    }
  }

  /** Joining a new entity gives it the next number. */
  lemma JoinNumbers(m: Maps, J: seq<Entity>, e: Entity, D: seq<Entity>)
    requires JoinedNumbered(m, J) && e !in J
    ensures JoinedNumbered(Join(m, e, D), J + [e])
  {
    JoinJoinedMaps(m, e, D);
    JoinedKeysSnoc(m.joinedClassToAlias, J, e, TableAlias(|J| + 1));
    JoinedAliasesSnoc(m.joinedClassToAlias, J, e);
    AliasKeysSnoc(m.joinedAliasToClass, |J|, e);
    AliasClassesSnoc(m.joinedAliasToClass, J, e);
  }

  /** Joining a new entity keeps the visible maps the restriction of the joined ones. */
  lemma JoinVisible(m: Maps, e: Entity, D: seq<Entity>)
    requires VisibleRestricted(m, D)
    requires e !in m.joinedClassToAlias && TableAlias(m.tableIndex + 1) !in m.joinedAliasToClass
    ensures VisibleRestricted(Join(m, e, D), D)
  {
    if e in D {
    }
  }

  /** The joined part of the maps: everything but the field maps. */
  function JoinedPart(m: Maps): Maps {
    m.(fieldToAlias := map[], aliasToField := map[])
  }

  /** One iteration changes the joined part only by joining a new entity. */
  lemma StepJoinedPart(c: Conventions, pc: Entity, D: seq<Entity>, m: Maps, idx: nat, f: Field)
    ensures JoinedPart(Step(c, pc, D, m, idx, f)) ==
            if KindOf(c, pc, f) == Joined && f.entity !in m.joinedClassToAlias
            then JoinedPart(Join(m, f.entity, D)) else JoinedPart(m)
  {
  }

  lemma JoinedPartKeeps(m: Maps, n: Maps, J: seq<Entity>, D: seq<Entity>)
    requires JoinedPart(m) == JoinedPart(n)
    ensures JoinedNumbered(m, J) == JoinedNumbered(n, J)
    ensures VisibleRestricted(m, D) == VisibleRestricted(n, D)
  {
    assert m.joinedClassToAlias == n.joinedClassToAlias;
    assert m.joinedAliasToClass == n.joinedAliasToClass;
    assert m.visibleJoinedClassToAlias == n.visibleJoinedClassToAlias;
    assert m.visibleJoinedAliasToClass == n.visibleJoinedAliasToClass;
    assert m.tableIndex == n.tableIndex;
    NumberedByJoinedMaps(m, n, J);
    VisibleByJoinedMaps(m, n, D);
  }

  lemma NumberedByJoinedMaps(m: Maps, n: Maps, J: seq<Entity>)
    requires m.tableIndex == n.tableIndex
    requires m.joinedClassToAlias == n.joinedClassToAlias && m.joinedAliasToClass == n.joinedAliasToClass
    ensures JoinedNumbered(m, J) == JoinedNumbered(n, J)
  {
  }

  lemma VisibleByJoinedMaps(m: Maps, n: Maps, D: seq<Entity>)
    requires m.joinedClassToAlias == n.joinedClassToAlias && m.joinedAliasToClass == n.joinedAliasToClass
    requires m.visibleJoinedClassToAlias == n.visibleJoinedClassToAlias
    requires m.visibleJoinedAliasToClass == n.visibleJoinedAliasToClass
    ensures VisibleRestricted(m, D) == VisibleRestricted(n, D)
  {
  }

  /** The pass numbers the joined entities densely and keeps the visible maps a restriction. */
  lemma {:induction false} CompileJoined(c: Conventions, pc: Entity, D: seq<Entity>, fs: seq<Field>)
    ensures JoinedNumbered(Compile(c, pc, D, fs), JoinedEntities(c, pc, fs))
    ensures VisibleRestricted(Compile(c, pc, D, fs), D)
    decreases |fs|
  {
    if fs != [] {
      var p := fs[..|fs| - 1];
      var f := fs[|fs| - 1];
      var m := Compile(c, pc, D, p);
      var J := JoinedEntities(c, pc, p);
      CompileJoined(c, pc, D, p);
      var m' := Compile(c, pc, D, fs);
      assert m' == Step(c, pc, D, m, |fs| - 1, f);
      StepJoinedPart(c, pc, D, m, |fs| - 1, f);
      if KindOf(c, pc, f) == Joined && f.entity !in J {
        JoinNumbers(m, J, f.entity, D);
        TableAliasesGrow(|J|);
        JoinVisible(m, f.entity, D);
        JoinedPartKeeps(m', Join(m, f.entity, D), J + [f.entity], D);
      } else {
        JoinedPartKeeps(m', m, J, D);
      }
    }
  }

  /** Two maps that undo each other. */
  ghost predicate MutualInverse<K, V>(forward: map<K, V>, backward: map<V, K>) {
    && (forall k :: k in forward ==> forward[k] in backward && backward[forward[k]] == k)
    && (forall v :: v in backward ==> backward[v] in forward && forward[backward[v]] == v)
  }

  /** The joined class/alias maps are mutual inverses, and so are the visible ones. */
  lemma CompileInverse(c: Conventions, pc: Entity, D: seq<Entity>, fs: seq<Field>)
    ensures var m := Compile(c, pc, D, fs);
            MutualInverse(m.joinedClassToAlias, m.joinedAliasToClass) &&
            MutualInverse(m.visibleJoinedClassToAlias, m.visibleJoinedAliasToClass)
  {
    var m := Compile(c, pc, D, fs);
    var J := JoinedEntities(c, pc, fs);
    CompileJoined(c, pc, D, fs);
    forall e | e in m.joinedClassToAlias
      ensures m.joinedClassToAlias[e] in m.joinedAliasToClass && m.joinedAliasToClass[m.joinedClassToAlias[e]] == e
    {
      var k :| 0 <= k < |J| && J[k] == e;
      assert TableAlias(k + 1) in TableAliases(|J|);
    }
    forall a | a in m.joinedAliasToClass
      ensures m.joinedAliasToClass[a] in m.joinedClassToAlias && m.joinedClassToAlias[m.joinedAliasToClass[a]] == a
    {
      assert a in TableAliases(|J|);
      var k :| 1 <= k <= |J| && a == TableAlias(k);
      assert m.joinedAliasToClass[TableAlias(k - 1 + 1)] == J[k - 1];
    }
  }

  // ---------------------------------------------------------------------------
  // The field maps

  /**
   * Which fields have an alias, and which: the class alias for fields of the
   * presentation class, the shared alias of the entity for joined fields, and
   * for a removable field the alias of its position (its last one, when the
   * same field occurs more than once).
   */
  ghost predicate FieldsAliased(c: Conventions, pc: Entity, fs: seq<Field>, m: Maps) {
    && AliasedExactly(c, pc, fs, m)
    && RootAliased(c, pc, m)
    && JoinedAliased(c, pc, m)
    && RemovableAliased(c, pc, fs, m)
  }

  ghost predicate AliasedExactly(c: Conventions, pc: Entity, fs: seq<Field>, m: Maps) {
    forall g :: g in m.fieldToAlias <==> g in fs && KindOf(c, pc, g) != Editable
  }

  ghost predicate RootAliased(c: Conventions, pc: Entity, m: Maps) {
    forall g :: g in m.fieldToAlias && KindOf(c, pc, g) == Root ==> m.fieldToAlias[g] == c.classNameSQL
  }

  ghost predicate JoinedAliased(c: Conventions, pc: Entity, m: Maps) {
    forall g :: g in m.fieldToAlias && KindOf(c, pc, g) == Joined ==>
      g.entity in m.joinedClassToAlias && m.fieldToAlias[g] == m.joinedClassToAlias[g.entity]
  }

  ghost predicate RemovableAliased(c: Conventions, pc: Entity, fs: seq<Field>, m: Maps) {
    forall g :: g in m.fieldToAlias && g in fs && KindOf(c, pc, g) == Removable ==>
      m.fieldToAlias[g] == EditedAlias(LastIndex(fs, g))
  }

  /**
   * The alias-to-fields lists agree with the field-to-alias map: every field is
   * listed under its alias, and every listed field has an alias, the one it is
   * listed under unless it is a removable field that occurs again later.
   */
  ghost predicate ListsAgree(c: Conventions, pc: Entity, m: Maps) {
    && (forall g :: g in m.fieldToAlias ==>
          m.fieldToAlias[g] in m.aliasToField && g in m.aliasToField[m.fieldToAlias[g]])
    && (forall a, g :: a in m.aliasToField && g in m.aliasToField[a] ==>
          g in m.fieldToAlias && (KindOf(c, pc, g) != Removable ==> m.fieldToAlias[g] == a))
  }

  lemma WithAliasLists(c: Conventions, pc: Entity, m: Maps, f: Field, alias: string)
    requires ListsAgree(c, pc, m)
    requires f in m.fieldToAlias && KindOf(c, pc, f) != Removable ==> m.fieldToAlias[f] == alias
    ensures ListsAgree(c, pc, WithAlias(m, f, alias))
  {
    var m' := WithAlias(m, f, alias);
    forall a, g | a in m'.aliasToField && g in m'.aliasToField[a]
      ensures g in m'.fieldToAlias && (KindOf(c, pc, g) != Removable ==> m'.fieldToAlias[g] == a)
    {
      if a != alias || g != f {
        assert a in m.aliasToField && g in m.aliasToField[a];
      }
    }
  }

  /** The field maps and the joined alias of an entity already joined are untouched by joining another. */
  lemma JoinKeepsFields(m: Maps, e: Entity, D: seq<Entity>)
    ensures Join(m, e, D).fieldToAlias == m.fieldToAlias
    ensures Join(m, e, D).aliasToField == m.aliasToField
    ensures Join(m, e, D).joinedClassToAlias == m.joinedClassToAlias[e := TableAlias(m.tableIndex + 1)]
  {
  }

  /** The maps before the alias of an iteration is recorded: with the entity joined if it is new. */
  function JoinedIfNew(c: Conventions, pc: Entity, D: seq<Entity>, m: Maps, f: Field): Maps {
    if KindOf(c, pc, f) == Joined && f.entity !in m.joinedClassToAlias then Join(m, f.entity, D) else m
  }

  /** The alias an iteration records for a field that is not editable. */
  function AliasOf(c: Conventions, pc: Entity, D: seq<Entity>, m: Maps, idx: nat, f: Field): string
    requires KindOf(c, pc, f) != Editable
  {
    match KindOf(c, pc, f)
    case Root => c.classNameSQL
    case Removable => EditedAlias(idx)
    case Joined => JoinedIfNew(c, pc, D, m, f).joinedClassToAlias[f.entity]
  }

  lemma StepShape(c: Conventions, pc: Entity, D: seq<Entity>, m: Maps, idx: nat, f: Field)
    ensures KindOf(c, pc, f) == Editable ==> Step(c, pc, D, m, idx, f) == m
    ensures KindOf(c, pc, f) != Editable ==>
              Step(c, pc, D, m, idx, f) == WithAlias(JoinedIfNew(c, pc, D, m, f), f, AliasOf(c, pc, D, m, idx, f))
  {
  }

  /** One iteration keeps the lists in agreement with the field-to-alias map. */
  lemma StepLists(c: Conventions, pc: Entity, D: seq<Entity>, p: seq<Field>, m: Maps, f: Field)
    requires FieldsAliased(c, pc, p, m) && ListsAgree(c, pc, m)
    ensures ListsAgree(c, pc, Step(c, pc, D, m, |p|, f))
  {
    StepShape(c, pc, D, m, |p|, f);
    if KindOf(c, pc, f) != Editable {
      var m1 := JoinedIfNew(c, pc, D, m, f);
      JoinKeepsFields(m, f.entity, D);
      assert m1.fieldToAlias == m.fieldToAlias && m1.aliasToField == m.aliasToField;
      WithAliasLists(c, pc, m1, f, AliasOf(c, pc, D, m, |p|, f));
    }
  }

  /** One iteration gives the new field its alias and keeps the others'. */
  lemma StepAliased(c: Conventions, pc: Entity, D: seq<Entity>, p: seq<Field>, m: Maps, f: Field)
    requires FieldsAliased(c, pc, p, m)
    ensures FieldsAliased(c, pc, p + [f], Step(c, pc, D, m, |p|, f))
  {
    StepShape(c, pc, D, m, |p|, f);
    JoinKeepsFields(m, f.entity, D);
    StepAliasedExactly(c, pc, D, p, m, f);
    StepRootAliased(c, pc, D, p, m, f);
    StepJoinedAliased(c, pc, D, p, m, f);
    StepRemovableAliased(c, pc, D, p, m, f);
  }

  lemma StepAliasedExactly(c: Conventions, pc: Entity, D: seq<Entity>, p: seq<Field>, m: Maps, f: Field)
    requires AliasedExactly(c, pc, p, m)
    requires KindOf(c, pc, f) == Editable ==> Step(c, pc, D, m, |p|, f) == m
    requires KindOf(c, pc, f) != Editable ==>
               Step(c, pc, D, m, |p|, f).fieldToAlias == m.fieldToAlias[f := AliasOf(c, pc, D, m, |p|, f)]
    ensures AliasedExactly(c, pc, p + [f], Step(c, pc, D, m, |p|, f))
  {
    var fs := p + [f];
    var m' := Step(c, pc, D, m, |p|, f);
    forall g ensures g in m'.fieldToAlias <==> g in fs && KindOf(c, pc, g) != Editable {
      assert g in fs <==> g in p || g == f;
    }
  }

  lemma StepRootAliased(c: Conventions, pc: Entity, D: seq<Entity>, p: seq<Field>, m: Maps, f: Field)
    requires RootAliased(c, pc, m)
    requires KindOf(c, pc, f) == Editable ==> Step(c, pc, D, m, |p|, f) == m
    requires KindOf(c, pc, f) != Editable ==>
               Step(c, pc, D, m, |p|, f).fieldToAlias == m.fieldToAlias[f := AliasOf(c, pc, D, m, |p|, f)]
    ensures RootAliased(c, pc, Step(c, pc, D, m, |p|, f))
  {
  }

  /** Keeping the joined aliases and giving one field its entity's alias keeps JoinedAliased. */
  lemma JoinedAliasedExtend(c: Conventions, pc: Entity, m: Maps, f: Field, alias: string, m': Maps)
    requires JoinedAliased(c, pc, m)
    requires forall e :: e in m.joinedClassToAlias ==>
               e in m'.joinedClassToAlias && m'.joinedClassToAlias[e] == m.joinedClassToAlias[e]
    requires m'.fieldToAlias == m.fieldToAlias[f := alias]
    requires KindOf(c, pc, f) == Joined ==> f.entity in m'.joinedClassToAlias && alias == m'.joinedClassToAlias[f.entity]
    ensures JoinedAliased(c, pc, m')
  {
  }

  lemma StepJoinedAliased(c: Conventions, pc: Entity, D: seq<Entity>, p: seq<Field>, m: Maps, f: Field)
    requires JoinedAliased(c, pc, m)
    requires KindOf(c, pc, f) == Editable ==> Step(c, pc, D, m, |p|, f) == m
    requires KindOf(c, pc, f) != Editable ==>
               Step(c, pc, D, m, |p|, f) == WithAlias(JoinedIfNew(c, pc, D, m, f), f, AliasOf(c, pc, D, m, |p|, f))
    requires JoinedIfNew(c, pc, D, m, f).fieldToAlias == m.fieldToAlias
    ensures JoinedAliased(c, pc, Step(c, pc, D, m, |p|, f))
  {
    if KindOf(c, pc, f) != Editable {
      var m1 := JoinedIfNew(c, pc, D, m, f);
      var m' := Step(c, pc, D, m, |p|, f);
      var alias := AliasOf(c, pc, D, m, |p|, f);
      if KindOf(c, pc, f) == Joined && f.entity !in m.joinedClassToAlias {
        JoinJoinedMaps(m, f.entity, D);
      }
      assert forall e :: e in m.joinedClassToAlias ==>
               e in m1.joinedClassToAlias && m1.joinedClassToAlias[e] == m.joinedClassToAlias[e];
      assert m'.joinedClassToAlias == m1.joinedClassToAlias;
      assert m'.fieldToAlias == m.fieldToAlias[f := alias];
      JoinedAliasedExtend(c, pc, m, f, alias, m');
    }
  }

  lemma StepRemovableAliased(c: Conventions, pc: Entity, D: seq<Entity>, p: seq<Field>, m: Maps, f: Field)
    requires RemovableAliased(c, pc, p, m)
    requires KindOf(c, pc, f) == Editable ==> Step(c, pc, D, m, |p|, f) == m
    requires KindOf(c, pc, f) != Editable ==>
               Step(c, pc, D, m, |p|, f).fieldToAlias == m.fieldToAlias[f := AliasOf(c, pc, D, m, |p|, f)]
    ensures RemovableAliased(c, pc, p + [f], Step(c, pc, D, m, |p|, f))
  {
    var m' := Step(c, pc, D, m, |p|, f);
    var fa := m'.fieldToAlias;
    assert KindOf(c, pc, f) == Removable ==> f in fa && fa[f] == EditedAlias(|p|);
    assert forall g :: g != f && g in m.fieldToAlias ==> g in fa && fa[g] == m.fieldToAlias[g];
    assert forall g :: g != f && g in fa ==> g in m.fieldToAlias;
    RemovableExtend(c, pc, p, m, f, m');
  }

  /** RemovableAliased survives appending f when the older aliases are kept. */
  lemma RemovableExtend(c: Conventions, pc: Entity, p: seq<Field>, m: Maps, f: Field, m': Maps)
    requires RemovableAliased(c, pc, p, m)
    requires KindOf(c, pc, f) == Removable ==> f in m'.fieldToAlias && m'.fieldToAlias[f] == EditedAlias(|p|)
    requires forall g :: g != f && g in m.fieldToAlias ==>
               g in m'.fieldToAlias && m'.fieldToAlias[g] == m.fieldToAlias[g]
    requires forall g :: g != f && g in m'.fieldToAlias ==> g in m.fieldToAlias
    ensures RemovableAliased(c, pc, p + [f], m')
  {
    var fs := p + [f];
    assert fs[..|fs| - 1] == p;
    forall g | g in m'.fieldToAlias && g in fs && KindOf(c, pc, g) == Removable
      ensures m'.fieldToAlias[g] == EditedAlias(LastIndex(fs, g))
    {
      if g != f {
        assert g in p;
      }
    }
  }

  /** The pass gives aliases as FieldsAliased says, and the lists agree. */
  lemma {:induction false} CompileFields(c: Conventions, pc: Entity, D: seq<Entity>, fs: seq<Field>)
    ensures FieldsAliased(c, pc, fs, Compile(c, pc, D, fs))
    ensures ListsAgree(c, pc, Compile(c, pc, D, fs))
    decreases |fs|
  {
    if fs != [] {
      var p := fs[..|fs| - 1];
      CompileFields(c, pc, D, p);
      StepAliased(c, pc, D, p, Compile(c, pc, D, p), fs[|fs| - 1]);
      StepLists(c, pc, D, p, Compile(c, pc, D, p), fs[|fs| - 1]);
      assert p + [fs[|fs| - 1]] == fs;
    }
  }

  /**
   * The alias of each field: fields of the presentation class get the class
   * alias whatever their prefix; removable fields get editedField plus their
   * position (the last one, if the field occurs twice); editable fields get
   * none; every other field gets the table alias numbered by its entity's
   * place among the joined entities.
   */
  lemma CompileFieldAlias(c: Conventions, pc: Entity, D: seq<Entity>, fs: seq<Field>, f: Field)
    ensures var m := Compile(c, pc, D, fs);
            var J := JoinedEntities(c, pc, fs);
            && (f in m.fieldToAlias <==> f in fs && KindOf(c, pc, f) != Editable)
            && (f in fs && f.entity == pc ==> m.fieldToAlias[f] == c.classNameSQL)
            && (f in fs && KindOf(c, pc, f) == Removable ==>
                  m.fieldToAlias[f] == EditedAlias(LastIndex(fs, f)))
            && (f in fs && KindOf(c, pc, f) == Joined ==>
                  f.entity in J && m.fieldToAlias[f] == TableAlias(IndexOf(J, f.entity) + 1))
  {
    CompileAliasedNumbered(c, pc, D, fs);
    AliasOfField(c, pc, fs, Compile(c, pc, D, fs), JoinedEntities(c, pc, fs), f);
  }

  /** The two invariants of the pass that determine each field's alias. */
  lemma CompileAliasedNumbered(c: Conventions, pc: Entity, D: seq<Entity>, fs: seq<Field>)
    ensures FieldsAliased(c, pc, fs, Compile(c, pc, D, fs))
    ensures JoinedNumbered(Compile(c, pc, D, fs), JoinedEntities(c, pc, fs))
  {
    CompileFields(c, pc, D, fs);
    CompileJoined(c, pc, D, fs);
  }

  /** CompileFieldAlias for any maps meeting the invariants of the pass. */
  lemma AliasOfField(c: Conventions, pc: Entity, fs: seq<Field>, m: Maps, J: seq<Entity>, f: Field)
    requires FieldsAliased(c, pc, fs, m) && JoinedNumbered(m, J)
    ensures && (f in m.fieldToAlias <==> f in fs && KindOf(c, pc, f) != Editable)
            && (f in fs && f.entity == pc ==> m.fieldToAlias[f] == c.classNameSQL)
            && (f in fs && KindOf(c, pc, f) == Removable ==>
                  m.fieldToAlias[f] == EditedAlias(LastIndex(fs, f)))
            && (f in fs && KindOf(c, pc, f) == Joined ==>
                  f.entity in J && m.fieldToAlias[f] == TableAlias(IndexOf(J, f.entity) + 1))
  {
    if f in fs {
      FieldAlias(c, pc, fs, m, J, LastIndex(fs, f));
    } else {
      assert AliasedExactly(c, pc, fs, m);
    }
  }

  /** The alias of fs[i] in maps that satisfy the invariants of the pass. */
  lemma FieldAlias(c: Conventions, pc: Entity, fs: seq<Field>, m: Maps, J: seq<Entity>, i: nat)
    requires i < |fs|
    requires FieldsAliased(c, pc, fs, m) && JoinedNumbered(m, J)
    ensures && (fs[i] in m.fieldToAlias <==> KindOf(c, pc, fs[i]) != Editable)
            && (fs[i].entity == pc ==> m.fieldToAlias[fs[i]] == c.classNameSQL)
            && (KindOf(c, pc, fs[i]) == Removable && fs[i] !in fs[i + 1..] ==>
                  m.fieldToAlias[fs[i]] == EditedAlias(i))
            && (KindOf(c, pc, fs[i]) == Joined ==>
                  fs[i].entity in J && m.fieldToAlias[fs[i]] == TableAlias(IndexOf(J, fs[i].entity) + 1))
  {
    var g := fs[i];
    assert AliasedExactly(c, pc, fs, m);
    assert g in fs;
    match KindOf(c, pc, g)
    case Root =>
      assert RootAliased(c, pc, m);
    case Removable =>
      if g !in fs[i + 1..] {
        LastIndexUnique(fs, i);
        assert RemovableAliased(c, pc, fs, m);
      }
    case Editable =>
    case Joined =>
      assert JoinedAliased(c, pc, m);
      var k := IndexOf(J, g.entity);
      assert m.joinedClassToAlias[J[k]] == TableAlias(k + 1);
  }

  /** The pass over one more field is one more iteration. */
  lemma CompileSnoc(c: Conventions, pc: Entity, D: seq<Entity>, fs: seq<Field>, idx: nat)
    requires idx < |fs|
    ensures Compile(c, pc, D, fs[..idx + 1]) == Step(c, pc, D, Compile(c, pc, D, fs[..idx]), idx, fs[idx])
  {
    assert fs[..idx + 1][..idx] == fs[..idx];
  }

  /** The visible joined aliases are the table aliases of the joined entities in D. */
  lemma VisibleAliases(m: Maps, J: seq<Entity>, D: seq<Entity>)
    requires JoinedNumbered(m, J) && VisibleRestricted(m, D)
    ensures forall a :: a in m.visibleJoinedAliasToClass <==>
              exists k :: 0 <= k < |J| && J[k] in D && a == TableAlias(k + 1)
  {
    forall a ensures a in m.visibleJoinedAliasToClass <==>
                     exists k :: 0 <= k < |J| && J[k] in D && a == TableAlias(k + 1) {
      if a in m.visibleJoinedAliasToClass {
        assert a in TableAliases(|J|);
        var k :| 1 <= k <= |J| && a == TableAlias(k);
        assert m.joinedAliasToClass[TableAlias(k - 1 + 1)] == J[k - 1];
      }
      if exists k :: 0 <= k < |J| && J[k] in D && a == TableAlias(k + 1) {
        var k :| 0 <= k < |J| && J[k] in D && a == TableAlias(k + 1);
        assert a in TableAliases(|J|);
      }
    }
  }

  // ---------------------------------------------------------------------------
  // The display entities

  /**
   * The entities of the display fields, each once, in order of first
   * appearance; reading the first db source of a display field that has none
   * fails.
   */
  method CollectDisplayEntities(displayFields: seq<Field>) returns (r: Result<seq<Entity>, AliasError>)
    ensures r.Failure? <==> exists i :: 0 <= i < |displayFields| && !displayFields[i].hasDbSources
    ensures r.Failure? ==> r.error == NullDisplayDbSources
    ensures r.Success? ==> r.value == DistinctEntities(displayFields)
  {
    var entities := [];
    for i := 0 to |displayFields|
      invariant forall j :: 0 <= j < i ==> displayFields[j].hasDbSources
      invariant entities == DistinctEntities(displayFields[..i])
    {
      if !displayFields[i].hasDbSources {
        return Failure(NullDisplayDbSources);
      }
      var e := displayFields[i].entity;
      if e !in entities {
        entities := entities + [e];
      }
      assert displayFields[..i + 1][..i] == displayFields[..i];
    }
    assert displayFields[..|displayFields|] == displayFields;
    return Success(entities);
  }

  // ---------------------------------------------------------------------------
  // The alias mapping object

  /** The six maps from fields and joined entities to HQL aliases and back. */
  class HqlAliasMapping {
    var fieldToAlias: map<Field, string>
    var aliasToField: map<string, seq<Field>>
    var joinedClassToAlias: map<Entity, string>
    var joinedAliasToClass: map<string, Entity>
    var visibleJoinedClassToAlias: map<Entity, string>
    var visibleJoinedAliasToClass: map<string, Entity>

    /** The conventions and the presentation the maps were built for. */
    ghost const conventions: Conventions
    ghost const presentation: Presentation

    /** The maps as a value, with the table counter of the pass that builds them. */
    ghost function Snapshot(tableIndex: nat): Maps
      reads this
    {
      Maps(fieldToAlias, aliasToField, joinedClassToAlias, joinedAliasToClass,
           visibleJoinedClassToAlias, visibleJoinedAliasToClass, tableIndex)
    }

    /** What the pass over all fields produced. */
    ghost function Built(): Maps
      reads this
    {
      Compile(conventions, presentation.presentationClass,
              DistinctEntities(presentation.displayFields), presentation.allFields)
    }

    /**
     * The maps are those of the pass over all fields, except that looking up
     * the fields of an unknown alias may have added that alias with no fields.
     */
    ghost predicate Valid()
      reads this
    {
      var m := Built();
      && fieldToAlias == m.fieldToAlias
      && joinedClassToAlias == m.joinedClassToAlias
      && joinedAliasToClass == m.joinedAliasToClass
      && visibleJoinedClassToAlias == m.visibleJoinedClassToAlias
      && visibleJoinedAliasToClass == m.visibleJoinedAliasToClass
      && m.aliasToField.Keys <= aliasToField.Keys
      && (forall a :: a in aliasToField ==> aliasToField[a] == FieldsFor(m.aliasToField, a))
    }

    /** Maps equal to the whole pass's are valid, with no alias looked up yet. */
    lemma ValidWhenBuilt(tableIndex: nat)
      requires Snapshot(tableIndex) == Built()
      ensures Valid() && aliasToField == Built().aliasToField
    {
    }

    /** The HQL alias of a field, none for a field without one. */
    function GetAlias(f: Field): (r: Option<string>)
      requires Valid()
      reads this
      ensures var c, fs := conventions, presentation.allFields;
              var pc := presentation.presentationClass;
              var J := JoinedEntities(c, pc, fs);
              && (r.Some? <==> f in fs && KindOf(c, pc, f) != Editable)
              && (f in fs && f.entity == pc ==> r == Some(c.classNameSQL))
              && (f in fs && KindOf(c, pc, f) == Removable ==> r == Some(EditedAlias(LastIndex(fs, f))))
              && (f in fs && KindOf(c, pc, f) == Joined ==>
                    f.entity in J && r == Some(TableAlias(IndexOf(J, f.entity) + 1)))
    {
      CompileFieldAlias(conventions, presentation.presentationClass,
                        DistinctEntities(presentation.displayFields), presentation.allFields, f);
      if f in fieldToAlias then Some(fieldToAlias[f]) else None
    }

    /** The fields that have an alias: all fields but the editable ones. */
    function GetAliasedFields(): (r: set<Field>)
      requires Valid()
      reads this
      ensures forall f :: f in r <==>
                f in presentation.allFields && KindOf(conventions, presentation.presentationClass, f) != Editable
    {
      CompileFields(conventions, presentation.presentationClass,
                    DistinctEntities(presentation.displayFields), presentation.allFields);
      fieldToAlias.Keys
    }

    /** The joined entities: the entities of the fields that are joined. */
    function GetJoinedClasses(): (r: set<Entity>)
      requires Valid()
      reads this
      ensures var c, pc, fs := conventions, presentation.presentationClass, presentation.allFields;
              forall e :: e in r <==> exists i :: 0 <= i < |fs| && KindOf(c, pc, fs[i]) == Joined && fs[i].entity == e
    {
      var c, pc, fs := conventions, presentation.presentationClass, presentation.allFields;
      CompileJoined(c, pc, DistinctEntities(presentation.displayFields), fs);
      JoinedEntitiesSpec(c, pc, fs);
      joinedClassToAlias.Keys
    }

    /** The visible joined entities: the joined entities that some display field shows. */
    function GetVisibleJoinedClasses(): (r: set<Entity>)
      requires Valid()
      reads this
      ensures var ds := presentation.displayFields;
              forall e :: e in r <==> e in GetJoinedClasses() && exists i :: 0 <= i < |ds| && ds[i].entity == e
    {
      var c, pc, fs := conventions, presentation.presentationClass, presentation.allFields;
      CompileJoined(c, pc, DistinctEntities(presentation.displayFields), fs);
      DistinctEntitiesSpec(presentation.displayFields);
      visibleJoinedClassToAlias.Keys
    }

    /** The joined aliases: tbl1 up to tbl and the number of joined entities. */
    function GetJoinedAliases(): (r: set<string>)
      requires Valid()
      reads this
      ensures r == TableAliases(|JoinedEntities(conventions, presentation.presentationClass, presentation.allFields)|)
    {
      var c, pc, fs := conventions, presentation.presentationClass, presentation.allFields;
      CompileJoined(c, pc, DistinctEntities(presentation.displayFields), fs);
      joinedAliasToClass.Keys
    }

    /** The visible joined aliases: the table aliases of the joined entities some display field shows. */
    function GetVisibleJoinedAliases(): (r: set<string>)
      requires Valid()
      reads this
      ensures var J := JoinedEntities(conventions, presentation.presentationClass, presentation.allFields);
              var D := DistinctEntities(presentation.displayFields);
              forall a :: a in r <==> exists k :: 0 <= k < |J| && J[k] in D && a == TableAlias(k + 1)
    {
      var c, pc, fs := conventions, presentation.presentationClass, presentation.allFields;
      var D := DistinctEntities(presentation.displayFields);
      CompileJoined(c, pc, D, fs);
      VisibleAliases(Built(), JoinedEntities(c, pc, fs), D);
      visibleJoinedAliasToClass.Keys
    }

    /** Every alias given to a field is among the aliases. */
    function GetAliases(): (r: set<string>)
      requires Valid()
      reads this
      ensures forall f :: GetAlias(f).Some? ==> GetAlias(f).value in r
    {
      CompileFields(conventions, presentation.presentationClass,
                    DistinctEntities(presentation.displayFields), presentation.allFields);
      aliasToField.Keys
    }

    /**
     * The fields listed under an alias: every field whose alias it is, and
     * only fields with an alias; an unknown alias is added with no fields.
     */
    method GetFields(alias: string) returns (r: seq<Field>)
      requires Valid()
      modifies this
      ensures Valid()
      ensures r == FieldsFor(old(aliasToField), alias)
      ensures aliasToField == old(aliasToField)[alias := r]
      ensures fieldToAlias == old(fieldToAlias) && joinedClassToAlias == old(joinedClassToAlias)
      ensures joinedAliasToClass == old(joinedAliasToClass)
      ensures visibleJoinedClassToAlias == old(visibleJoinedClassToAlias)
      ensures visibleJoinedAliasToClass == old(visibleJoinedAliasToClass)
      ensures forall f :: GetAlias(f) == Some(alias) ==> f in r
      ensures forall f :: f in r ==>
                GetAlias(f).Some? &&
                (KindOf(conventions, presentation.presentationClass, f) != Removable ==> GetAlias(f) == Some(alias))
    {
      CompileFields(conventions, presentation.presentationClass,
                    DistinctEntities(presentation.displayFields), presentation.allFields);
      if alias !in aliasToField {
        aliasToField := aliasToField[alias := []];
      }
      r := aliasToField[alias];
    }

    /** All maps empty. */
    constructor Init(c: Conventions, p: Presentation)
      ensures conventions == c && presentation == p
      ensures Snapshot(0) == NoMaps
    {
      conventions, presentation := c, p;
      fieldToAlias, aliasToField := map[], map[];
      joinedClassToAlias, joinedAliasToClass := map[], map[];
      visibleJoinedClassToAlias, visibleJoinedAliasToClass := map[], map[];
    }

    /**
     * Builds the maps for a presentation: the display entities first, then one
     * pass over all fields. Fails if a display field has no db sources, or
     * else if any field has none.
     */
    static method New(c: Conventions, p: Presentation) returns (r: Result<HqlAliasMapping, AliasError>)
      ensures r.Failure? <==>
                (exists i :: 0 <= i < |p.displayFields| && !p.displayFields[i].hasDbSources) ||
                (exists i :: 0 <= i < |p.allFields| && !p.allFields[i].hasDbSources)
      ensures r.Failure? ==>
                (r.error == NullDisplayDbSources <==>
                 exists i :: 0 <= i < |p.displayFields| && !p.displayFields[i].hasDbSources)
      ensures r.Success? ==>
                fresh(r.value) && r.value.conventions == c && r.value.presentation == p &&
                r.value.Valid() && r.value.aliasToField == r.value.Built().aliasToField
    {
      var collected := CollectDisplayEntities(p.displayFields);
      if collected.Failure? {
        return Failure(collected.error);
      }
      var display := collected.value;
      var h := new HqlAliasMapping.Init(c, p);
      var ok, tableIndex := h.Fill(c, p.presentationClass, display, p.allFields);
      if !ok {
        return Failure(NullDbSources);
      }
      h.ValidWhenBuilt(tableIndex);
      return Success(h);
    }

    /**
     * The pass over all fields, starting from empty maps: fails at the first
     * field with no db sources, otherwise leaves the maps the pass computes.
     */
    method Fill(c: Conventions, pc: Entity, display: seq<Entity>, fields: seq<Field>) returns (ok: bool, tableIndex: nat)
      requires Snapshot(0) == NoMaps
      modifies this
      ensures ok <==> forall j :: 0 <= j < |fields| ==> fields[j].hasDbSources
      ensures ok ==> Snapshot(tableIndex) == Compile(c, pc, display, fields)
    {
      tableIndex := 0;
      for idx := 0 to |fields|
        invariant forall j :: 0 <= j < idx ==> fields[j].hasDbSources
        invariant Snapshot(tableIndex) == Compile(c, pc, display, fields[..idx])
      {
        if !fields[idx].hasDbSources {
          return false, tableIndex;
        }
        tableIndex := AddNext(c, pc, display, fields, idx, tableIndex);
      }
      assert fields[..|fields|] == fields;
      ok := true;
    }

    /** The iteration on the field at idx extends the pass over the fields before it by that field. */
    method AddNext(c: Conventions, pc: Entity, display: seq<Entity>, fields: seq<Field>, idx: nat, tableIndex: nat)
      returns (tableIndex': nat)
      requires idx < |fields|
      requires Snapshot(tableIndex) == Compile(c, pc, display, fields[..idx])
      modifies this
      ensures Snapshot(tableIndex') == Compile(c, pc, display, fields[..idx + 1])
    {
      tableIndex' := AddField(c, pc, display, idx, fields[idx], tableIndex);
      CompileSnoc(c, pc, display, fields, idx);
    }

    /**
     * One iteration of the pass: the class alias, the positional alias of a
     * removable field, nothing for an editable field, or the alias of the
     * joined entity, which is joined first (and made visible) if it is new.
     */
    method AddField(c: Conventions, pc: Entity, display: seq<Entity>, idx: nat, field: Field, tableIndex: nat)
      returns (tableIndex': nat)
      modifies this
      ensures Snapshot(tableIndex') == Step(c, pc, display, old(Snapshot(tableIndex)), idx, field)
    {
      tableIndex' := tableIndex;
      var entity := field.entity;
      if entity == pc {
        AddAliasMapping(field, c.classNameSQL, tableIndex);
      } else if c.removablePrefix <= field.displayName {
        AddAliasMapping(field, "editedField" + Decimal(idx), tableIndex);
      } else if c.editablePrefix <= field.displayName {
      } else {
        if entity !in joinedClassToAlias {
          tableIndex' := tableIndex + 1;
          var aliasName := "tbl" + Decimal(tableIndex');
          AddJoinedAliasMapping(entity, aliasName, tableIndex');
          if entity in display && entity !in visibleJoinedClassToAlias {
            AddVisibleJoinedAliasMapping(entity, aliasName, tableIndex');
          }
        }
        AddAliasMapping(field, joinedClassToAlias[entity], tableIndex');
      }
    }

    /** Records the alias of a field and lists the field under the alias. */
    method AddAliasMapping(field: Field, alias: string, ghost tableIndex: nat)
      modifies this
      ensures Snapshot(tableIndex) == WithAlias(old(Snapshot(tableIndex)), field, alias)
    {
      fieldToAlias := fieldToAlias[field := alias];
      var fields := FieldsFor(aliasToField, alias);
      aliasToField := aliasToField[alias := fields + [field]];
    }

    /** Records a joined entity and its alias, both ways. */
    method AddJoinedAliasMapping(entity: Entity, alias: string, ghost tableIndex: nat)
      modifies this
      ensures Snapshot(tableIndex) == WithJoined(old(Snapshot(tableIndex)), entity, alias)
    {
      joinedClassToAlias := joinedClassToAlias[entity := alias];
      joinedAliasToClass := joinedAliasToClass[alias := entity];
    }

    /** Records a visible joined entity and its alias, both ways. */
    method AddVisibleJoinedAliasMapping(entity: Entity, alias: string, ghost tableIndex: nat)
      modifies this
      ensures Snapshot(tableIndex) == WithVisible(old(Snapshot(tableIndex)), entity, alias)
    {
      visibleJoinedClassToAlias := visibleJoinedClassToAlias[entity := alias];
      visibleJoinedAliasToClass := visibleJoinedAliasToClass[alias := entity];
    }
  }
}
