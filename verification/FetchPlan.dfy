/** Cloning the graph of definitions for a plan, dbsimple.c:70-105, and the
    statements that belong to a definition, dbsimple_sqlite3.c:286-305, 749-785. */
module FetchPlan {
  import opened ObjectGraph
  import opened Schema
  import opened Wrappers

  /** A definition as the program declares it: fields name other definitions by address. */
  datatype SourceField = SourceField(kind: FieldType, def: Option<nat>, fieldOffset: int, countOffset: int)
  datatype Source = Source(name: string, size: nat, flags: nat, fields: seq<SourceField>)

  /** A definition of a plan: fields name other definitions by their slot. */
  datatype CopyField = CopyField(kind: FieldType, def: Option<nat>, fieldOffset: int, countOffset: int)
  datatype Copy = Copy(name: string, size: nat, flags: nat, fields: seq<CopyField>)

  /** The memory the declarations live in, and the connection's list of them. */
  type Sources = map<nat, Source>

  ghost predicate Declared(sources: Sources, list: seq<nat>) {
    && (forall a :: a in list ==> a in sources)
    && (forall i, j :: 0 <= i < j < |list| ==> list[i] != list[j])
  }

  /** Where the search from the end stops. */
  function Slot(list: seq<nat>, a: nat, from: nat): (k: nat)
    requires from < |list|
    ensures k <= from && (k > 0 ==> list[k] == a)
    ensures forall j :: k < j <= from ==> list[j] != a
  {
    if from > 0 && list[from] != a then Slot(list, a, from - 1) else from
  }

  /** dbsimple.c:89-102 */
  method CloneField(list: seq<nat>, f: SourceField) returns (c: CopyField)
    requires |list| > 0
    ensures c.kind == f.kind && c.fieldOffset == f.fieldOffset && c.countOffset == f.countOffset
    ensures c.def == if f.def.None? then None else Some(Slot(list, f.def.value, |list| - 1))
  {
    var index: int := -1;
    if f.def.Some? {
      index := |list| - 1;
      while index > 0 && list[index] != f.def.value
        invariant 0 <= index < |list|
        invariant Slot(list, f.def.value, |list| - 1) == Slot(list, f.def.value, index)
      {
        index := index - 1;
      }
    }
    c := CopyField(f.kind, if index >= 0 then Some(index) else None, f.fieldOffset, f.countOffset);
  }

  function FieldCopy(list: seq<nat>, f: SourceField): CopyField {
    CopyField(f.kind, if f.def.None? || list == [] then None else Some(Slot(list, f.def.value, |list| - 1)),
              f.fieldOffset, f.countOffset)
  }

  ghost predicate IsClone(list: seq<nat>, d: Source, c: Copy) {
    && c.name == d.name && c.size == d.size && c.flags == d.flags && |c.fields| == |d.fields|
    && forall j :: 0 <= j < |d.fields| ==> c.fields[j] == FieldCopy(list, d.fields[j])
  }

  /** dbsimple.c:70-105 */
  method Clone(sources: Sources, list: seq<nat>) returns (definitions: array<Copy>)
    requires Declared(sources, list)
    ensures fresh(definitions) && definitions.Length == |list|
    ensures forall i :: 0 <= i < |list| ==> IsClone(list, sources[list[i]], definitions[i])
  {
    definitions := new Copy[|list|](_ => Copy("", 0, 0, []));
    var i := 0;
    while i < |list|
      invariant i <= |list|
      invariant forall k :: 0 <= k < i ==> IsClone(list, sources[list[k]], definitions[k])
    {
      var d := sources[list[i]];
      var fields: seq<CopyField> := [];
      var j := 0;
      while j < |d.fields|
        modifies {}
        invariant j == |fields| <= |d.fields|
        invariant forall l :: 0 <= l < j ==> fields[l] == FieldCopy(list, d.fields[l])
      {
        var c := CloneField(list, d.fields[j]);
        fields := fields + [c];
        j := j + 1;
      }
      definitions[i] := Copy(d.name, d.size, d.flags, fields);
      i := i + 1;
    }
  }

  /** Every field of the clone points to the clone of what the original points
      to, self-references and cycles included. */
  ghost predicate Isomorphic(sources: Sources, list: seq<nat>, copies: seq<Copy>)
    requires Declared(sources, list) && |copies| == |list|
  {
    && (forall i :: 0 <= i < |list| ==> |copies[i].fields| == |sources[list[i]].fields|)
    && (forall i, j :: 0 <= i < |list| && 0 <= j < |copies[i].fields| ==>
          PointsAlike(list, sources[list[i]].fields[j].def, copies[i].fields[j].def))
  }

  ghost predicate PointsAlike(list: seq<nat>, original: Option<nat>, copy: Option<nat>) {
    && (original.None? <==> copy.None?)
    && (copy.Some? ==> copy.value < |list|)
    && forall k :: 0 <= k < |list| ==> (copy == Some(k) <==> original == Some(list[k]))
  }

  /** All definitions that fields name are in the list. */
  ghost predicate Complete(sources: Sources, list: seq<nat>)
    requires Declared(sources, list)
  {
    forall a, f :: a in list && f in sources[a].fields && f.def.Some? ==> f.def.value in list
  }

  lemma AlikeIsListed(list: seq<nat>, a: nat, k: nat)
    requires PointsAlike(list, Some(a), Some(k))
    ensures a in list
  {
    assert Some(k) == Some(k) <==> Some(a) == Some(list[k]);
  }

  /** The search stops at the definition if it is listed, and at slot 0 if not. */
  lemma SlotOf(list: seq<nat>, a: nat)
    requires |list| > 0 && forall i, j :: 0 <= i < j < |list| ==> list[i] != list[j]
    ensures PointsAlike(list, Some(a), Some(Slot(list, a, |list| - 1))) <==> a in list
    ensures a !in list ==> Slot(list, a, |list| - 1) == 0
  {
    var k := Slot(list, a, |list| - 1);
    if a in list {
      var i :| 0 <= i < |list| && list[i] == a;
      assert i <= k;
      assert list[k] == a;
    } else if PointsAlike(list, Some(a), Some(k)) {
      AlikeIsListed(list, a, k);
    }
  }

  /** The clone is the same graph exactly if all definitions that fields name are listed;
      a name that is not listed is taken for the first definition. */
  lemma ClonedAlike(sources: Sources, list: seq<nat>, copies: seq<Copy>)
    requires Declared(sources, list) && |copies| == |list|
    requires forall i :: 0 <= i < |list| ==> IsClone(list, sources[list[i]], copies[i])
    ensures Isomorphic(sources, list, copies) <==> Complete(sources, list)
  {
    hide PointsAlike, Slot;
    forall i, j | 0 <= i < |list| && 0 <= j < |copies[i].fields| && sources[list[i]].fields[j].def.Some?
      ensures PointsAlike(list, sources[list[i]].fields[j].def, copies[i].fields[j].def) <==>
              sources[list[i]].fields[j].def.value in list
    {
      assert copies[i].fields[j] == FieldCopy(list, sources[list[i]].fields[j]);
      SlotOf(list, sources[list[i]].fields[j].def.value);
    }
    forall i, j | 0 <= i < |list| && 0 <= j < |copies[i].fields| && sources[list[i]].fields[j].def.None?
      ensures PointsAlike(list, sources[list[i]].fields[j].def, copies[i].fields[j].def)
    {
      assert copies[i].fields[j] == FieldCopy(list, sources[list[i]].fields[j]);
      NonePointsAlike(list);
    }
    if Isomorphic(sources, list, copies) {
      forall a, f | a in list && f in sources[a].fields && f.def.Some? ensures f.def.value in list {
        var i :| 0 <= i < |list| && list[i] == a;
        var j :| 0 <= j < |sources[a].fields| && sources[a].fields[j] == f;
        assert PointsAlike(list, sources[list[i]].fields[j].def, copies[i].fields[j].def);
      }
    }
  }

  lemma NonePointsAlike(list: seq<nat>)
    ensures PointsAlike(list, None, None)
  {
  }

  // ----- the statements of a plan

  /** The prepared statements of a plan, each standing for its query: the first set of
      three stays empty, and so do the sets that no query is left for. */
  function Prepared(definitions: nat, queries: seq<string>): (statements: seq<Option<string>>)
    ensures |statements| == (definitions + 1) * 3
  {
    seq((definitions + 1) * 3, q => if 3 <= q && 0 <= q - 3 < |queries| then Some(queries[q - 3]) else None)
  }

  /** dbsimple_sqlite3.c:755-783 */
  method Prepare(definitions: nat, queries: seq<string>) returns (statements: array<Option<string>>)
    ensures fresh(statements) && statements[..] == Prepared(definitions, queries)
  {
    var queryCount := |queries|;
    statements := new Option<string>[(definitions + 1) * 3](_ => None);
    statements[0], statements[1], statements[2] := None, None, None;
    var at := 3;
    if queryCount > definitions * 3 {
      queryCount := definitions * 3;
    }
    for i := 0 to queryCount
      invariant at == i + 3 && statements[..at] == Prepared(definitions, queries)[..at]
    {
      statements[at] := Some(queries[i]);
      at := at + 1;
    }
    while at < statements.Length
      invariant queryCount + 3 <= at <= statements.Length
      invariant statements[..at] == Prepared(definitions, queries)[..at]
    {
      statements[at] := None;
      at := at + 1;
    }
    assert statements[..] == statements[..at];
  }

  datatype Purpose = FETCH | INSERT | DELETE

  function Position(p: Purpose): (n: nat)
    ensures n < 3
  {
    match p case FETCH => 0 case INSERT => 1 case DELETE => 2
  }

  /** getStmtFetch, getStmtInsert and getStmtDelete, dbsimple_sqlite3.c:286-305: the
      statement that is taken for the definition in a slot. */
  function StatementFor(statements: seq<Option<string>>, slot: nat, p: Purpose): Option<string>
    requires slot * 3 + 2 < |statements|
  {
    statements[slot * 3 + Position(p)]
  }

  /** How many of the first `i` definitions have tables. */
  function Tables(singleton: seq<bool>, i: nat): (n: nat)
    requires i <= |singleton|
  {
    if i == 0 then 0 else Tables(singleton, i - 1) + if singleton[i - 1] then 0 else 1
  }

  /** The statement for the definition in `slot` is the one that was prepared from its
      own query, `queries` holding three for each definition that has a table. */
  predicate GetsOwn(singleton: seq<bool>, queries: seq<string>, slot: nat, p: Purpose)
    requires slot < |singleton| && !singleton[slot] && |queries| == 3 * Tables(singleton, |singleton|)
  {
    StatementFor(Prepared(|singleton|, queries), slot, p) == Some(OwnQuery(singleton, queries, slot, p))
  }

  function OwnQuery(singleton: seq<bool>, queries: seq<string>, slot: nat, p: Purpose): string
    requires slot < |singleton| && !singleton[slot] && |queries| == 3 * Tables(singleton, |singleton|)
  {
    TablesGrow(singleton, slot + 1, |singleton|);
    queries[3 * Tables(singleton, slot) + Position(p)]
  }

  lemma {:induction false} TablesGrow(singleton: seq<bool>, i: nat, j: nat)
    requires i <= j <= |singleton|
    ensures Tables(singleton, i) <= Tables(singleton, j)
  {
    if i < j {
      TablesGrow(singleton, i, j - 1);
    }
  }

  lemma {:induction false} CountTables(singleton: seq<bool>, i: nat)
    requires i <= |singleton|
    ensures Tables(singleton, i) == |set j | 0 <= j < i && !singleton[j]|
  {
    if i > 0 {
      CountTables(singleton, i - 1);
      NextTable(singleton, i);
    }
  }

  lemma NextTable(singleton: seq<bool>, i: nat)
    requires 0 < i <= |singleton|
    ensures |set j | 0 <= j < i && !singleton[j]| ==
            |set j | 0 <= j < i - 1 && !singleton[j]| + if singleton[i - 1] then 0 else 1
  {
    var a := set j | 0 <= j < i - 1 && !singleton[j];
    var b := set j | 0 <= j < i && !singleton[j];
    if singleton[i - 1] {
      assert b == a;
    } else {
      assert b == a + {i - 1};
    }
  }

  /** In numbers: the slot numbered `slot` takes the queries from 3 * slot - 3 on, as a
      statement to fetch, to insert and to delete with; its own are those after the
      three of each definition with a table before it. */
  lemma QueryNumbers(singleton: seq<bool>, queries: seq<string>, slot: nat)
    requires slot < |singleton| && !singleton[slot] && |queries| == 3 * Tables(singleton, |singleton|)
    ensures var statements, q := Prepared(|singleton|, queries), 3 * slot - 3;
            && StatementFor(statements, slot, FETCH) == (if 0 <= q < |queries| then Some(queries[q]) else None)
            && StatementFor(statements, slot, INSERT) == (if 0 <= q < |queries| - 1 then Some(queries[q + 1]) else None)
            && StatementFor(statements, slot, DELETE) == (if 0 <= q < |queries| - 2 then Some(queries[q + 2]) else None)
    ensures var q := 3 * |set j | 0 <= j < slot && !singleton[j]|;
            && q + 2 < |queries|
            && OwnQuery(singleton, queries, slot, FETCH) == queries[q]
            && OwnQuery(singleton, queries, slot, INSERT) == queries[q + 1]
            && OwnQuery(singleton, queries, slot, DELETE) == queries[q + 2]
  {
    TablesGrow(singleton, slot + 1, |singleton|);
    CountTables(singleton, slot);
  }

  /** Distinct strings, to tell queries apart. */
  function Marks(n: nat): (queries: seq<string>)
    ensures |queries| == n && forall i, j :: 0 <= i < j < n ==> queries[i] != queries[j]
  {
    var queries := seq(n, i requires 0 <= i => seq(i, _ => 'q'));
    assert forall i :: 0 <= i < n ==> |queries[i]| == i;
    queries
  }

  /** Whatever the queries are, a definition gets its own statements exactly if one
      singleton is before it. */
  lemma SlotGetsOwn(singleton: seq<bool>, slot: nat)
    requires slot < |singleton| && !singleton[slot]
    ensures (forall queries: seq<string>, p :: |queries| == 3 * Tables(singleton, |singleton|) ==>
               GetsOwn(singleton, queries, slot, p)) <==> FindsOwn(singleton, slot)
  {
    TablesGrow(singleton, slot + 1, |singleton|);
    var marks := Marks(3 * Tables(singleton, |singleton|));
    if forall queries: seq<string>, p :: |queries| == 3 * Tables(singleton, |singleton|) ==>
        GetsOwn(singleton, queries, slot, p) {
      assert GetsOwn(singleton, marks, slot, FETCH);
    }
  }

  /** Preparing three queries for each definition that has a table, in order, gives every
      such definition its own statements, for any queries, exactly if, as far as there
      are such definitions, the first one is a singleton and no other comes before them. */
  lemma OwnStatements(singleton: seq<bool>)
    ensures (forall queries: seq<string>, slot, p ::
               |queries| == 3 * Tables(singleton, |singleton|) && 0 <= slot < |singleton| && !singleton[slot] ==>
                 GetsOwn(singleton, queries, slot, p)) <==>
            (forall slot :: 0 <= slot < |singleton| && !singleton[slot] ==> OnlyFirstBefore(singleton, slot))
  {
    hide GetsOwn, OnlyFirstBefore, FindsOwn;
    forall slot | 0 <= slot < |singleton| && !singleton[slot]
      ensures (forall queries: seq<string>, p :: |queries| == 3 * Tables(singleton, |singleton|) ==>
                 GetsOwn(singleton, queries, slot, p)) <==> FindsOwn(singleton, slot)
    {
      SlotGetsOwn(singleton, slot);
    }
    OwnSlots(singleton);
  }

  lemma OwnSlots(singleton: seq<bool>)
    ensures (forall slot :: 0 <= slot < |singleton| && !singleton[slot] ==> FindsOwn(singleton, slot)) <==>
            (forall slot :: 0 <= slot < |singleton| && !singleton[slot] ==> OnlyFirstBefore(singleton, slot))
  {
    forall slot | 0 <= slot < |singleton| && !singleton[slot]
      ensures OnlyFirstBefore(singleton, slot) ==> FindsOwn(singleton, slot)
    {
      if OnlyFirstBefore(singleton, slot) {
        TablesAfterOne(singleton, slot);
      }
    }
    if forall slot :: 0 <= slot < |singleton| && !singleton[slot] ==> FindsOwn(singleton, slot) {
      forall slot | 0 <= slot < |singleton| && !singleton[slot] ensures OnlyFirstBefore(singleton, slot) {
        OneSingletonIsFirst(singleton, slot);
      }
    }
  }

  /** Where the statements of a definition are looked for, and where its queries went. */
  predicate FindsOwn(singleton: seq<bool>, slot: nat)
    requires slot <= |singleton|
  {
    slot * 3 == 3 + Tables(singleton, slot) * 3
  }

  predicate OnlyFirstBefore(singleton: seq<bool>, slot: nat)
    requires slot < |singleton|
  {
    slot > 0 && singleton[0] && forall k :: 0 < k < slot ==> !singleton[k]
  }

  lemma {:induction false} TablesAfterOne(singleton: seq<bool>, i: nat)
    requires 0 < i <= |singleton| && singleton[0] && forall k :: 0 < k < i ==> !singleton[k]
    ensures Tables(singleton, i) == i - 1
  {
    if i > 1 {
      TablesAfterOne(singleton, i - 1);
    }
  }

  /** If nothing before `i` has its statements in the wrong place, the only singleton is the first. */
  lemma {:induction false} OneSingletonIsFirst(singleton: seq<bool>, i: nat)
    requires i < |singleton| && FindsOwn(singleton, i)
    requires forall slot :: 0 <= slot < i && !singleton[slot] ==> FindsOwn(singleton, slot)
    ensures OnlyFirstBefore(singleton, i)
  {
    assert !FindsOwn(singleton, 0);
    AtMost(singleton, i);
    forall k | 0 < k < i ensures !singleton[k] {
      if singleton[k] {
        TwoSingletons(singleton, k, i);
      }
    }
  }

  lemma {:induction false} AtMost(singleton: seq<bool>, i: nat)
    requires i <= |singleton|
    ensures Tables(singleton, i) <= i
  {
    if i > 0 {
      AtMost(singleton, i - 1);
    }
  }

  lemma {:induction false} TwoSingletons(singleton: seq<bool>, k: nat, i: nat)
    requires 0 < k < i <= |singleton| && singleton[0] && singleton[k]
    ensures i - Tables(singleton, i) >= 2
  {
    if i - 1 == k {
      OneSingleton(singleton, k);
    } else {
      TwoSingletons(singleton, k, i - 1);
    }
  }

  lemma {:induction false} OneSingleton(singleton: seq<bool>, i: nat)
    requires 0 < i <= |singleton| && singleton[0]
    ensures i - Tables(singleton, i) >= 1
  {
    if i > 1 {
      OneSingleton(singleton, i - 1);
    }
  }
}
