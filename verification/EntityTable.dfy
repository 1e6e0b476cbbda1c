/**
 The entity tables: how a batch of entities becomes statements, and what becomes of an
 entity's custom fields over a run of syncs.
 */
module EntityTable {
  import opened Seqs
  import opened Tables
  import opened Wrappers

  datatype EntityInput = EntityInput(id: string, entity: Entity)

  function RowsFor(table: string, es: seq<EntityInput>): (rows: seq<Row<EntityKey, Entity>>) {
    Map((e: EntityInput) => Row(EntityKey(table, e.id), e.entity), es)
  }

  /** processEntities: one upsert per tag that has a table; the statements run in any order. */
  function EntityStatements(tableOf: map<string, string>, es: seq<EntityInput>): (ss: seq<Statement>) {
    StatementsFor(tableOf, GroupBy(es, (e: EntityInput) => e.entity.tag))
  }

  function StatementsFor(tableOf: map<string, string>, gs: seq<Group<EntityInput>>): (ss: seq<Statement>) {
    if gs == [] then []
    else
      (if gs[0].key in tableOf then [UpsertEntities(RowsFor(tableOf[gs[0].key], gs[0].items))] else [])
      + StatementsFor(tableOf, gs[1..])
  }

  /** The statements that still run when one of them is refused, which interrupts the others. */
  function Reached(ss: seq<Statement>, reached: nat -> bool): (out: seq<Statement>) {
    if ss == [] then []
    else
      var n := |ss| - 1;
      Reached(ss[..n], reached) + if reached(n) then [ss[n]] else []
  }

  /** The two entities are written to one row by one statement. */
  predicate SameRow(tableOf: map<string, string>, a: EntityInput, b: EntityInput) {
    a.entity.tag in tableOf && a.entity.tag == b.entity.tag && a.id == b.id
  }

  /** The statement for the group, if there is one, is accepted. */
  predicate GroupOk(tableOf: map<string, string>, g: Group<EntityInput>) {
    g.key in tableOf ==> DistinctKeys(RowsFor(tableOf[g.key], g.items))
  }

  lemma {:induction false} StatementsAccepted(tableOf: map<string, string>, gs: seq<Group<EntityInput>>)
    ensures AllAccepted(StatementsFor(tableOf, gs)) <==> forall g :: g in gs ==> GroupOk(tableOf, g)
  {
    if gs != [] {
      var first := if gs[0].key in tableOf then [UpsertEntities(RowsFor(tableOf[gs[0].key], gs[0].items))] else [];
      StatementsAccepted(tableOf, gs[1..]);
      AcceptedAppend(first, StatementsFor(tableOf, gs[1..]));
      assert AllAccepted(first) <==> GroupOk(tableOf, gs[0]) by {
        assert first != [] ==> Accepted(first[0]) == DistinctKeys(RowsFor(tableOf[gs[0].key], gs[0].items));
      }
      assert gs == [gs[0]] + gs[1..];
    }
  }

  lemma AcceptedAppend(ss: seq<Statement>, ts: seq<Statement>)
    ensures AllAccepted(ss + ts) <==> AllAccepted(ss) && AllAccepted(ts)
  {
    assert forall i :: 0 <= i < |ss| ==> (ss + ts)[i] == ss[i];
    assert forall i :: 0 <= i < |ts| ==> (ss + ts)[|ss| + i] == ts[i];
  }

  /** No two entities of the tag have one id. */
  predicate TagApart(es: seq<EntityInput>, tag: string) {
    forall i, j :: 0 <= i < j < |es| && es[i].entity.tag == tag && es[j].entity.tag == tag ==> es[i].id != es[j].id
  }

  lemma KeptApartByTag(
    es: seq<EntityInput>, tag: string, p: EntityInput -> bool, alike: (EntityInput, EntityInput) -> bool)
    requires forall e :: p(e) <==> e.entity.tag == tag
    requires forall a, b :: alike(a, b) <==> a.id == b.id
    ensures KeptApart(p, alike, es) <==> TagApart(es, tag)
  {
  }

  lemma RowsApart(table: string, es: seq<EntityInput>, tag: string)
    requires forall i :: 0 <= i < |es| ==> es[i].entity.tag == tag
    ensures DistinctKeys(RowsFor(table, es)) <==> TagApart(es, tag)
  {
    assert forall i :: 0 <= i < |es| ==> RowsFor(table, es)[i].key == EntityKey(table, es[i].id);
  }

  lemma GroupAccepted(table: string, es: seq<EntityInput>, key: EntityInput -> string, tag: string)
    requires forall e :: key(e) == e.entity.tag
    ensures DistinctKeys(RowsFor(table, ItemsOf(es, key, tag))) <==> TagApart(es, tag)
  {
    var p := (e: EntityInput) => e.entity.tag == tag;
    var alike := (a: EntityInput, b: EntityInput) => a.id == b.id;
    var items := Filter(p, es);
    ItemsOfIsFilter(es, key, tag, p);
    FilterKeepsApart(p, alike, es);
    KeptApartByTag(es, tag, p, alike);
    KeptApartByTag(items, tag, p, alike);
    forall i | 0 <= i < |items|
      ensures items[i].entity.tag == tag
    {
      assert items[i] in items;
    }
    RowsApart(table, items, tag);
  }

  lemma GroupsAccepted(tableOf: map<string, string>, es: seq<EntityInput>)
    ensures AllAccepted(EntityStatements(tableOf, es)) <==>
      forall tag :: tag in tableOf && HasTag(es, tag) ==> TagApart(es, tag)
  {
    var key := (e: EntityInput) => e.entity.tag;
    var gs := GroupBy(es, key);
    StatementsAccepted(tableOf, gs);
    GroupByIsPartition(es, key);
    forall g | g in gs
      ensures HasTag(es, g.key)
      ensures GroupOk(tableOf, g) <==> g.key !in tableOf || TagApart(es, g.key)
    {
      assert g.items[0] in g.items;
      if g.key in tableOf {
        GroupAccepted(tableOf[g.key], es, key, g.key);
      }
    }
    forall tag | HasTag(es, tag)
      ensures exists g :: g in gs && g.key == tag
    {
      var e :| e in es && e.entity.tag == tag;
      assert Group(key(e), ItemsOf(es, key, key(e))) in gs;
    }
  }

  predicate HasTag(es: seq<EntityInput>, tag: string) {
    exists e :: e in es && e.entity.tag == tag
  }

  /**
   Every entity statement is accepted if and only if no two of the entities have one tag, with a
   table, and one id.
   */
  lemma EntitiesAcceptedIff(tableOf: map<string, string>, es: seq<EntityInput>)
    ensures AllAccepted(EntityStatements(tableOf, es)) <==>
      forall i, j :: 0 <= i < j < |es| ==> !SameRow(tableOf, es[i], es[j])
  {
    GroupsAccepted(tableOf, es);
    if forall tag :: tag in tableOf && HasTag(es, tag) ==> TagApart(es, tag) {
      forall i, j | 0 <= i < j < |es|
        ensures !SameRow(tableOf, es[i], es[j])
      {
        assert es[i] in es;
        assert es[i].entity.tag in tableOf ==> TagApart(es, es[i].entity.tag);
      }
    } else {
      var tag :| tag in tableOf && HasTag(es, tag) && !TagApart(es, tag);
      var i, j :| 0 <= i < j < |es| && es[i].entity.tag == tag && es[j].entity.tag == tag && es[i].id == es[j].id;
      assert SameRow(tableOf, es[i], es[j]);
    }
  }

  // ----- the rows that are written

  predicate GoesTo(tableOf: map<string, string>, e: EntityInput, k: EntityKey) {
    e.entity.tag in tableOf && k == EntityKey(tableOf[e.entity.tag], e.id)
  }

  /** The entity goes to a row, and none of another tag goes to the same one. */
  predicate OwnRow(tableOf: map<string, string>, es: seq<EntityInput>, e: EntityInput) {
    && e.entity.tag in tableOf
    && forall x :: x in es && GoesTo(tableOf, x, EntityKey(tableOf[e.entity.tag], e.id)) ==>
         x.entity.tag == e.entity.tag
  }

  /**
   The row an entity leaves, column by column: the entity itself if it is new; else the stored row keeps
   its org and tag, takes every other column, and of the custom fields keeps those of other sources
   and takes those that come from PCO.
   */
  ghost predicate WrittenAs(before: map<EntityKey, Entity>, after: map<EntityKey, Entity>, k: EntityKey, e: Entity) {
    && k in after
    && (k !in before ==> after[k] == e)
    && (k in before ==>
         && after[k].org == before[k].org && after[k].tag == before[k].tag
         && after[k].columns == e.columns && after[k].deletedAt == e.deletedAt && after[k].deletedBy == e.deletedBy
         && var stored := if before[k].customFields.Fields? then before[k].customFields.fields else [];
            var given := if e.customFields.Fields? then e.customFields.fields else [];
            after[k].customFields == Fields(
              Filter((f: CustomField) => f.source != Some("pco"), stored)
              + Filter((f: CustomField) => f.source == Some("pco"), given)))
  }

  /** Some of the entities goes to the row. */
  ghost predicate Written(tableOf: map<string, string>, es: seq<EntityInput>, k: EntityKey) {
    exists e :: e in es && GoesTo(tableOf, e, k)
  }

  lemma FieldsAreFiltered(fs: seq<CustomField>)
    ensures FromPco(fs) == Filter((f: CustomField) => f.source == Some("pco"), fs)
    ensures NotFromPco(fs) == Filter((f: CustomField) => f.source != Some("pco"), fs)
  {
    FilterAlike((f: CustomField) => f.source == PCO, (f: CustomField) => f.source == Some("pco"), fs);
    FilterAlike((f: CustomField) => f.source != PCO, (f: CustomField) => f.source != Some("pco"), fs);
  }

  /** One statement, for the entities of one table. */
  lemma StatementWrites(before: map<EntityKey, Entity>, table: string, items: seq<EntityInput>)
    requires DistinctKeys(RowsFor(table, items))
    ensures var after := Upsert(before, RowsFor(table, items), ReplaceEntity);
      && (forall e :: e in items ==> WrittenAs(before, after, EntityKey(table, e.id), e.entity))
      && (forall k :: (forall e :: e in items ==> k != EntityKey(table, e.id)) ==>
           (k in after <==> k in before) && (k in before ==> after[k] == before[k]))
  {
    var rows := RowsFor(table, items);
    var after := Upsert(before, rows, ReplaceEntity);
    forall e | e in items
      ensures WrittenAs(before, after, EntityKey(table, e.id), e.entity)
    {
      var i :| 0 <= i < |items| && items[i] == e;
      assert rows[i] == Row(EntityKey(table, e.id), e.entity);
      UpsertedRow(before, rows, ReplaceEntity, i);
      if rows[i].key in before {
        FieldsAreFiltered(FieldsOf(before[rows[i].key].customFields));
        FieldsAreFiltered(FieldsOf(e.entity.customFields));
      }
    }
    assert forall i :: 0 <= i < |rows| ==> items[i] in items && rows[i].key == EntityKey(table, items[i].id);
    forall k | forall e :: e in items ==> k != EntityKey(table, e.id)
      ensures (k in after <==> k in before) && (k in before ==> after[k] == before[k])
    {
      OtherRow(before, rows, ReplaceEntity, k);
    }
  }

  /** The statement for a group, as a step on the entity table. */
  function GroupWrites(
    tableOf: map<string, string>, t: map<EntityKey, Entity>, g: Group<EntityInput>): (t': map<EntityKey, Entity>)
  {
    if g.key in tableOf then Upsert(t, RowsFor(tableOf[g.key], g.items), ReplaceEntity) else t
  }

  lemma FirstGroupRuns(db: Database, tableOf: map<string, string>, gs: seq<Group<EntityInput>>)
    requires gs != []
    ensures Run(db, StatementsFor(tableOf, gs))
      == Run(db.(entities := GroupWrites(tableOf, db.entities, gs[0])), StatementsFor(tableOf, gs[1..]))
  {
    var first := if gs[0].key in tableOf then [UpsertEntities(RowsFor(tableOf[gs[0].key], gs[0].items))] else [];
    RunAppend(db, first, StatementsFor(tableOf, gs[1..]));
    if first != [] {
      RunThree(db, first[0], first[0], first[0]);
    }
  }

  /** No entity of the groups goes to the row. */
  ghost predicate Untouched(tableOf: map<string, string>, gs: seq<Group<EntityInput>>, k: EntityKey) {
    forall g, e :: g in gs && e in g.items && g.key in tableOf ==> k != EntityKey(tableOf[g.key], e.id)
  }

  lemma {:induction false} OtherRowsStay(
    db: Database, tableOf: map<string, string>, gs: seq<Group<EntityInput>>, k: EntityKey)
    requires Untouched(tableOf, gs, k) && forall g :: g in gs ==> GroupOk(tableOf, g)
    ensures var after := Run(db, StatementsFor(tableOf, gs)).entities;
      (k in after <==> k in db.entities) && (k in db.entities ==> after[k] == db.entities[k])
    decreases gs
  {
    if gs != [] {
      FirstGroupRuns(db, tableOf, gs);
      assert gs[0] in gs;
      OtherGroupKeeps(tableOf, db.entities, gs[0], k);
      OtherRowsStay(db.(entities := GroupWrites(tableOf, db.entities, gs[0])), tableOf, gs[1..], k);
    }
  }

  lemma OtherGroupKeeps(tableOf: map<string, string>, t: map<EntityKey, Entity>, g: Group<EntityInput>, k: EntityKey)
    requires GroupOk(tableOf, g)
      && (g.key in tableOf ==> forall e :: e in g.items ==> k != EntityKey(tableOf[g.key], e.id))
    ensures var after := GroupWrites(tableOf, t, g);
      (k in after <==> k in t) && (k in t ==> after[k] == t[k])
  {
    if g.key in tableOf {
      StatementWrites(t, tableOf[g.key], g.items);
    }
  }

  /** A row that only one of the groups goes to. */
  lemma {:induction false} GroupsWrite(
    db: Database, tableOf: map<string, string>, gs: seq<Group<EntityInput>>, i: nat, e: EntityInput)
    requires i < |gs| && e in gs[i].items && gs[i].key in tableOf && forall g :: g in gs ==> GroupOk(tableOf, g)
    requires var k := EntityKey(tableOf[gs[i].key], e.id);
      Untouched(tableOf, gs[..i], k) && Untouched(tableOf, gs[i + 1..], k)
    ensures WrittenAs(db.entities, Run(db, StatementsFor(tableOf, gs)).entities, EntityKey(tableOf[gs[i].key], e.id),
      e.entity)
    decreases gs
  {
    var k, next := EntityKey(tableOf[gs[i].key], e.id), db.(entities := GroupWrites(tableOf, db.entities, gs[0]));
    FirstGroupRuns(db, tableOf, gs);
    if i == 0 {
      assert GroupOk(tableOf, gs[0]) && gs[i + 1..] == gs[1..];
      StatementWrites(db.entities, tableOf[gs[0].key], gs[0].items);
      OtherRowsStay(next, tableOf, gs[1..], k);
    } else {
      assert gs[0] in gs[..i] && gs[1..][i - 1] == gs[i];
      OtherGroupKeeps(tableOf, db.entities, gs[0], k);
      assert gs[1..][..i - 1] == gs[..i][1..] && gs[1..][i..] == gs[i + 1..];
      GroupsWrite(next, tableOf, gs[1..], i - 1, e);
    }
  }

  /**
   What an accepted batch of entities leaves in their tables: for each entity whose type has a table,
   unless an entity of another type goes to the same row, the row as `WrittenAs` says; and every row
   that none of them goes to as it was.
   */
  lemma EntitiesAreWritten(db: Database, tableOf: map<string, string>, es: seq<EntityInput>)
    requires AllAccepted(EntityStatements(tableOf, es))
    ensures var after := Run(db, EntityStatements(tableOf, es)).entities;
      && (forall e :: e in es && OwnRow(tableOf, es, e) ==>
           WrittenAs(db.entities, after, EntityKey(tableOf[e.entity.tag], e.id), e.entity))
      && (forall k :: !Written(tableOf, es, k) ==>
           (k in after <==> k in db.entities) && (k in db.entities ==> after[k] == db.entities[k]))
  {
    var key := (e: EntityInput) => e.entity.tag;
    var gs := GroupBy(es, key);
    GroupByIsPartition(es, key);
    StatementsAccepted(tableOf, gs);
    GroupsHoldTheirs(es, key);
    forall e | e in es && OwnRow(tableOf, es, e)
      ensures WrittenAs(db.entities, Run(db, EntityStatements(tableOf, es)).entities,
        EntityKey(tableOf[e.entity.tag], e.id), e.entity)
    {
      EntityIsWritten(db, tableOf, es, e);
    }
    forall k | !Written(tableOf, es, k)
      ensures Untouched(tableOf, gs, k)
    {
    }
    forall k | !Written(tableOf, es, k)
      ensures var after := Run(db, EntityStatements(tableOf, es)).entities;
        (k in after <==> k in db.entities) && (k in db.entities ==> after[k] == db.entities[k])
    {
      OtherRowsStay(db, tableOf, gs, k);
    }
  }

  lemma GroupsHoldTheirs(es: seq<EntityInput>, key: EntityInput -> string)
    ensures forall g, e :: g in GroupBy(es, key) && e in g.items ==> e in es && key(e) == g.key
  {
    GroupByIsPartition(es, key);
  }

  lemma EntityIsWritten(db: Database, tableOf: map<string, string>, es: seq<EntityInput>, e: EntityInput)
    requires AllAccepted(EntityStatements(tableOf, es)) && e in es && OwnRow(tableOf, es, e)
    ensures WrittenAs(db.entities, Run(db, EntityStatements(tableOf, es)).entities,
      EntityKey(tableOf[e.entity.tag], e.id), e.entity)
  {
    var key := (e: EntityInput) => e.entity.tag;
    var gs := GroupBy(es, key);
    GroupByIsPartition(es, key);
    StatementsAccepted(tableOf, gs);
    GroupsHoldTheirs(es, key);
    var g := Group(key(e), ItemsOf(es, key, key(e)));
    assert g in gs && e in g.items;
    var i :| 0 <= i < |gs| && gs[i] == g;
    var k := EntityKey(tableOf[g.key], e.id);
    GroupKeysDiffer(es, key);
    OthersAreUntouched(tableOf, es, gs, i, e);
    GroupsWrite(db, tableOf, gs, i, e);
  }

  lemma OthersAreUntouched(
    tableOf: map<string, string>, es: seq<EntityInput>, gs: seq<Group<EntityInput>>, i: nat, e: EntityInput)
    requires i < |gs| && OwnRow(tableOf, es, e) && gs[i].key == e.entity.tag
    requires forall j :: 0 <= j < |gs| && j != i ==> gs[j].key != gs[i].key
    requires forall g, x :: g in gs && x in g.items ==> x in es && x.entity.tag == g.key
    ensures var k := EntityKey(tableOf[e.entity.tag], e.id);
      Untouched(tableOf, gs[..i], k) && Untouched(tableOf, gs[i + 1..], k)
  {
    var k := EntityKey(tableOf[e.entity.tag], e.id);
    forall g, x | g in gs[..i] && x in g.items && g.key in tableOf
      ensures k != EntityKey(tableOf[g.key], x.id)
    {
      var j :| 0 <= j < i && gs[..i][j] == g;
      assert gs[j] in gs && gs[j].key != gs[i].key;
    }
    forall g, x | g in gs[i + 1..] && x in g.items && g.key in tableOf
      ensures k != EntityKey(tableOf[g.key], x.id)
    {
      var j :| 0 <= j < |gs| - i - 1 && gs[i + 1..][j] == g;
      assert gs[i + 1 + j] in gs && gs[i + 1 + j].key != gs[i].key;
    }
  }

  // ----- merging custom fields

  lemma {:induction false} SplitBySource(fs: seq<CustomField>)
    ensures FromPco(FromPco(fs)) == FromPco(fs)
    ensures NotFromPco(NotFromPco(fs)) == NotFromPco(fs)
    ensures FromPco(NotFromPco(fs)) == [] && NotFromPco(FromPco(fs)) == []
  {
    FilterAll((f: CustomField) => f.source == PCO, FromPco(fs));
    FilterAll((f: CustomField) => f.source != PCO, NotFromPco(fs));
    FilterNone((f: CustomField) => f.source == PCO, NotFromPco(fs));
    FilterNone((f: CustomField) => f.source != PCO, FromPco(fs));
  }

  /** The merged column has the stored fields of other sources, in order, and the incoming fields of PCO. */
  lemma MergeSeparatesSources(stored: CustomColumn, incoming: CustomColumn)
    ensures NotFromPco(FieldsOf(MergeCustomFields(stored, incoming))) == NotFromPco(FieldsOf(stored))
    ensures FromPco(FieldsOf(MergeCustomFields(stored, incoming))) == FromPco(FieldsOf(incoming))
  {
    var a, b := NotFromPco(FieldsOf(stored)), FromPco(FieldsOf(incoming));
    SplitBySource(FieldsOf(stored));
    SplitBySource(FieldsOf(incoming));
    FilterAppend((f: CustomField) => f.source == PCO, a, b);
    FilterAppend((f: CustomField) => f.source != PCO, a, b);
  }

  /** A second sync forgets the first one's fields. */
  lemma MergeForgets(stored: CustomColumn, a: CustomColumn, b: CustomColumn)
    ensures MergeCustomFields(MergeCustomFields(stored, a), b) == MergeCustomFields(stored, b)
  {
    MergeSeparatesSources(stored, a);
  }

  lemma FromPcoOneMore(fs: seq<CustomField>, c: CustomField)
    ensures FromPco(fs + [c]) == if c.source == PCO then FromPco(fs) + [c] else FromPco(fs)
  {
    FilterAppend((f: CustomField) => f.source == PCO, fs, [c]);
  }

  // ----- over a run

  /** The custom fields that a statement brings for one entity, if it is accepted. */
  function Incoming(s: Statement, k: EntityKey): (cs: seq<CustomColumn>) {
    if s.UpsertEntities? && DistinctKeys(s.entityRows) then RowColumns(s.entityRows, k) else []
  }

  function RowColumns(rows: seq<Row<EntityKey, Entity>>, k: EntityKey): (cs: seq<CustomColumn>) {
    Map((r: Row<EntityKey, Entity>) => r.value.customFields, Filter((r: Row<EntityKey, Entity>) => r.key == k, rows))
  }

  function Syncs(ss: seq<Statement>, k: EntityKey): (cs: seq<CustomColumn>) {
    if ss == [] then [] else Syncs(ss[..|ss| - 1], k) + Incoming(ss[|ss| - 1], k)
  }

  /** What the syncs make of a stored column. */
  function Synced(stored: Option<CustomColumn>, syncs: seq<CustomColumn>): (c: Option<CustomColumn>) {
    if syncs == [] then stored
    else match Synced(stored, syncs[..|syncs| - 1])
      case None => Some(syncs[|syncs| - 1])
      case Some(c) => Some(MergeCustomFields(c, syncs[|syncs| - 1]))
  }

  function ColumnAt(entities: map<EntityKey, Entity>, k: EntityKey): (c: Option<CustomColumn>) {
    if k in entities then Some(entities[k].customFields) else None
  }

  function StoredColumn(db: Database, k: EntityKey): (c: Option<CustomColumn>) {
    ColumnAt(db.entities, k)
  }

  /** A distinct batch holds at most one row for the key. */
  lemma {:induction false} OneRowPerKey(rows: seq<Row<EntityKey, Entity>>, k: EntityKey)
    requires DistinctKeys(rows)
    ensures (forall i :: 0 <= i < |rows| ==> rows[i].key != k) ==> RowColumns(rows, k) == []
    ensures forall i :: 0 <= i < |rows| && rows[i].key == k ==> RowColumns(rows, k) == [rows[i].value.customFields]
  {
    if rows != [] {
      OneRowPerKey(rows[1..], k);
      assert forall i :: 0 < i < |rows| ==> rows[i] == rows[1..][i - 1];
    }
  }

  lemma StepSyncs(db: Database, s: Statement, k: EntityKey)
    ensures StoredColumn(Exec(db, s), k) == Synced(StoredColumn(db, k), Incoming(s, k))
  {
    if s.UpsertEntities? && DistinctKeys(s.entityRows) {
      BatchSyncs(db.entities, s.entityRows, k);
      assert StoredColumn(Exec(db, s), k) == ColumnAt(Upsert(db.entities, s.entityRows, ReplaceEntity), k);
    } else {
      assert Incoming(s, k) == [];
    }
  }

  lemma BatchSyncs(entities: map<EntityKey, Entity>, rows: seq<Row<EntityKey, Entity>>, k: EntityKey)
    requires DistinctKeys(rows)
    ensures ColumnAt(Upsert(entities, rows, ReplaceEntity), k) == Synced(ColumnAt(entities, k), RowColumns(rows, k))
  {
    OneRowPerKey(rows, k);
    if i :| 0 <= i < |rows| && rows[i].key == k {
      var c := rows[i].value.customFields;
      var before := ColumnAt(entities, k);
      UpsertedRow(entities, rows, ReplaceEntity, i);
      assert RowColumns(rows, k) == [c] && [c][..0] == [];
      assert Synced(before, []) == before;
    } else {
      OtherRow(entities, rows, ReplaceEntity, k);
    }
  }

  lemma {:induction false} SyncedAppend(stored: Option<CustomColumn>, a: seq<CustomColumn>, b: seq<CustomColumn>)
    ensures Synced(stored, a + b) == Synced(Synced(stored, a), b)
  {
    if b == [] {
      assert a + b == a;
    } else {
      assert (a + b)[..|a + b| - 1] == a + b[..|b| - 1];
      SyncedAppend(stored, a, b[..|b| - 1]);
    }
  }

  lemma {:induction false} RunSyncs(db: Database, ss: seq<Statement>, k: EntityKey)
    ensures StoredColumn(Run(db, ss), k) == Synced(StoredColumn(db, k), Syncs(ss, k))
  {
    if ss != [] {
      var init, s := ss[..|ss| - 1], ss[|ss| - 1];
      RunSyncs(db, init, k);
      StepSyncs(Run(db, init), s, k);
      SyncedAppend(StoredColumn(db, k), Syncs(init, k), Incoming(s, k));
    }
  }

  lemma {:induction false} SyncedColumn(stored: CustomColumn, syncs: seq<CustomColumn>)
    ensures Synced(Some(stored), syncs)
      == Some(if syncs == [] then stored else MergeCustomFields(stored, syncs[|syncs| - 1]))
  {
    if syncs != [] {
      var init := syncs[..|syncs| - 1];
      SyncedColumn(stored, init);
      if init != [] {
        MergeForgets(stored, init[|init| - 1], syncs[|syncs| - 1]);
      }
    }
  }

  /**
   Over every run, an entity that has a row keeps the custom fields of other sources, in their
   order, and its PCO fields are those of the last accepted sync, or as stored when there was none.
   */
  lemma CustomFieldsOverRuns(db: Database, ss: seq<Statement>, k: EntityKey)
    requires k in db.entities
    ensures var syncs := Syncs(ss, k);
      var stored, after := db.entities[k].customFields, StoredColumn(Run(db, ss), k);
      && after.Some?
      && NotFromPco(FieldsOf(after.value)) == NotFromPco(FieldsOf(stored))
      && FromPco(FieldsOf(after.value)) == FromPco(FieldsOf(if syncs == [] then stored else syncs[|syncs| - 1]))
      && (syncs != [] ==> FieldsOf(after.value) == NotFromPco(FieldsOf(stored)) + FromPco(FieldsOf(syncs[|syncs| - 1])))
  {
    var syncs, stored := Syncs(ss, k), db.entities[k].customFields;
    RunSyncs(db, ss, k);
    SyncedColumn(stored, syncs);
    if syncs != [] {
      MergeSeparatesSources(stored, syncs[|syncs| - 1]);
    }
  }

  // ----- the row a run leaves

  function RowsAt(rows: seq<Row<EntityKey, Entity>>, k: EntityKey): (out: seq<Row<EntityKey, Entity>>) {
    Filter((r: Row<EntityKey, Entity>) => r.key == k, rows)
  }

  /** The row that a statement brings for the entity, if it brings one and is accepted. */
  function Brought(s: Statement, k: EntityKey): (e: Option<Entity>) {
    if s.UpsertEntities? && DistinctKeys(s.entityRows) && RowsAt(s.entityRows, k) != []
    then Some(RowsAt(s.entityRows, k)[0].value)
    else None
  }

  /** The last row that an accepted sync of the run brought for the entity. */
  function LastBrought(ss: seq<Statement>, k: EntityKey): (e: Option<Entity>) {
    if ss == [] then None
    else
      var n := |ss| - 1;
      if Brought(ss[n], k).Some? then Brought(ss[n], k) else LastBrought(ss[..n], k)
  }

  /** The stored row has the columns of the given one, and the same fields from PCO. */
  predicate Reflects(t: map<EntityKey, Entity>, k: EntityKey, e: Entity) {
    k in t && t[k].columns == e.columns && FromPco(FieldsOf(t[k].customFields)) == FromPco(FieldsOf(e.customFields))
  }

  lemma RowAt(rows: seq<Row<EntityKey, Entity>>, k: EntityKey) returns (i: nat)
    requires RowsAt(rows, k) != []
    ensures i < |rows| && rows[i] == RowsAt(rows, k)[0] && rows[i].key == k
  {
    assert RowsAt(rows, k)[0] in RowsAt(rows, k);
    i :| 0 <= i < |rows| && rows[i] == RowsAt(rows, k)[0];
  }

  lemma BroughtIsReflected(db: Database, s: Statement, k: EntityKey)
    requires Brought(s, k).Some?
    ensures Reflects(Exec(db, s).entities, k, Brought(s, k).value)
  {
    var rows := s.entityRows;
    var i := RowAt(rows, k);
    WrittenRowReflects(db.entities, rows, i);
  }

  lemma WrittenRowReflects(t: map<EntityKey, Entity>, rows: seq<Row<EntityKey, Entity>>, i: nat)
    requires DistinctKeys(rows) && i < |rows|
    ensures Reflects(Upsert(t, rows, ReplaceEntity), rows[i].key, rows[i].value)
  {
    UpsertedRow(t, rows, ReplaceEntity, i);
    if rows[i].key in t {
      MergeSeparatesSources(t[rows[i].key].customFields, rows[i].value.customFields);
    }
  }

  lemma OthersKeepReflection(db: Database, s: Statement, k: EntityKey, e: Entity)
    requires Brought(s, k).None? && Reflects(db.entities, k, e)
    ensures Reflects(Exec(db, s).entities, k, e)
  {
    if s.UpsertEntities? && DistinctKeys(s.entityRows) {
      forall i | 0 <= i < |s.entityRows|
        ensures s.entityRows[i].key != k
      {
        assert s.entityRows[i] in s.entityRows && s.entityRows[i] !in RowsAt(s.entityRows, k);
      }
      OtherRow(db.entities, s.entityRows, ReplaceEntity, k);
    }
  }

  /**
   Whatever the run began with and whatever else ran, deletions included, the row of an entity
   has the columns and the PCO fields of the last accepted sync that brought it.
   */
  lemma {:induction false} RunReflectsLastSync(db: Database, ss: seq<Statement>, k: EntityKey)
    requires LastBrought(ss, k).Some?
    ensures Reflects(Run(db, ss).entities, k, LastBrought(ss, k).value)
  {
    var n := |ss| - 1;
    if Brought(ss[n], k).Some? {
      BroughtIsReflected(Run(db, ss[..n]), ss[n], k);
    } else {
      RunReflectsLastSync(db, ss[..n], k);
      OthersKeepReflection(Run(db, ss[..n]), ss[n], k, LastBrought(ss, k).value);
    }
  }
}
