/**
 The four tables of the sync engine and the SQL statements that change them. A database is a
 value, a statement a step on it; every operation of the internal manager, interleaved with
 any others, is a sequence of such steps.
 */
module Tables {
  import opened Seqs
  import opened Values
  import opened Wrappers

  // ----- rows

  datatype LinkKey = LinkKey(org: string, adapter: string, externalId: string)
  datatype Link = Link(
    entityId: string, entityType: string, createdAt: int, updatedAt: Option<int>,
    lastProcessedAt: int, deletedAt: Option<int>, deletedBy: Option<string>)

  datatype EdgeKey = EdgeKey(org: string, source: string, target: string, relationshipType: string)
  datatype Edge = Edge(
    sourceTag: string, targetTag: string, metadata: map<string, string>,
    createdAt: int, createdBy: Option<string>, updatedAt: Option<int>, updatedBy: Option<string>,
    deletedAt: Option<int>, deletedBy: Option<string>)

  datatype CustomField = CustomField(tag: string, name: string, source: Option<string>, value: Value)

  /** A jsonb column that should hold a list of custom fields, and may hold anything. */
  datatype CustomColumn = Fields(fields: seq<CustomField>) | NotAList

  datatype EntityKey = EntityKey(table: string, id: string)
  datatype Entity = Entity(
    org: string, tag: string, customFields: CustomColumn,
    deletedAt: Option<int>, deletedBy: Option<string>, columns: map<string, Value>)

  datatype RegistryKey = RegistryKey(org: string, sourceType: string)

  datatype Database = Database(
    links: map<LinkKey, Link>,
    edges: map<EdgeKey, Edge>,
    entities: map<EntityKey, Entity>,
    registry: map<RegistryKey, set<string>>)

  datatype Row<K, V> = Row(key: K, value: V)

  const DELETED_BY := "sync_deletion_detection"

  // ----- the two kinds of statement

  predicate DistinctKeys<K(==), V>(rows: seq<Row<K, V>>) {
    forall i, j :: 0 <= i < j < |rows| ==> rows[i].key != rows[j].key
  }

  ghost predicate HasKey<K, V>(rows: seq<Row<K, V>>, k: K) {
    exists i :: 0 <= i < |rows| && rows[i].key == k
  }

  /** INSERT .. ON CONFLICT DO UPDATE, row after row, with the given update of an existing row. */
  function Merged<K, V>(t: map<K, V>, rows: seq<Row<K, V>>, onConflict: (V, V) -> V): (t': map<K, V>) {
    if rows == [] then t
    else
      var m, r := Merged(t, rows[..|rows| - 1], onConflict), rows[|rows| - 1];
      m[r.key := if r.key in m then onConflict(m[r.key], r.value) else r.value]
  }

  /** Postgres refuses a batch that would change one row twice, and then changes nothing. */
  function Upsert<K(==), V>(t: map<K, V>, rows: seq<Row<K, V>>, onConflict: (V, V) -> V): (t': map<K, V>) {
    if DistinctKeys(rows) then Merged(t, rows, onConflict) else t
  }

  function Update<K, V>(t: map<K, V>, where: (K, V) -> bool, change: V -> V): (t': map<K, V>) {
    map k | k in t :: if where(k, t[k]) then change(t[k]) else t[k]
  }

  /** What an accepted batch leaves behind, key by key. */
  lemma {:induction false} MergedRows<K, V>(t: map<K, V>, rows: seq<Row<K, V>>, onConflict: (V, V) -> V)
    requires DistinctKeys(rows)
    ensures forall k :: k in Merged(t, rows, onConflict) <==> k in t || exists i :: 0 <= i < |rows| && rows[i].key == k
    ensures forall i :: 0 <= i < |rows| ==>
      Merged(t, rows, onConflict)[rows[i].key] ==
        if rows[i].key in t then onConflict(t[rows[i].key], rows[i].value) else rows[i].value
    ensures forall k :: k in t && (forall i :: 0 <= i < |rows| ==> rows[i].key != k) ==>
      Merged(t, rows, onConflict)[k] == t[k]
  {
    if rows != [] {
      var n := |rows| - 1;
      var init := rows[..n];
      assert forall i :: 0 <= i < n ==> init[i] == rows[i];
      MergedRows(t, init, onConflict);
    }
  }

  /** The same for one key: a row that the batch writes, */
  lemma UpsertedRow<K, V>(t: map<K, V>, rows: seq<Row<K, V>>, onConflict: (V, V) -> V, i: nat)
    requires DistinctKeys(rows) && i < |rows|
    ensures var after := Upsert(t, rows, onConflict);
      && rows[i].key in after
      && after[rows[i].key] == if rows[i].key in t then onConflict(t[rows[i].key], rows[i].value) else rows[i].value
  {
    MergedRows(t, rows, onConflict);
  }

  /** and one that it does not. */
  lemma OtherRow<K, V>(t: map<K, V>, rows: seq<Row<K, V>>, onConflict: (V, V) -> V, k: K)
    requires DistinctKeys(rows) && !HasKey(rows, k)
    ensures var after := Upsert(t, rows, onConflict);
      (k in after <==> k in t) && (k in t ==> after[k] == t[k])
  {
    MergedRows(t, rows, onConflict);
  }

  // ----- the columns each statement sets

  /** Entity links: lastProcessedAt moves only when updatedAt changes. */
  function TouchLink(stored: Link, excluded: Link): (l: Link) {
    stored.(
      lastProcessedAt := if excluded.updatedAt != stored.updatedAt then excluded.lastProcessedAt
        else stored.lastProcessedAt,
      updatedAt := excluded.updatedAt)
  }

  /** Reference links: the row is set to itself, so that it is returned. */
  function KeepLink(stored: Link, excluded: Link): (l: Link) {
    stored
  }

  function TouchEdge(stored: Edge, excluded: Edge): (e: Edge) {
    stored.(metadata := excluded.metadata, updatedAt := excluded.updatedAt)
  }

  const PCO := Some("pco")

  function FieldsOf(c: CustomColumn): (fs: seq<CustomField>) {
    if c.Fields? then c.fields else []
  }

  function FromPco(fs: seq<CustomField>): (out: seq<CustomField>) {
    Filter((f: CustomField) => f.source == PCO, fs)
  }

  function NotFromPco(fs: seq<CustomField>): (out: seq<CustomField>) {
    Filter((f: CustomField) => f.source != PCO, fs)
  }

  /** The stored fields of other sources, then the incoming fields of PCO. */
  function MergeCustomFields(stored: CustomColumn, excluded: CustomColumn): (c: CustomColumn) {
    Fields(NotFromPco(FieldsOf(stored)) + FromPco(FieldsOf(excluded)))
  }

  /** Entities: every column but id, orgId and _tag is replaced, and custom fields are merged. */
  function ReplaceEntity(stored: Entity, excluded: Entity): (e: Entity) {
    excluded.(org := stored.org, tag := stored.tag,
      customFields := MergeCustomFields(stored.customFields, excluded.customFields))
  }

  function UniteTargets(stored: set<string>, excluded: set<string>): (s: set<string>) {
    stored + excluded
  }

  function BuryLink(l: Link, at: int): (l': Link) {
    l.(deletedAt := Some(at), deletedBy := Some(DELETED_BY))
  }

  function BuryEdge(e: Edge, at: int): (e': Edge) {
    e.(deletedAt := Some(at), deletedBy := Some(DELETED_BY))
  }

  function BuryEntity(e: Entity, at: int): (e': Entity) {
    e.(deletedAt := Some(at), deletedBy := Some(DELETED_BY))
  }

  // ----- statements as data

  datatype Statement =
    | UpsertEntityLinks(linkRows: seq<Row<LinkKey, Link>>)
    | UpsertReferenceLinks(linkRows: seq<Row<LinkKey, Link>>)
    | BuryLinksOf(org: string, adapter: string, entityId: string, at: int)
    | BuryStaleLinks(org: string, adapter: string, entityType: string, externalIds: set<string>, at: int)
    | BuryEdgesOf(org: string, entityId: string, at: int)
    | BuryEntityRow(table: string, id: string, at: int)
    | UpsertEdges(edgeRows: seq<Row<EdgeKey, Edge>>)
    | UpsertEntities(entityRows: seq<Row<EntityKey, Entity>>)
    | UpsertRegistry(registryRows: seq<Row<RegistryKey, set<string>>>)

  /** Whether the database carries the statement out, or refuses it and changes nothing. */
  predicate Accepted(s: Statement) {
    match s
    case UpsertEntityLinks(rows) => DistinctKeys(rows)
    case UpsertReferenceLinks(rows) => DistinctKeys(rows)
    case UpsertEdges(rows) => DistinctKeys(rows)
    case UpsertEntities(rows) => DistinctKeys(rows)
    // written as raw SQL, which cannot insert an empty list of rows
    case UpsertRegistry(rows) => rows != [] && DistinctKeys(rows)
    case _ => true
  }

  predicate AllAccepted(ss: seq<Statement>) {
    forall i :: 0 <= i < |ss| ==> Accepted(ss[i])
  }

  predicate Touches(k: EdgeKey, org: string, id: string) {
    k.org == org && (k.source == id || k.target == id)
  }

  function Exec(db: Database, s: Statement): (db': Database) {
    match s
    case UpsertEntityLinks(rows) => db.(links := Upsert(db.links, rows, TouchLink))
    case UpsertReferenceLinks(rows) => db.(links := Upsert(db.links, rows, KeepLink))
    case BuryLinksOf(org, adapter, entityId, at) =>
      db.(links := Update(db.links,
        (k: LinkKey, l: Link) => k.org == org && k.adapter == adapter && l.entityId == entityId,
        (l: Link) => BuryLink(l, at)))
    case BuryStaleLinks(org, adapter, entityType, externalIds, at) =>
      db.(links := Update(db.links,
        (k: LinkKey, l: Link) =>
          k.org == org && k.adapter == adapter && l.entityType == entityType && k.externalId in externalIds,
        (l: Link) => BuryLink(l, at)))
    case BuryEdgesOf(org, entityId, at) =>
      db.(edges := Update(db.edges, (k: EdgeKey, e: Edge) => Touches(k, org, entityId), (e: Edge) => BuryEdge(e, at)))
    case BuryEntityRow(table, id, at) =>
      db.(entities := Update(db.entities,
        (k: EntityKey, e: Entity) => k == EntityKey(table, id),
        (e: Entity) => BuryEntity(e, at)))
    case UpsertEdges(rows) => db.(edges := Upsert(db.edges, rows, TouchEdge))
    case UpsertEntities(rows) => db.(entities := Upsert(db.entities, rows, ReplaceEntity))
    case UpsertRegistry(rows) => db.(registry := Upsert(db.registry, rows, UniteTargets))
  }

  function Run(db: Database, ss: seq<Statement>): (db': Database) {
    if ss == [] then db else Exec(Run(db, ss[..|ss| - 1]), ss[|ss| - 1])
  }

  lemma {:induction false} RunAppend(db: Database, ss: seq<Statement>, ts: seq<Statement>)
    ensures Run(db, ss + ts) == Run(Run(db, ss), ts)
  {
    if ts == [] {
      assert ss + ts == ss;
    } else {
      assert (ss + ts)[..|ss + ts| - 1] == ss + ts[..|ts| - 1];
      RunAppend(db, ss, ts[..|ts| - 1]);
    }
  }

  lemma RunThree(db: Database, a: Statement, b: Statement, c: Statement)
    ensures Run(db, [a]) == Exec(db, a)
    ensures Run(db, [a, b]) == Exec(Exec(db, a), b)
    ensures Run(db, [a, b, c]) == Exec(Exec(Exec(db, a), b), c)
  {
    assert [a][..0] == [] && [a, b][..1] == [a] && [a, b, c][..2] == [a, b];
  }

  lemma RunStep(db: Database, ss: seq<Statement>, i: nat)
    requires i < |ss|
    ensures Run(db, ss[..i + 1]) == Exec(Run(db, ss[..i]), ss[i])
  {
    assert ss[..i + 1][..i] == ss[..i];
  }
}
