/**
 Deleting an entity and merging one entity into another: which rows are buried, which edges
 the kept entity takes over, and exactly when the database refuses the merge's edge batch.
 */
module Merge {
  import opened EdgeDirection
  import opened Seqs
  import opened Tables
  import opened Wrappers

  type EdgeRow = Row<EdgeKey, Edge>

  const MERGED := "merged"
  const MERGER := Some("sync_merging")

  // ----- deletion

  function LiveLink(db: Database, org: string, adapter: string, externalId: string): (l: Option<Link>) {
    var k := LinkKey(org, adapter, externalId);
    if k in db.links && db.links[k].deletedAt.None? then Some(db.links[k]) else None
  }

  /**
   deleteEntityId: bury the links, the edges and the row of an entity. An entity type without
   a table is skipped. The three statements touch different tables, so their order is free.
   */
  function DeleteStatements(
    tableOf: map<string, string>, org: string, adapter: string, entityId: string, entityType: string, at: int)
    : (ss: seq<Statement>)
  {
    if entityType !in tableOf then []
    else [BuryLinksOf(org, adapter, entityId, at), BuryEdgesOf(org, entityId, at),
      BuryEntityRow(tableOf[entityType], entityId, at)]
  }

  function DeleteEntityId(
    tableOf: map<string, string>, db: Database, org: string, adapter: string, entityId: string, entityType: string,
    at: int): (db': Database)
  {
    Run(db, DeleteStatements(tableOf, org, adapter, entityId, entityType, at))
  }

  function DeleteEntity(
    tableOf: map<string, string>, db: Database, org: string, adapter: string, externalId: string, at: int)
    : (db': Database)
  {
    match LiveLink(db, org, adapter, externalId)
    case None => db
    case Some(l) => DeleteEntityId(tableOf, db, org, adapter, l.entityId, l.entityType, at)
  }

  /** What deletion leaves behind, table by table. */
  lemma DeletionBuries(
    tableOf: map<string, string>, db: Database, org: string, adapter: string, id: string, entityType: string, at: int)
    requires entityType in tableOf
    ensures var after := DeleteEntityId(tableOf, db, org, adapter, id, entityType, at);
      && after.links.Keys == db.links.Keys && after.edges.Keys == db.edges.Keys
        && after.entities.Keys == db.entities.Keys
      && after.registry == db.registry
      && (forall k :: k in db.links ==>
        after.links[k] == if k.org == org && k.adapter == adapter && db.links[k].entityId == id
          then BuryLink(db.links[k], at) else db.links[k])
      && (forall k :: k in db.edges ==>
        after.edges[k] == if Touches(k, org, id) then BuryEdge(db.edges[k], at) else db.edges[k])
      && (forall k :: k in db.entities ==>
        after.entities[k] ==
          if k == EntityKey(tableOf[entityType], id) then BuryEntity(db.entities[k], at) else db.entities[k])
  {
    var ss := DeleteStatements(tableOf, org, adapter, id, entityType, at);
    RunThree(db, ss[0], ss[1], ss[2]);
  }

  /**
   Links, rows and registry when the entity is buried: each of its links for the adapter, and its row
   in the table, has the tombstone, and nothing else is touched; without a table nothing at all is.
   */
  ghost predicate OnlyBuried(
    db: Database, after: Database, org: string, adapter: string, id: string, table: Option<string>, at: int)
  {
    && after.links.Keys == db.links.Keys && after.entities.Keys == db.entities.Keys && after.registry == db.registry
    && (forall k :: k in db.links ==>
      after.links[k] ==
        if table.Some? && k.org == org && k.adapter == adapter && db.links[k].entityId == id
        then db.links[k].(deletedAt := Some(at), deletedBy := Some("sync_deletion_detection"))
        else db.links[k])
    && (forall k :: k in db.entities ==>
      after.entities[k] ==
        if table.Some? && k == EntityKey(table.value, id)
        then db.entities[k].(deletedAt := Some(at), deletedBy := Some("sync_deletion_detection"))
        else db.entities[k])
  }

  /** And the edges: each one of the org with an end at the entity has the tombstone. */
  ghost predicate EdgesBuried(
    before: map<EdgeKey, Edge>, after: map<EdgeKey, Edge>, org: string, id: string, buries: bool, at: int)
  {
    && after.Keys == before.Keys
    && forall k :: k in before ==>
         after[k] ==
           if buries && k.org == org && id in {k.source, k.target}
           then before[k].(deletedAt := Some(at), deletedBy := Some("sync_deletion_detection"))
           else before[k]
  }

  lemma DeletionInColumns(
    tableOf: map<string, string>, db: Database, org: string, adapter: string, id: string, entityType: string, at: int)
    ensures var after := DeleteEntityId(tableOf, db, org, adapter, id, entityType, at);
      && OnlyBuried(db, after, org, adapter, id, if entityType in tableOf then Some(tableOf[entityType]) else None, at)
      && EdgesBuried(db.edges, after.edges, org, id, entityType in tableOf, at)
  {
    if entityType in tableOf {
      DeletionBuries(tableOf, db, org, adapter, id, entityType, at);
    }
  }

  /** Deleting by an external id: the entity of the live link is buried in all tables; without one nothing happens. */
  lemma DeleteEntityBuries(
    tableOf: map<string, string>, db: Database, org: string, adapter: string, externalId: string, at: int)
    ensures var k, after := LinkKey(org, adapter, externalId), DeleteEntity(tableOf, db, org, adapter, externalId, at);
      if k !in db.links || db.links[k].deletedAt.Some? then after == db
      else
        var id, entityType := db.links[k].entityId, db.links[k].entityType;
        && OnlyBuried(db, after, org, adapter, id,
             if entityType in tableOf then Some(tableOf[entityType]) else None, at)
        && EdgesBuried(db.edges, after.edges, org, id, entityType in tableOf, at)
  {
    var k := LinkKey(org, adapter, externalId);
    if k in db.links && db.links[k].deletedAt.None? {
      DeletionInColumns(tableOf, db, org, adapter, db.links[k].entityId, db.links[k].entityType, at);
    }
  }

  // ----- the edges a merge writes

  /** Every edge of the org that touches the id, dead ones too, in the order they were found. */
  ghost predicate Found(db: Database, org: string, id: string, found: seq<EdgeRow>) {
    && DistinctKeys(found)
    && (forall i :: 0 <= i < |found| ==>
      found[i].key in db.edges && found[i].value == db.edges[found[i].key] && Touches(found[i].key, org, id))
    && (forall k :: k in db.edges && Touches(k, org, id) ==> exists i :: 0 <= i < |found| && found[i].key == k)
  }

  /** The key of an edge of `remove` once it is moved to `keep`: one end, the source if it can. */
  function Repoint(k: EdgeKey, keep: string, remove: string): (k': EdgeKey) {
    if k.source == remove then k.(source := keep) else k.(target := keep)
  }

  function RepointRow(r: EdgeRow, keep: string, remove: string, at: int): (r': EdgeRow) {
    Row(Repoint(r.key, keep, remove), r.value.(createdAt := at, createdBy := MERGER, updatedAt := Some(at)))
  }

  function MergedKey(org: string, d: Direction): (k: EdgeKey)
    requires d.Directed?
  {
    EdgeKey(org, d.source, d.target, MERGED)
  }

  function MergedRow(org: string, adapter: string, keep: string, remove: string, entityType: string, at: int)
    : (r: EdgeRow)
    requires Decode(keep, remove).Directed?
  {
    Row(MergedKey(org, Decode(keep, remove)),
      Edge(entityType, entityType,
        map["keepId" := keep, "relationshipKey" := entityType, "removeId" := remove, "source" := adapter + "_merging"],
        at, MERGER, Some(at), MERGER, None, None))
  }

  function MergeRows(
    found: seq<EdgeRow>, org: string, adapter: string, keep: string, remove: string, entityType: string, at: int)
    : (rows: seq<EdgeRow>)
    requires Decode(keep, remove).Directed?
    ensures |rows| == |found| + 1
    ensures forall i :: 0 <= i < |found| ==> rows[i] == RepointRow(found[i], keep, remove, at)
    ensures rows[|found|] == MergedRow(org, adapter, keep, remove, entityType, at)
  {
    Map((r: EdgeRow) => RepointRow(r, keep, remove, at), found)
      + [MergedRow(org, adapter, keep, remove, entityType, at)]
  }

  datatype MergeOutcome =
    | NothingToRemove(db: Database)   // no live link for the removed id
    | NothingToKeep(db: Database)     // no live link for the kept id, after the deletion
    | Undirected(db: Database)        // an empty internal id, after the deletion
    | Refused(db: Database)           // the edge batch hits a row twice, after the deletion
    | Done(db: Database)

  function MergeEntity(
    tableOf: map<string, string>, db: Database, org: string, adapter: string,
    keepId: string, removeId: string, found: seq<EdgeRow>, at: int): (o: MergeOutcome)
  {
    match LiveLink(db, org, adapter, removeId)
    case None => NothingToRemove(db)
    case Some(gone) =>
      var mid := DeleteEntityId(tableOf, db, org, adapter, gone.entityId, gone.entityType, at);
      match LiveLink(db, org, adapter, keepId)
      case None => NothingToKeep(mid)
      case Some(kept) => InsertMergedEdges(mid, org, adapter, kept, gone, found, at)
  }

  function InsertMergedEdges(
    mid: Database, org: string, adapter: string, kept: Link, gone: Link, found: seq<EdgeRow>, at: int)
    : (o: MergeOutcome)
  {
    if Decode(kept.entityId, gone.entityId).EmptyId? then Undirected(mid)
    else
      var rows := MergeRows(found, org, adapter, kept.entityId, gone.entityId, kept.entityType, at);
      if Accepted(UpsertEdges(rows)) then Done(Exec(mid, UpsertEdges(rows))) else Refused(mid)
  }

  /**
   However a merge ends, once the removed id has a live link its entity is buried: the links and the
   row carry the tombstone, and links, rows and registry are otherwise as before. Without a table for
   its type they are all as before, and without a live link the merge does nothing.
   */
  lemma MergeBuriesRemoved(
    tableOf: map<string, string>, db: Database, org: string, adapter: string, keepId: string, removeId: string,
    found: seq<EdgeRow>, at: int)
    ensures var k, o := LinkKey(org, adapter, removeId),
      MergeEntity(tableOf, db, org, adapter, keepId, removeId, found, at);
      if k !in db.links || db.links[k].deletedAt.Some? then o.db == db
      else
        var id, entityType := db.links[k].entityId, db.links[k].entityType;
        OnlyBuried(db, o.db, org, adapter, id, if entityType in tableOf then Some(tableOf[entityType]) else None, at)
  {
    var k := LinkKey(org, adapter, removeId);
    if k in db.links && db.links[k].deletedAt.None? {
      DeletionInColumns(tableOf, db, org, adapter, db.links[k].entityId, db.links[k].entityType, at);
      OnlyEdgesAfterDeletion(tableOf, db, org, adapter, keepId, removeId, found, at, db.links[k]);
    }
  }

  /** What a merge does besides deleting the removed entity, it does to the edges. */
  lemma OnlyEdgesAfterDeletion(
    tableOf: map<string, string>, db: Database, org: string, adapter: string, keepId: string, removeId: string,
    found: seq<EdgeRow>, at: int, gone: Link)
    requires LiveLink(db, org, adapter, removeId) == Some(gone)
    ensures var after := MergeEntity(tableOf, db, org, adapter, keepId, removeId, found, at).db;
      after == DeleteEntityId(tableOf, db, org, adapter, gone.entityId, gone.entityType, at).(edges := after.edges)
  {
  }

  // ----- when the batch is refused

  /** The two entities are joined both ways by one type of edge. */
  ghost predicate JoinedBothWays(db: Database, org: string, keep: string, remove: string) {
    exists t :: EdgeKey(org, remove, keep, t) in db.edges && EdgeKey(org, keep, remove, t) in db.edges
  }

  /** Whether two different found edges move to one key, or one moves to the key of the merged edge. */
  lemma RepointCollisions(k: EdgeKey, l: EdgeKey, org: string, keep: string, remove: string)
    requires keep != remove && k != l && Touches(k, org, remove) && Touches(l, org, remove)
    ensures Repoint(k, keep, remove) == Repoint(l, keep, remove) <==>
      && k.relationshipType == l.relationshipType
      && {k, l} == {EdgeKey(org, remove, keep, k.relationshipType), EdgeKey(org, keep, remove, k.relationshipType)}
  {
  }

  lemma RepointHitsMerged(k: EdgeKey, org: string, keep: string, remove: string)
    requires keep != remove && Touches(k, org, remove) && Decode(keep, remove).Directed?
    ensures Repoint(k, keep, remove) == MergedKey(org, Decode(keep, remove)) <==>
      k == EdgeKey(org, remove, remove, MERGED) && Before(keep, remove)
  {
  }

  /** What keeps two entities from being merged. */
  ghost predicate EdgesClash(db: Database, org: string, keep: string, remove: string) {
    JoinedBothWays(db, org, keep, remove) || (EdgeKey(org, remove, remove, MERGED) in db.edges && Before(keep, remove))
  }

  lemma MovedRow(
    db: Database, found: seq<EdgeRow>, org: string, adapter: string, keep: string, remove: string, entityType: string,
    at: int, k: EdgeKey) returns (i: nat)
    requires Decode(keep, remove).Directed? && Found(db, org, remove, found) && k in db.edges && Touches(k, org, remove)
    ensures i < |found| && found[i].key == k
    ensures MergeRows(found, org, adapter, keep, remove, entityType, at)[i].key == Repoint(k, keep, remove)
  {
    i :| 0 <= i < |found| && found[i].key == k;
  }

  lemma JoinedBothWaysIsRefused(
    db: Database, found: seq<EdgeRow>, org: string, adapter: string, keep: string, remove: string, entityType: string,
    at: int, t: string)
    requires keep != remove && Decode(keep, remove).Directed? && Found(db, org, remove, found)
    requires EdgeKey(org, remove, keep, t) in db.edges && EdgeKey(org, keep, remove, t) in db.edges
    ensures !DistinctKeys(MergeRows(found, org, adapter, keep, remove, entityType, at))
  {
    var i := MovedRow(db, found, org, adapter, keep, remove, entityType, at, EdgeKey(org, remove, keep, t));
    var j := MovedRow(db, found, org, adapter, keep, remove, entityType, at, EdgeKey(org, keep, remove, t));
    RepeatedKey(MergeRows(found, org, adapter, keep, remove, entityType, at), i, j);
  }

  lemma RepeatedKey(rows: seq<EdgeRow>, i: nat, j: nat)
    requires i < |rows| && j < |rows| && i != j && rows[i].key == rows[j].key
    ensures !DistinctKeys(rows)
  {
    if i < j {
      assert rows[i].key == rows[j].key;
    }
  }

  lemma MergedLoopIsRefused(
    db: Database, found: seq<EdgeRow>, org: string, adapter: string, keep: string, remove: string, entityType: string,
    at: int)
    requires keep != remove && Decode(keep, remove).Directed? && Found(db, org, remove, found)
    requires EdgeKey(org, remove, remove, MERGED) in db.edges && Before(keep, remove)
    ensures !DistinctKeys(MergeRows(found, org, adapter, keep, remove, entityType, at))
  {
    var loop := EdgeKey(org, remove, remove, MERGED);
    var i := MovedRow(db, found, org, adapter, keep, remove, entityType, at, loop);
    RepointHitsMerged(loop, org, keep, remove);
    RepeatedKey(MergeRows(found, org, adapter, keep, remove, entityType, at), i, |found|);
  }

  /**
   The edge batch of a merge of two entities is accepted exactly when they are not joined both
   ways by one type of edge, and the removed one has no "merged" edge to itself that would
   move onto the new one.
   */
  lemma BatchAcceptedIff(
    db: Database, found: seq<EdgeRow>, org: string, adapter: string, keep: string, remove: string, entityType: string,
    at: int)
    requires keep != remove && Decode(keep, remove).Directed? && Found(db, org, remove, found)
    ensures DistinctKeys(MergeRows(found, org, adapter, keep, remove, entityType, at)) <==>
      !EdgesClash(db, org, keep, remove)
  {
    var rows := MergeRows(found, org, adapter, keep, remove, entityType, at);
    if t :| EdgeKey(org, remove, keep, t) in db.edges && EdgeKey(org, keep, remove, t) in db.edges {
      JoinedBothWaysIsRefused(db, found, org, adapter, keep, remove, entityType, at, t);
    } else if EdgesClash(db, org, keep, remove) {
      MergedLoopIsRefused(db, found, org, adapter, keep, remove, entityType, at);
    } else {
      forall i, j | 0 <= i < j < |rows|
        ensures rows[i].key != rows[j].key
      {
        if j == |found| {
          RepointHitsMerged(found[i].key, org, keep, remove);
        } else {
          EdgesMoveApart(db, found[i].key, found[j].key, org, keep, remove);
        }
      }
    }
  }

  lemma EdgesMoveApart(db: Database, k: EdgeKey, l: EdgeKey, org: string, keep: string, remove: string)
    requires keep != remove && k != l && k in db.edges && l in db.edges && Touches(k, org, remove)
      && Touches(l, org, remove)
    requires !JoinedBothWays(db, org, keep, remove)
    ensures Repoint(k, keep, remove) != Repoint(l, keep, remove)
  {
    RepointCollisions(k, l, org, keep, remove);
    var t := k.relationshipType;
    var a, b := EdgeKey(org, remove, keep, t), EdgeKey(org, keep, remove, t);
    assert {k, l} == {a, b} ==> a in {k, l} && b in {k, l};
  }

  /** Merging an entity with itself is refused exactly when it already has a "merged" self edge. */
  lemma SelfMergeAcceptedIff(
    db: Database, found: seq<EdgeRow>, org: string, adapter: string, id: string, entityType: string, at: int)
    requires id != "" && Found(db, org, id, found)
    ensures DistinctKeys(MergeRows(found, org, adapter, id, id, entityType, at)) <==>
      EdgeKey(org, id, id, MERGED) !in db.edges
  {
  }

  /** The sufficient condition the convention gives: one orientation per pair, no self edge. */
  lemma OrientedEdgesMerge(
    db: Database, found: seq<EdgeRow>, org: string, adapter: string, keep: string, remove: string, entityType: string,
    at: int)
    requires keep != remove && Decode(keep, remove).Directed? && Found(db, org, remove, found)
    requires forall k :: k in db.edges && k.org == org ==>
      Canonical(k.source, k.target) && !(k.source == k.target == remove)
    ensures DistinctKeys(MergeRows(found, org, adapter, keep, remove, entityType, at))
  {
    DecodeIsSymmetricAndIdempotent(keep, remove);
    BatchAcceptedIff(db, found, org, adapter, keep, remove, entityType, at);
    assert !(Canonical(remove, keep) && Canonical(keep, remove));
  }

  // ----- what an accepted merge leaves

  /** The relationship the key states, with the removed entity read as the kept one. */
  function Renamed(k: EdgeKey, keep: string, remove: string): (k': EdgeKey) {
    k.(source := if k.source == remove then keep else k.source, target := if k.target == remove then keep else k.target)
  }

  /** The edge table after the removed entity's edges are buried (or not, without a table). */
  function BuriedEdges(
    edges: map<EdgeKey, Edge>, org: string, remove: string, buries: bool, at: int): (t: map<EdgeKey, Edge>)
  {
    map k | k in edges :: if buries && Touches(k, org, remove) then BuryEdge(edges[k], at) else edges[k]
  }

  /** The edge a moved edge came from; by acceptance there is only one. */
  ghost predicate MovedTo(
    edges: map<EdgeKey, Edge>, org: string, keep: string, remove: string, from: EdgeKey, k: EdgeKey)
  {
    from in edges && Touches(from, org, remove) && Repoint(from, keep, remove) == k
  }

  /** The edge a merge leaves at a key it writes: the stored one touched up, or the written one. */
  function Written(mid: map<EdgeKey, Edge>, r: EdgeRow): (e: Edge) {
    if r.key in mid then TouchEdge(mid[r.key], r.value) else r.value
  }

  lemma EdgeBatchKeys(t: map<EdgeKey, Edge>, rows: seq<EdgeRow>)
    requires DistinctKeys(rows)
    ensures forall k :: k in Upsert(t, rows, TouchEdge) <==> k in t || HasKey(rows, k)
    ensures forall k :: k in t && !HasKey(rows, k) ==> Upsert(t, rows, TouchEdge)[k] == t[k]
  {
    MergedRows(t, rows, TouchEdge);
  }

  /** Every key an accepted merge leaves, and the rows it writes nothing to. */
  lemma MergedEdgeKeys(
    mid: map<EdgeKey, Edge>, db: Database, found: seq<EdgeRow>, org: string, adapter: string, keep: string,
    remove: string, entityType: string, at: int)
    requires Decode(keep, remove).Directed? && Found(db, org, remove, found) && mid.Keys == db.edges.Keys
    requires DistinctKeys(MergeRows(found, org, adapter, keep, remove, entityType, at))
    ensures var after := Upsert(mid, MergeRows(found, org, adapter, keep, remove, entityType, at), TouchEdge);
      var merged := MergedKey(org, Decode(keep, remove));
      && (forall k :: k in after <==>
        k in db.edges || k == merged || exists from :: MovedTo(db.edges, org, keep, remove, from, k))
      && (forall k ::
        k in db.edges && k != merged && !(exists from :: MovedTo(db.edges, org, keep, remove, from, k)) ==>
          after[k] == mid[k])
  {
    var rows := MergeRows(found, org, adapter, keep, remove, entityType, at);
    EdgeBatchKeys(mid, rows);
    forall k
      ensures HasKey(rows, k) <==>
        k == MergedKey(org, Decode(keep, remove)) || exists from :: MovedTo(db.edges, org, keep, remove, from, k)
    {
      MergeRowKeys(db, found, org, adapter, keep, remove, entityType, at, k);
    }
  }

  lemma MergeRowKeys(
    db: Database, found: seq<EdgeRow>, org: string, adapter: string, keep: string, remove: string, entityType: string,
    at: int, k: EdgeKey)
    requires Decode(keep, remove).Directed? && Found(db, org, remove, found)
    ensures HasKey(MergeRows(found, org, adapter, keep, remove, entityType, at), k)
       <==> k == MergedKey(org, Decode(keep, remove)) || exists from :: MovedTo(db.edges, org, keep, remove, from, k)
  {
    var rows := MergeRows(found, org, adapter, keep, remove, entityType, at);
    assert rows[|found|].key == MergedKey(org, Decode(keep, remove));
    if from :| MovedTo(db.edges, org, keep, remove, from, k) {
      var i :| 0 <= i < |found| && found[i].key == from;
      assert rows[i].key == k;
    }
    if i :| 0 <= i < |rows| && rows[i].key == k {
      assert i < |found| ==> MovedTo(db.edges, org, keep, remove, found[i].key, k);
    }
  }

  /** The rows an accepted merge writes: one per edge of the removed entity, and the merged edge. */
  lemma MergedEdgeRows(
    mid: map<EdgeKey, Edge>, db: Database, found: seq<EdgeRow>, org: string, adapter: string, keep: string,
    remove: string, entityType: string, at: int)
    requires Decode(keep, remove).Directed? && Found(db, org, remove, found) && mid.Keys == db.edges.Keys
    requires DistinctKeys(MergeRows(found, org, adapter, keep, remove, entityType, at))
    ensures var after := Upsert(mid, MergeRows(found, org, adapter, keep, remove, entityType, at), TouchEdge);
      var merged := MergedRow(org, adapter, keep, remove, entityType, at);
      && (merged.key in after && after[merged.key] == Written(mid, merged))
      && (forall from, k :: MovedTo(db.edges, org, keep, remove, from, k) ==>
        && k in after && k != merged.key
        && after[k] == Written(mid, RepointRow(Row(from, db.edges[from]), keep, remove, at)))
  {
    var rows := MergeRows(found, org, adapter, keep, remove, entityType, at);
    MergedRows(mid, rows, TouchEdge);
    assert rows[|found|] == MergedRow(org, adapter, keep, remove, entityType, at);
    forall from, k | MovedTo(db.edges, org, keep, remove, from, k)
      ensures exists i :: 0 <= i < |found| && rows[i].key == k && found[i] == Row(from, db.edges[from])
    {
      var i :| 0 <= i < |found| && found[i].key == from;
      assert rows[i].key == k;
    }
  }

  /** The live links a merge starts from, and the edges its select found. */
  ghost predicate MergeStarts(
    db: Database, org: string, adapter: string, keepId: string, removeId: string, found: seq<EdgeRow>, kept: Link,
    gone: Link)
  {
    && LiveLink(db, org, adapter, keepId) == Some(kept)
    && LiveLink(db, org, adapter, removeId) == Some(gone)
    && Found(db, org, gone.entityId, found)
  }

  /** The edge table as the insert of a merge finds it. */
  function EdgesBeforeInsert(
    tableOf: map<string, string>, db: Database, org: string, gone: Link, at: int): (t: map<EdgeKey, Edge>)
  {
    BuriedEdges(db.edges, org, gone.entityId, gone.entityType in tableOf, at)
  }

  lemma DeletionBeforeMerge(
    tableOf: map<string, string>, db: Database, org: string, adapter: string, at: int, gone: Link)
    ensures DeleteEntityId(tableOf, db, org, adapter, gone.entityId, gone.entityType, at).edges
      == EdgesBeforeInsert(tableOf, db, org, gone, at)
  {
    var del := DeleteEntityId(tableOf, db, org, adapter, gone.entityId, gone.entityType, at);
    if gone.entityType in tableOf {
      DeletionBuries(tableOf, db, org, adapter, gone.entityId, gone.entityType, at);
    }
    assert del.edges == EdgesBeforeInsert(tableOf, db, org, gone, at);
  }

  /**
   The edge table `after` is what an accepted merge makes of `mid`, the table `before` with the
   removed entity's edges buried: the moved edges and the merged edge are written, the rest stays.
   */
  ghost predicate EdgesMerged(
    before: map<EdgeKey, Edge>, mid: map<EdgeKey, Edge>, after: map<EdgeKey, Edge>, org: string, keep: string,
    remove: string, merged: EdgeRow, at: int)
  {
    && mid.Keys == before.Keys
    && (forall k :: k in after <==>
      k in before || k == merged.key || exists from :: MovedTo(before, org, keep, remove, from, k))
    && (forall k :: k in before && k != merged.key && !(exists from :: MovedTo(before, org, keep, remove, from, k)) ==>
      after[k] == mid[k])
    && after[merged.key] == Written(mid, merged)
    && (forall from, k :: MovedTo(before, org, keep, remove, from, k) ==>
      && k != merged.key
      && after[k] == Written(mid, RepointRow(Row(from, before[from]), keep, remove, at)))
  }

  lemma MergeSteps(
    tableOf: map<string, string>, db: Database, org: string, adapter: string, keepId: string, removeId: string,
    found: seq<EdgeRow>, at: int, kept: Link, gone: Link)
    requires MergeStarts(db, org, adapter, keepId, removeId, found, kept, gone) && kept.entityId != gone.entityId
    ensures var o := MergeEntity(tableOf, db, org, adapter, keepId, removeId, found, at);
      var mid := EdgesBeforeInsert(tableOf, db, org, gone, at);
      var d := Decode(kept.entityId, gone.entityId);
      && (o.Undirected? || o.Refused? || o.Done?)
      && (o.Undirected? <==> d.EmptyId?)
      && (d.Directed? ==>
           (o.Done? <==>
             DistinctKeys(MergeRows(found, org, adapter, kept.entityId, gone.entityId, kept.entityType, at))))
      && (!o.Done? ==> o.db.edges == mid)
      && (o.Done? ==>
           o.db.edges ==
             Upsert(mid, MergeRows(found, org, adapter, kept.entityId, gone.entityId, kept.entityType, at), TouchEdge))
  {
    DeletionBeforeMerge(tableOf, db, org, adapter, at, gone);
  }

  lemma MergeWrites(
    tableOf: map<string, string>, db: Database, org: string, adapter: string, keepId: string, removeId: string,
    found: seq<EdgeRow>, at: int, kept: Link, gone: Link)
    requires MergeStarts(db, org, adapter, keepId, removeId, found, kept, gone) && kept.entityId != gone.entityId
    requires MergeEntity(tableOf, db, org, adapter, keepId, removeId, found, at).Done?
    ensures Decode(kept.entityId, gone.entityId).Directed?
    ensures EdgesMerged(db.edges, EdgesBeforeInsert(tableOf, db, org, gone, at),
      MergeEntity(tableOf, db, org, adapter, keepId, removeId, found, at).db.edges, org, kept.entityId, gone.entityId,
      MergedRow(org, adapter, kept.entityId, gone.entityId, kept.entityType, at), at)
  {
    var mid := EdgesBeforeInsert(tableOf, db, org, gone, at);
    MergeSteps(tableOf, db, org, adapter, keepId, removeId, found, at, kept, gone);
    MergedEdgeKeys(mid, db, found, org, adapter, kept.entityId, gone.entityId, kept.entityType, at);
    MergedEdgeRows(mid, db, found, org, adapter, kept.entityId, gone.entityId, kept.entityType, at);
  }

  /**
   With both links live and different internal ids, the merge ends in one of three ways, each
   under its exact condition; in the two that fail, the removed entity is buried all the same
   and none of its edges is carried over.
   */
  lemma MergeOutcomes(
    tableOf: map<string, string>, db: Database, org: string, adapter: string, keepId: string, removeId: string,
    found: seq<EdgeRow>, at: int, kept: Link, gone: Link)
    requires MergeStarts(db, org, adapter, keepId, removeId, found, kept, gone) && kept.entityId != gone.entityId
    ensures var o := MergeEntity(tableOf, db, org, adapter, keepId, removeId, found, at);
      var clash := EdgesClash(db, org, kept.entityId, gone.entityId);
      && (o.Undirected? <==> kept.entityId == "" || gone.entityId == "")
      && (o.Refused? <==> !o.Undirected? && clash)
      && (o.Done? <==> !o.Undirected? && !clash)
      && (!o.Done? ==> EdgesBuried(db.edges, o.db.edges, org, gone.entityId, gone.entityType in tableOf, at))
    ensures OnlyBuried(db, MergeEntity(tableOf, db, org, adapter, keepId, removeId, found, at).db, org, adapter,
      gone.entityId, if gone.entityType in tableOf then Some(tableOf[gone.entityType]) else None, at)
  {
    MergeBuriesRemoved(tableOf, db, org, adapter, keepId, removeId, found, at);
    MergeSteps(tableOf, db, org, adapter, keepId, removeId, found, at, kept, gone);
    DecodeIsSymmetricAndIdempotent(kept.entityId, gone.entityId);
    if Decode(kept.entityId, gone.entityId).Directed? {
      BatchAcceptedIff(db, found, org, adapter, kept.entityId, gone.entityId, kept.entityType, at);
    }
  }

  /**
   Without a live link for the kept id, the removed entity is buried all the same: none of its
   edges is carried over, and with a table for its type each of them is dead.
   */
  lemma MergeWithoutKeptLink(
    tableOf: map<string, string>, db: Database, org: string, adapter: string, keepId: string, removeId: string,
    found: seq<EdgeRow>, at: int, gone: Link)
    requires LiveLink(db, org, adapter, keepId).None? && LiveLink(db, org, adapter, removeId) == Some(gone)
    ensures var o := MergeEntity(tableOf, db, org, adapter, keepId, removeId, found, at);
      && o.NothingToKeep? && EdgesBuried(db.edges, o.db.edges, org, gone.entityId, gone.entityType in tableOf, at)
      && OnlyBuried(db, o.db, org, adapter, gone.entityId,
           if gone.entityType in tableOf then Some(tableOf[gone.entityType]) else None, at)
  {
    DeletionInColumns(tableOf, db, org, adapter, gone.entityId, gone.entityType, at);
  }

  lemma TouchedKeepsTombstone(t: map<EdgeKey, Edge>, rows: seq<EdgeRow>, k: EdgeKey)
    requires DistinctKeys(rows) && k in t
    ensures k in Upsert(t, rows, TouchEdge) && Upsert(t, rows, TouchEdge)[k].deletedAt == t[k].deletedAt
  {
    if i :| 0 <= i < |rows| && rows[i].key == k {
      UpsertedRow(t, rows, TouchEdge, i);
    } else {
      OtherRow(t, rows, TouchEdge, k);
    }
  }

  /** What a self merge makes of the edges: those of the entity keep their tombstones, and the self edge is new. */
  lemma SelfMergeEdges(
    mid: map<EdgeKey, Edge>, db: Database, found: seq<EdgeRow>, org: string, adapter: string, id: string,
    entityType: string, at: int)
    requires id != "" && Found(db, org, id, found) && mid.Keys == db.edges.Keys
      && EdgeKey(org, id, id, MERGED) !in db.edges
    ensures var after := Upsert(mid, MergeRows(found, org, adapter, id, id, entityType, at), TouchEdge);
      var self := EdgeKey(org, id, id, MERGED);
      && after.Keys == mid.Keys + {self} && after[self].deletedAt.None?
      && forall k :: k in mid ==> after[k].deletedAt == mid[k].deletedAt
  {
    var rows := MergeRows(found, org, adapter, id, id, entityType, at);
    SelfMergeAcceptedIff(db, found, org, adapter, id, entityType, at);
    SelfMergeKeys(mid, db, found, org, adapter, id, entityType, at);
    UpsertedRow(mid, rows, TouchEdge, |found|);
    forall k | k in mid
      ensures k in Upsert(mid, rows, TouchEdge) && Upsert(mid, rows, TouchEdge)[k].deletedAt == mid[k].deletedAt
    {
      TouchedKeepsTombstone(mid, rows, k);
    }
  }

  lemma SelfMergeKeys(
    mid: map<EdgeKey, Edge>, db: Database, found: seq<EdgeRow>, org: string, adapter: string, id: string,
    entityType: string, at: int)
    requires id != "" && Found(db, org, id, found) && mid.Keys == db.edges.Keys
    requires DistinctKeys(MergeRows(found, org, adapter, id, id, entityType, at))
    ensures Upsert(mid, MergeRows(found, org, adapter, id, id, entityType, at), TouchEdge).Keys
      == mid.Keys + {EdgeKey(org, id, id, MERGED)}
  {
    var rows, self := MergeRows(found, org, adapter, id, id, entityType, at), EdgeKey(org, id, id, MERGED);
    EdgeBatchKeys(mid, rows);
    assert rows[|found|].key == self && HasKey(rows, self);
    forall k | HasKey(rows, k)
      ensures k in mid || k == self
    {
      var i :| 0 <= i < |rows| && rows[i].key == k;
      assert i < |found| ==> rows[i].key == found[i].key;
    }
  }

  /** All that is known of the entity is dead, but for its "merged" self edge. */
  ghost predicate Buried(
    db: Database, after: Database, org: string, adapter: string, id: string, table: string, at: int)
  {
    && (forall k :: k in db.links && k.org == org && k.adapter == adapter && db.links[k].entityId == id ==>
         k in after.links && after.links[k].deletedAt == Some(at))
    && (EntityKey(table, id) in db.entities ==>
         EntityKey(table, id) in after.entities && after.entities[EntityKey(table, id)].deletedAt == Some(at))
    && (forall k :: k in after.edges && Touches(k, org, id) && after.edges[k].deletedAt.None? ==>
      k == EdgeKey(org, id, id, MERGED))
  }

  lemma DeletedIsBuried(
    tableOf: map<string, string>, db: Database, org: string, adapter: string, id: string, entityType: string, at: int)
    requires entityType in tableOf
    ensures var mid := DeleteEntityId(tableOf, db, org, adapter, id, entityType, at);
      Buried(db, mid, org, adapter, id, tableOf[entityType], at) && mid.edges.Keys == db.edges.Keys
  {
    DeletionBuries(tableOf, db, org, adapter, id, entityType, at);
  }

  /** The edges gain one between the entity and itself, and keep their tombstones. */
  ghost predicate GainsSelfEdge(mid: Database, after: Database, org: string, id: string) {
    var self := EdgeKey(org, id, id, MERGED);
    && after == mid.(edges := after.edges)
    && after.edges.Keys == mid.edges.Keys + {self} && after.edges[self].deletedAt.None?
    && forall k :: k in mid.edges ==> after.edges[k].deletedAt == mid.edges[k].deletedAt
  }

  lemma StaysBuried(
    db: Database, mid: Database, after: Database, org: string, adapter: string, id: string, table: string, at: int)
    requires Buried(db, mid, org, adapter, id, table, at) && GainsSelfEdge(mid, after, org, id)
    ensures Buried(db, after, org, adapter, id, table, at)
  {
  }

  lemma SelfInsertOutcomes(
    mid: Database, db: Database, org: string, adapter: string, kept: Link, gone: Link, found: seq<EdgeRow>, at: int)
    requires kept.entityId == gone.entityId && Found(db, org, gone.entityId, found) && mid.edges.Keys == db.edges.Keys
    ensures var o, id := InsertMergedEdges(mid, org, adapter, kept, gone, found, at), gone.entityId;
      && (o.Undirected? <==> id == "")
      && (o.Refused? <==> id != "" && EdgeKey(org, id, id, MERGED) in db.edges)
      && (o.Done? <==> id != "" && EdgeKey(org, id, id, MERGED) !in db.edges)
      && (!o.Done? ==> o.db == mid) && (o.Done? ==> GainsSelfEdge(mid, o.db, org, id))
  {
    var id := gone.entityId;
    DecodeIsSymmetricAndIdempotent(id, id);
    if id != "" {
      SelfMergeAcceptedIff(db, found, org, adapter, id, kept.entityType, at);
      if EdgeKey(org, id, id, MERGED) !in db.edges {
        SelfMergeEdges(mid.edges, db, found, org, adapter, id, kept.entityType, at);
      }
    }
  }

  /**
   Merging two external ids that name one entity: it reports success unless the entity has a
   "merged" self edge already, and then leaves it such an edge, alive, on top of the deletion.
   */
  lemma SelfMergeOutcomes(
    tableOf: map<string, string>, db: Database, org: string, adapter: string, keepId: string, removeId: string,
    found: seq<EdgeRow>, at: int, kept: Link, gone: Link)
    requires MergeStarts(db, org, adapter, keepId, removeId, found, kept, gone) && kept.entityId == gone.entityId
    ensures var o, id := MergeEntity(tableOf, db, org, adapter, keepId, removeId, found, at), gone.entityId;
      var mid := DeleteEntityId(tableOf, db, org, adapter, id, gone.entityType, at);
      && (o.Undirected? <==> id == "")
      && (o.Refused? <==> id != "" && EdgeKey(org, id, id, MERGED) in db.edges)
      && (o.Done? <==> id != "" && EdgeKey(org, id, id, MERGED) !in db.edges)
      && (!o.Done? ==> o.db == mid) && (o.Done? ==> GainsSelfEdge(mid, o.db, org, id))
  {
    var mid := DeleteEntityId(tableOf, db, org, adapter, gone.entityId, gone.entityType, at);
    DeletionBeforeMerge(tableOf, db, org, adapter, at, gone);
    assert mid.edges.Keys == db.edges.Keys;
    SelfInsertOutcomes(mid, db, org, adapter, kept, gone, found, at);
  }

  /**
   However it ends, and with nothing left to carry them over to, it buries the entity when its type
   has a table: its links, the two external ids among them, its row and its edges.
   */
  lemma SelfMergeBuries(
    tableOf: map<string, string>, db: Database, org: string, adapter: string, keepId: string, removeId: string,
    found: seq<EdgeRow>, at: int, kept: Link, gone: Link)
    requires MergeStarts(db, org, adapter, keepId, removeId, found, kept, gone) && kept.entityId == gone.entityId
    requires gone.entityType in tableOf
    ensures Buried(db, MergeEntity(tableOf, db, org, adapter, keepId, removeId, found, at).db,
      org, adapter, gone.entityId, tableOf[gone.entityType], at)
    ensures LiveLink(MergeEntity(tableOf, db, org, adapter, keepId, removeId, found, at).db, org, adapter, keepId).None?
  {
    var id, mid := gone.entityId, DeleteEntityId(tableOf, db, org, adapter, gone.entityId, gone.entityType, at);
    var after := MergeEntity(tableOf, db, org, adapter, keepId, removeId, found, at).db;
    SelfMergeOutcomes(tableOf, db, org, adapter, keepId, removeId, found, at, kept, gone);
    DeletedIsBuried(tableOf, db, org, adapter, id, gone.entityType, at);
    if after != mid {
      StaysBuried(db, mid, after, org, adapter, id, tableOf[gone.entityType], at);
    }
  }

  /** The stored edge as the insert of a merge finds it. */
  ghost predicate FoundAs(
    before: map<EdgeKey, Edge>, k: EdgeKey, org: string, remove: string, buries: bool, at: int, e: Edge)
  {
    && k in before
    && e == if buries && k.org == org && remove in {k.source, k.target}
       then before[k].(deletedAt := Some(at), deletedBy := Some("sync_deletion_detection"))
       else before[k]
  }

  /**
   Where an edge of the removed entity goes, and what it leaves there column by column: to the kept
   entity by its source, or by its target if only that is the removed one. On a free key it is as it
   was, but for who created it, when, and the time of its update; on a taken one only the metadata
   and that time are taken from it.
   */
  ghost predicate EdgeMoved(
    before: map<EdgeKey, Edge>, after: map<EdgeKey, Edge>, org: string, keep: string, remove: string, buries: bool,
    at: int, k: EdgeKey)
    requires k in before
  {
    var moved := if k.source == remove then EdgeKey(org, keep, k.target, k.relationshipType)
                 else EdgeKey(org, k.source, keep, k.relationshipType);
    && moved in after
    && (moved !in before ==>
         after[moved] == before[k].(createdAt := at, createdBy := Some("sync_merging"), updatedAt := Some(at)))
    && (moved in before ==>
         exists e :: FoundAs(before, moved, org, remove, buries, at, e)
           && after[moved] == e.(metadata := before[k].metadata, updatedAt := Some(at)))
  }

  ghost predicate MovedInColumns(
    before: map<EdgeKey, Edge>, after: map<EdgeKey, Edge>, org: string, keep: string, remove: string, buries: bool,
    at: int)
  {
    forall k :: k in before && k.org == org && remove in {k.source, k.target} ==>
      EdgeMoved(before, after, org, keep, remove, buries, at, k)
  }

  /** The merged edge: from one entity to the other, and which of them was kept. */
  ghost predicate MergedInColumns(
    before: map<EdgeKey, Edge>, after: map<EdgeKey, Edge>, org: string, adapter: string, d: Direction, keep: string,
    remove: string, entityType: string, buries: bool, at: int)
  {
    && d.Directed? && {d.source, d.target} == {keep, remove}
    && var k := EdgeKey(org, d.source, d.target, "merged");
       var metadata :=
         map["keepId" := keep, "removeId" := remove, "relationshipKey" := entityType, "source" := adapter + "_merging"];
       && k in after
       && (k !in before ==>
            after[k] == Edge(entityType, entityType, metadata, at, Some("sync_merging"), Some(at), Some("sync_merging"),
              None, None))
       && (k in before ==>
            exists e :: FoundAs(before, k, org, remove, buries, at, e)
              && after[k] == e.(metadata := metadata, updatedAt := Some(at)))
  }

  lemma FoundInMid(before: map<EdgeKey, Edge>, k: EdgeKey, org: string, remove: string, buries: bool, at: int)
    requires k in before
    ensures FoundAs(before, k, org, remove, buries, at, BuriedEdges(before, org, remove, buries, at)[k])
  {
  }

  lemma WrittenEdgeMoved(
    before: map<EdgeKey, Edge>, after: map<EdgeKey, Edge>, org: string, keep: string, remove: string, merged: EdgeRow,
    buries: bool, at: int, k: EdgeKey)
    requires EdgesMerged(before, BuriedEdges(before, org, remove, buries, at), after, org, keep, remove, merged, at)
    requires k in before && k.org == org && remove in {k.source, k.target}
    ensures EdgeMoved(before, after, org, keep, remove, buries, at, k)
  {
    var moved := Repoint(k, keep, remove);
    assert MovedTo(before, org, keep, remove, k, moved);
    if moved in before {
      FoundInMid(before, moved, org, remove, buries, at);
    }
  }

  lemma EndsAreBoth(a: string, b: string)
    requires Decode(a, b).Directed?
    ensures {Decode(a, b).source, Decode(a, b).target} == {a, b}
  {
    var d := Decode(a, b);
    DecodeIsSymmetricAndIdempotent(a, b);
    assert d.source in multiset{a, b} && d.target in multiset{a, b};
    assert a in multiset{d.source, d.target} && b in multiset{d.source, d.target};
  }

  lemma WrittenMergedEdge(
    before: map<EdgeKey, Edge>, after: map<EdgeKey, Edge>, org: string, adapter: string, keep: string, remove: string,
    entityType: string, buries: bool, at: int)
    requires Decode(keep, remove).Directed?
    requires var row := MergedRow(org, adapter, keep, remove, entityType, at);
      row.key in after && after[row.key] == Written(BuriedEdges(before, org, remove, buries, at), row)
    ensures MergedInColumns(before, after, org, adapter, Decode(keep, remove), keep, remove, entityType, buries, at)
  {
    var k := MergedKey(org, Decode(keep, remove));
    EndsAreBoth(keep, remove);
    if k in before {
      FoundInMid(before, k, org, remove, buries, at);
    }
  }

  /**
   A merge that is carried out keeps every relationship: each edge of either entity has its
   counterpart on the kept one (a self edge of the removed entity moves by one end only), no
   edge comes from nowhere, and edges that touch neither entity are untouched.
   */
  lemma MergeCarriesRelationships(
    tableOf: map<string, string>, db: Database, org: string, adapter: string, keepId: string, removeId: string,
    found: seq<EdgeRow>, at: int, kept: Link, gone: Link)
    requires MergeStarts(db, org, adapter, keepId, removeId, found, kept, gone) && kept.entityId != gone.entityId
    requires MergeEntity(tableOf, db, org, adapter, keepId, removeId, found, at).Done?
    ensures Decode(kept.entityId, gone.entityId).Directed?
    ensures var after := MergeEntity(tableOf, db, org, adapter, keepId, removeId, found, at).db.edges;
      var keep, remove, buries := kept.entityId, gone.entityId, gone.entityType in tableOf;
      && Carried(db.edges, after, org, keep, remove, MergedKey(org, Decode(keep, remove)))
      && MovedInColumns(db.edges, after, org, keep, remove, buries, at)
      && MergedInColumns(db.edges, after, org, adapter, Decode(keep, remove), keep, remove, kept.entityType, buries, at)
  {
    WrittenByMerge(tableOf, db, org, adapter, keepId, removeId, found, at, kept, gone);
    MergeWrites(tableOf, db, org, adapter, keepId, removeId, found, at, kept, gone);
    WrittenEdgesCarry(db.edges, EdgesBeforeInsert(tableOf, db, org, gone, at),
      MergeEntity(tableOf, db, org, adapter, keepId, removeId, found, at).db.edges, org, kept.entityId, gone.entityId,
      MergedRow(org, adapter, kept.entityId, gone.entityId, kept.entityType, at), gone.entityType in tableOf, at);
  }

  lemma WrittenByMerge(
    tableOf: map<string, string>, db: Database, org: string, adapter: string, keepId: string, removeId: string,
    found: seq<EdgeRow>, at: int, kept: Link, gone: Link)
    requires MergeStarts(db, org, adapter, keepId, removeId, found, kept, gone) && kept.entityId != gone.entityId
    requires MergeEntity(tableOf, db, org, adapter, keepId, removeId, found, at).Done?
    ensures var after := MergeEntity(tableOf, db, org, adapter, keepId, removeId, found, at).db.edges;
      var keep, remove, buries := kept.entityId, gone.entityId, gone.entityType in tableOf;
      && MovedInColumns(db.edges, after, org, keep, remove, buries, at)
      && MergedInColumns(db.edges, after, org, adapter, Decode(keep, remove), keep, remove, kept.entityType, buries, at)
  {
    var keep, remove, buries := kept.entityId, gone.entityId, gone.entityType in tableOf;
    var after := MergeEntity(tableOf, db, org, adapter, keepId, removeId, found, at).db.edges;
    MergeWrites(tableOf, db, org, adapter, keepId, removeId, found, at, kept, gone);
    WrittenMergedEdge(db.edges, after, org, adapter, keep, remove, kept.entityType, buries, at);
    forall k | k in db.edges && k.org == org && remove in {k.source, k.target}
      ensures EdgeMoved(db.edges, after, org, keep, remove, buries, at, k)
    {
      WrittenEdgeMoved(
        db.edges, after, org, keep, remove, MergedRow(org, adapter, keep, remove, kept.entityType, at), buries, at, k);
    }
  }

  ghost predicate Carried(
    before: map<EdgeKey, Edge>, after: map<EdgeKey, Edge>, org: string, keep: string, remove: string, merged: EdgeKey)
  {
    && (forall k :: k in before ==> k in after)
    && (forall k ::
      k in before && (Touches(k, org, keep) || Touches(k, org, remove)) && !(k.source == k.target == remove) ==>
        Renamed(k, keep, remove) in after)
    && (forall k :: k in after ==>
      k in before || k == merged || exists from :: MovedTo(before, org, keep, remove, from, k))
    && merged in after
    && (forall k :: k in before && !Touches(k, org, keep) && !Touches(k, org, remove) ==> after[k] == before[k])
  }

  lemma WrittenEdgesCarry(
    before: map<EdgeKey, Edge>, mid: map<EdgeKey, Edge>, after: map<EdgeKey, Edge>, org: string, keep: string,
    remove: string, merged: EdgeRow, buries: bool, at: int)
    requires keep != remove && Decode(keep, remove).Directed? && merged.key == MergedKey(org, Decode(keep, remove))
    requires mid == BuriedEdges(before, org, remove, buries, at)
    requires EdgesMerged(before, mid, after, org, keep, remove, merged, at)
    ensures Carried(before, after, org, keep, remove, merged.key)
  {
    DecodeIsSymmetricAndIdempotent(keep, remove);
    forall k | k in before && Touches(k, org, remove) && !(k.source == k.target == remove)
      ensures Renamed(k, keep, remove) in after
    {
      assert MovedTo(before, org, keep, remove, k, Renamed(k, keep, remove));
    }
  }

  /**
   What lives and what is dead after a merge. A moved edge whose key was free is as alive as
   the edge it came from; one whose key was taken leaves the stored row's tombstone as it was;
   and when the removed entity's type has a table, an edge that still touches it is dead unless
   it is the new merged edge or comes from a self edge.
   */
  lemma MergeLiveness(
    tableOf: map<string, string>, db: Database, org: string, adapter: string, keepId: string, removeId: string,
    found: seq<EdgeRow>, at: int, kept: Link, gone: Link)
    requires MergeStarts(db, org, adapter, keepId, removeId, found, kept, gone) && kept.entityId != gone.entityId
    requires MergeEntity(tableOf, db, org, adapter, keepId, removeId, found, at).Done?
    ensures Decode(kept.entityId, gone.entityId).Directed?
    ensures var after := MergeEntity(tableOf, db, org, adapter, keepId, removeId, found, at).db.edges;
      MovedAlive(db.edges, EdgesBeforeInsert(tableOf, db, org, gone, at), after, org, kept.entityId, gone.entityId)
      && (gone.entityType in tableOf ==>
           OnlyMergedEdgeLives(db.edges, after, org, kept.entityId, gone.entityId,
             MergedKey(org, Decode(kept.entityId, gone.entityId))))
  {
    MergeWrites(tableOf, db, org, adapter, keepId, removeId, found, at, kept, gone);
    WrittenEdgesLive(db.edges, EdgesBeforeInsert(tableOf, db, org, gone, at),
      MergeEntity(tableOf, db, org, adapter, keepId, removeId, found, at).db.edges, org, kept.entityId, gone.entityId,
      MergedRow(org, adapter, kept.entityId, gone.entityId, kept.entityType, at), gone.entityType in tableOf, at);
  }

  ghost predicate MovedAlive(
    before: map<EdgeKey, Edge>, mid: map<EdgeKey, Edge>, after: map<EdgeKey, Edge>, org: string, keep: string,
    remove: string)
  {
    && mid.Keys == before.Keys
    && (forall from, k :: MovedTo(before, org, keep, remove, from, k) ==>
      k in after && after[k].deletedAt == (if k in before then mid[k].deletedAt else before[from].deletedAt))
    && (forall k :: k in before && !Touches(k, org, remove) ==>
      k in after && after[k] == before[k].(metadata := after[k].metadata, updatedAt := after[k].updatedAt))
  }

  ghost predicate OnlyMergedEdgeLives(
    before: map<EdgeKey, Edge>, after: map<EdgeKey, Edge>, org: string, keep: string, remove: string, merged: EdgeKey)
  {
    forall k :: k in after && Touches(k, org, remove) && after[k].deletedAt.None? ==>
      k == merged || (exists t :: MovedTo(before, org, keep, remove, EdgeKey(org, remove, remove, t), k))
  }

  lemma WrittenEdgesLive(
    before: map<EdgeKey, Edge>, mid: map<EdgeKey, Edge>, after: map<EdgeKey, Edge>, org: string, keep: string,
    remove: string, merged: EdgeRow, buries: bool, at: int)
    requires keep != remove && Decode(keep, remove).Directed? && merged.key == MergedKey(org, Decode(keep, remove))
    requires mid == BuriedEdges(before, org, remove, buries, at)
    requires EdgesMerged(before, mid, after, org, keep, remove, merged, at)
    ensures MovedAlive(before, mid, after, org, keep, remove)
    ensures buries ==> OnlyMergedEdgeLives(before, after, org, keep, remove, merged.key)
  {
    DecodeIsSymmetricAndIdempotent(keep, remove);
    forall k | k in before && !Touches(k, org, remove)
      ensures k in after && after[k] == before[k].(metadata := after[k].metadata, updatedAt := after[k].updatedAt)
    {
      if from :| MovedTo(before, org, keep, remove, from, k) {
      }
    }
    if buries {
      forall k | k in after && Touches(k, org, remove) && after[k].deletedAt.None? && k != merged.key
        ensures exists t :: MovedTo(before, org, keep, remove, EdgeKey(org, remove, remove, t), k)
      {
        var from :| MovedTo(before, org, keep, remove, from, k);
        assert from == EdgeKey(org, remove, remove, from.relationshipType);
      }
    }
  }

  // ----- orientation

  ghost predicate AllCanonical(edges: map<EdgeKey, Edge>, org: string) {
    forall k :: k in edges && k.org == org ==> Canonical(k.source, k.target)
  }

  /** The neighbour is on the same side of the kept entity as it is of the removed one. */
  predicate SameSide(keep: string, remove: string, neighbour: string) {
    if neighbour == keep then true
    else if neighbour == remove then Before(keep, remove)
    else Before(remove, neighbour) == Before(keep, neighbour)
  }

  function OtherEnd(k: EdgeKey, id: string): (end: string) {
    if k.source == id then k.target else k.source
  }

  lemma RepointedIsCanonicalIff(k: EdgeKey, keep: string, remove: string)
    requires keep != remove && keep != "" && remove != ""
    requires (k.source == remove || k.target == remove) && Canonical(k.source, k.target)
    ensures var k' := Repoint(k, keep, remove);
      Canonical(k'.source, k'.target) <==> SameSide(keep, remove, OtherEnd(k, remove))
  {
    var x := OtherEnd(k, remove);
    DecodeIsSymmetricAndIdempotent(keep, x);
    DecodeIsSymmetricAndIdempotent(remove, x);
  }

  /**
   A merge keeps the edge table oriented exactly when every neighbour of the removed entity is
   on the same side of both entities in the direction order.
   */
  lemma MergeKeepsOrientationIff(
    tableOf: map<string, string>, db: Database, org: string, adapter: string, keepId: string, removeId: string,
    found: seq<EdgeRow>, at: int, kept: Link, gone: Link)
    requires MergeStarts(db, org, adapter, keepId, removeId, found, kept, gone) && kept.entityId != gone.entityId
    requires MergeEntity(tableOf, db, org, adapter, keepId, removeId, found, at).Done?
    requires AllCanonical(db.edges, org)
    ensures AllCanonical(MergeEntity(tableOf, db, org, adapter, keepId, removeId, found, at).db.edges, org) <==>
      forall k :: k in db.edges && Touches(k, org, gone.entityId) ==>
        SameSide(kept.entityId, gone.entityId, OtherEnd(k, gone.entityId))
  {
    MergeWrites(tableOf, db, org, adapter, keepId, removeId, found, at, kept, gone);
    WrittenEdgesOriented(db.edges, EdgesBeforeInsert(tableOf, db, org, gone, at),
      MergeEntity(tableOf, db, org, adapter, keepId, removeId, found, at).db.edges, org, kept.entityId, gone.entityId,
      MergedRow(org, adapter, kept.entityId, gone.entityId, kept.entityType, at), at);
  }

  lemma WrittenEdgesOriented(
    before: map<EdgeKey, Edge>, mid: map<EdgeKey, Edge>, after: map<EdgeKey, Edge>, org: string, keep: string,
    remove: string, merged: EdgeRow, at: int)
    requires keep != remove && Decode(keep, remove).Directed? && merged.key == MergedKey(org, Decode(keep, remove))
    requires EdgesMerged(before, mid, after, org, keep, remove, merged, at) && AllCanonical(before, org)
    ensures AllCanonical(after, org) <==>
      forall k :: k in before && Touches(k, org, remove) ==> SameSide(keep, remove, OtherEnd(k, remove))
  {
    DecodeIsSymmetricAndIdempotent(keep, remove);
    forall from | from in before && Touches(from, org, remove)
      ensures Repoint(from, keep, remove) in after
      ensures Canonical(Repoint(from, keep, remove).source, Repoint(from, keep, remove).target)
         <==> SameSide(keep, remove, OtherEnd(from, remove))
    {
      assert MovedTo(before, org, keep, remove, from, Repoint(from, keep, remove));
      RepointedIsCanonicalIff(from, keep, remove);
    }
  }

  // ----- one merge can make the next one fail

  lemma {:induction false} FoundAmong(db: Database, org: string, id: string, keys: set<EdgeKey>)
    returns (found: seq<EdgeRow>)
    requires keys <= db.edges.Keys && forall k :: k in keys ==> Touches(k, org, id)
    ensures DistinctKeys(found)
    ensures forall i :: 0 <= i < |found| ==> found[i].key in keys && found[i].value == db.edges[found[i].key]
    ensures forall k :: k in keys ==> HasKey(found, k)
  {
    found := [];
    if keys != {} {
      var k :| k in keys;
      var rest := FoundAmong(db, org, id, keys - {k});
      found := [Row(k, db.edges[k])] + rest;
      forall k' | k' in keys
        ensures HasKey(found, k')
      {
        if k' == k {
          assert found[0].key == k;
        } else {
          assert k' in keys - {k} && HasKey(rest, k');
          var i :| 0 <= i < |rest| && rest[i].key == k';
          assert found[i + 1].key == k';
        }
      }
    }
  }

  /** The select of a merge always finds the edges, in some order. */
  lemma FoundExists(db: Database, org: string, id: string) returns (found: seq<EdgeRow>)
    ensures Found(db, org, id, found)
  {
    found := FoundAmong(db, org, id, set k | k in db.edges && Touches(k, org, id));
    forall k | k in db.edges && Touches(k, org, id)
      ensures exists i :: 0 <= i < |found| && found[i].key == k
    {
      assert HasKey(found, k);
    }
  }

  /** Every edge of the org is oriented, and none leads from an entity to itself. */
  predicate Oriented(db: Database, org: string) {
    forall k :: k in db.edges && k.org == org ==> Canonical(k.source, k.target) && k.source != k.target
  }

  /**
   In a database whose edges are all oriented, merging an entity into another carries through.
   But when it was related to a third one, and the third to the kept one, by one type of edge,
   the third is then joined to the kept one both ways, so merging it too is refused.
   */
  lemma SecondMergeIsRefused(
    tableOf: map<string, string>, db: Database, org: string, adapter: string, keepId: string, firstId: string,
    secondId: string, at: int,
    kept: Link, first: Link, second: Link, t: string, found: seq<EdgeRow>, found': seq<EdgeRow>)
    requires Oriented(db, org) && MergeStarts(db, org, adapter, keepId, firstId, found, kept, first)
    requires LiveLink(db, org, adapter, secondId) == Some(second)
    requires kept.entityId != first.entityId && second.entityId != first.entityId && kept.entityId != ""
      && first.entityId != ""
    requires EdgeKey(org, first.entityId, second.entityId, t) in db.edges
      && EdgeKey(org, second.entityId, kept.entityId, t) in db.edges
    ensures var o := MergeEntity(tableOf, db, org, adapter, keepId, firstId, found, at);
      && o.Done?
      && (Found(o.db, org, second.entityId, found') ==>
        MergeEntity(tableOf, o.db, org, adapter, keepId, secondId, found', at).Refused?)
  {
    var o := MergeEntity(tableOf, db, org, adapter, keepId, firstId, found, at);
    DecodeIsSymmetricAndIdempotent(kept.entityId, first.entityId);
    OrientedEdgesMerge(db, found, org, adapter, kept.entityId, first.entityId, kept.entityType, at);
    MergeSteps(tableOf, db, org, adapter, keepId, firstId, found, at, kept, first);
    MergeCarriesRelationships(tableOf, db, org, adapter, keepId, firstId, found, at, kept, first);
    MergeKeepsOtherLinks(tableOf, db, org, adapter, keepId, firstId, found, at, first, keepId);
    MergeKeepsOtherLinks(tableOf, db, org, adapter, keepId, firstId, found, at, first, secondId);
    var k := EdgeKey(org, first.entityId, second.entityId, t);
    assert Renamed(k, kept.entityId, first.entityId) == EdgeKey(org, kept.entityId, second.entityId, t);
    assert JoinedBothWays(o.db, org, kept.entityId, second.entityId);
    if Found(o.db, org, second.entityId, found') {
      assert MergeStarts(o.db, org, adapter, keepId, secondId, found', kept, second);
      assert Canonical(second.entityId, kept.entityId);
      MergeOutcomes(tableOf, o.db, org, adapter, keepId, secondId, found', at, kept, second);
    }
  }

  /** A merge leaves the live links of other entities alone. */
  lemma MergeKeepsOtherLinks(
    tableOf: map<string, string>, db: Database, org: string, adapter: string, keepId: string, removeId: string,
    found: seq<EdgeRow>, at: int, gone: Link, other: string)
    requires LiveLink(db, org, adapter, removeId) == Some(gone)
    requires LiveLink(db, org, adapter, other).Some?
      && LiveLink(db, org, adapter, other).value.entityId != gone.entityId
    ensures LiveLink(MergeEntity(tableOf, db, org, adapter, keepId, removeId, found, at).db, org, adapter, other)
      == LiveLink(db, org, adapter, other)
  {
    if gone.entityType in tableOf {
      DeletionBuries(tableOf, db, org, adapter, gone.entityId, gone.entityType, at);
    }
  }

  // ----- and such a database is reached from an empty one

  const EMPTY := Database(map[], map[], map[], map[])

  function LinkTo(org: string, adapter: string, id: string, tag: string): (r: Row<LinkKey, Link>) {
    Row(LinkKey(org, adapter, id), Link(id, tag, 0, Some(0), 0, None, None))
  }

  function EdgeBetween(org: string, source: string, target: string, tag: string): (r: EdgeRow) {
    Row(EdgeKey(org, source, target, tag + Middle("x") + tag),
      Edge(tag, tag, map[], 0, None, Some(0), None, None, None))
  }

  /**
   Three linked entities in the order of the direction convention, the first related to the second
   and the second to the third.
   */
  function ChainOfThree(
    org: string, adapter: string, x: string, y: string, z: string, tag: string): (ss: seq<Statement>)
  {
    [UpsertEntityLinks(ChainLinks(org, adapter, x, y, z, tag)), UpsertEdges(ChainEdges(org, x, y, z, tag))]
  }

  function ChainLinks(
    org: string, adapter: string, x: string, y: string, z: string, tag: string): (rows: seq<Row<LinkKey, Link>>)
  {
    [LinkTo(org, adapter, x, tag), LinkTo(org, adapter, y, tag), LinkTo(org, adapter, z, tag)]
  }

  function ChainEdges(org: string, x: string, y: string, z: string, tag: string): (rows: seq<EdgeRow>) {
    [EdgeBetween(org, x, y, tag), EdgeBetween(org, y, z, tag)]
  }

  lemma ChainLinksAreStored(org: string, adapter: string, x: string, y: string, z: string, tag: string, i: nat)
    requires x != y && y != z && x != z && i < 3
    ensures var rows := ChainLinks(org, adapter, x, y, z, tag);
      var after := Upsert(map[], rows, TouchLink);
      rows[i].key in after && after[rows[i].key] == rows[i].value
  {
    UpsertedRow(map[], ChainLinks(org, adapter, x, y, z, tag), TouchLink, i);
  }

  lemma ChainIsStored(org: string, adapter: string, x: string, y: string, z: string, tag: string)
    requires x != y && y != z && x != z
    ensures var db := Run(EMPTY, ChainOfThree(org, adapter, x, y, z, tag));
      && (forall id :: id in {x, y, z} ==> LiveLink(db, org, adapter, id) == Some(LinkTo(org, adapter, id, tag).value))
      && (forall k :: k in db.edges <==> k == EdgeBetween(org, x, y, tag).key || k == EdgeBetween(org, y, z, tag).key)
  {
    var links, edges := ChainLinks(org, adapter, x, y, z, tag), ChainEdges(org, x, y, z, tag);
    RunThree(EMPTY, UpsertEntityLinks(links), UpsertEdges(edges), UpsertEdges(edges));
    ChainLinksAreStored(org, adapter, x, y, z, tag, 0);
    ChainLinksAreStored(org, adapter, x, y, z, tag, 1);
    ChainLinksAreStored(org, adapter, x, y, z, tag, 2);
    EdgeBatchKeys(map[], edges);
    assert edges[0].key == EdgeBetween(org, x, y, tag).key && edges[1].key == EdgeBetween(org, y, z, tag).key;
  }

  /**
   So a merge that is refused is reached from an empty database by the statements of a sync and one
   merge, for any such entities.
   */
  lemma RefusedMergeIsReached(
    tableOf: map<string, string>, org: string, adapter: string, x: string, y: string, z: string, tag: string, at: int)
    returns (found: seq<EdgeRow>, found': seq<EdgeRow>)
    requires Before(x, y) && Before(y, z)
    ensures var db := Run(EMPTY, ChainOfThree(org, adapter, x, y, z, tag));
      var o := MergeEntity(tableOf, db, org, adapter, z, x, found, at);
      && Found(db, org, x, found) && o.Done?
      && Found(o.db, org, y, found') && MergeEntity(tableOf, o.db, org, adapter, z, y, found', at).Refused?
  {
    var db := Run(EMPTY, ChainOfThree(org, adapter, x, y, z, tag));
    BeforeIsStrictTotalOrder(x, y, z);
    BeforeIsStrictTotalOrder(x, z, x);
    ChainIsStored(org, adapter, x, y, z, tag);
    found := FoundExists(db, org, x);
    found' := FoundExists(MergeEntity(tableOf, db, org, adapter, z, x, found, at).db, org, y);
    SecondMergeIsRefused(tableOf, db, org, adapter, z, x, y, at,
      LinkTo(org, adapter, z, tag).value, LinkTo(org, adapter, x, tag).value, LinkTo(org, adapter, y, tag).value,
      tag + Middle("x") + tag, found, found');
  }
}
