/**
 The registry of related entity types and its agreement with the edge table, over every run
 of seeding, relationship processing, merging, deleting and any other statement.
 */
module Registry {
  import opened EdgeDirection
  import opened Merge
  import opened RelationshipUtils
  import opened Seqs
  import opened Tables
  import opened Wrappers

  datatype RelationshipInput = RelationshipInput(
    sourceId: string, sourceTag: string, targetId: string, targetTag: string, relationshipType: string,
    metadata: Option<map<string, string>>, createdAt: int, createdBy: Option<string>,
    updatedAt: Option<int>, updatedBy: Option<string>, deletedAt: Option<int>, deletedBy: Option<string>)

  function EdgeRowOf(org: string, r: RelationshipInput): (row: EdgeRow) {
    Row(EdgeKey(org, r.sourceId, r.targetId, r.relationshipType),
      Edge(r.sourceTag, r.targetTag, r.metadata.GetOr(map[]), r.createdAt, r.createdBy, r.updatedAt, r.updatedBy,
        r.deletedAt, r.deletedBy))
  }

  function EdgeRowsOf(org: string, rs: seq<RelationshipInput>): (rows: seq<EdgeRow>) {
    Map((r: RelationshipInput) => EdgeRowOf(org, r), rs)
  }

  /** The type-level relationships of a batch of edges: one input per source tag. */
  function TypesOf(rs: seq<RelationshipInput>): (rels: seq<Input>) {
    Map((s: string) => Input(s, TargetTags(rs, s)), GroupKeys(rs, (r: RelationshipInput) => r.sourceTag))
  }

  function TargetTags(rs: seq<RelationshipInput>, source: string): (ts: seq<string>) {
    Dedupe(Map((r: RelationshipInput) => r.targetTag, ItemsOf(rs, (r: RelationshipInput) => r.sourceTag, source)))
  }

  function RegistryRows(org: string, gs: seq<Grouped>): (rows: seq<Row<RegistryKey, set<string>>>) {
    Map((g: Grouped) => Row(RegistryKey(org, g.source), set t | t in g.targets), gs)
  }

  function RegistryBatch(org: string, rels: seq<Input>, keys: seq<string>): (rows: seq<Row<RegistryKey, set<string>>>)
    requires Enumerates(keys, Keys(rels))
  {
    RegistryRows(org, GroupPairsBySource(ExpandBidirectionalPairs(rels, keys)))
  }

  /** updateEntityRelationshipsForOrgE, for one enumeration of the hash set of pairs. */
  function UpdateRegistry(db: Database, org: string, rels: seq<Input>, keys: seq<string>): (db': Database)
    requires Enumerates(keys, Keys(rels))
  {
    if rels == [] then db
    else Exec(db, UpsertRegistry(RegistryBatch(org, rels, keys)))
  }

  lemma UpdateRegistryIsUpsert(db: Database, org: string, rels: seq<Input>, keys: seq<string>)
    requires Enumerates(keys, Keys(rels))
    ensures UpdateRegistry(db, org, rels, keys) ==
      db.(registry :=
        if rels == [] then db.registry else Upsert(db.registry, RegistryBatch(org, rels, keys), UniteTargets))
  {
  }

  /** processRelationships: the edges first; the registry only when they were accepted. */
  function ProcessRelationships(db: Database, org: string, rs: seq<RelationshipInput>, keys: seq<string>)
    : (db': Database)
    requires Enumerates(keys, Keys(TypesOf(rs)))
  {
    if rs == [] then db
    else
      var s := UpsertEdges(EdgeRowsOf(org, rs));
      if Accepted(s) then UpdateRegistry(Exec(db, s), org, TypesOf(rs), keys) else db
  }

  /** No two of the relationships have the same ends and type. */
  predicate EndsApart(rs: seq<RelationshipInput>) {
    forall i, j :: 0 <= i < j < |rs| ==>
      rs[i].sourceId != rs[j].sourceId || rs[i].targetId != rs[j].targetId
        || rs[i].relationshipType != rs[j].relationshipType
  }

  lemma EndsApartIff(org: string, rs: seq<RelationshipInput>)
    ensures DistinctKeys(EdgeRowsOf(org, rs)) <==> EndsApart(rs)
  {
    var rows := EdgeRowsOf(org, rs);
    assert forall i :: 0 <= i < |rs| ==>
      rows[i].key == EdgeKey(org, rs[i].sourceId, rs[i].targetId, rs[i].relationshipType);
  }

  /** The edge that a relationship leaves in the table. */
  ghost predicate StoredAs(before: map<EdgeKey, Edge>, after: map<EdgeKey, Edge>, org: string, r: RelationshipInput) {
    var k := EdgeKey(org, r.sourceId, r.targetId, r.relationshipType);
    var metadata := if r.metadata.Some? then r.metadata.value else map[];
    && k in after
    && (k !in before ==>
         after[k] == Edge(r.sourceTag, r.targetTag, metadata, r.createdAt, r.createdBy, r.updatedAt, r.updatedBy,
           r.deletedAt, r.deletedBy))
    && (k in before ==> after[k] == before[k].(metadata := metadata, updatedAt := r.updatedAt))
  }

  /**
   What processing leaves in the edge table: nothing new when two relationships have the same ends and
   type; and else an edge for each, from its source to its target under its type, as it was given if
   it is new, and with its metadata and updatedAt if it was stored. Every other edge is as before.
   */
  lemma RelationshipsAreStored(db: Database, org: string, rs: seq<RelationshipInput>, keys: seq<string>)
    requires Enumerates(keys, Keys(TypesOf(rs)))
    ensures var after := ProcessRelationships(db, org, rs, keys);
      && after.links == db.links && after.entities == db.entities
      && (!EndsApart(rs) ==> after == db)
      && (EndsApart(rs) ==> forall i :: 0 <= i < |rs| ==> StoredAs(db.edges, after.edges, org, rs[i]))
      && (forall k :: k in after.edges && k !in db.edges ==> NamesEdge(org, rs, k))
      && (forall k :: k in db.edges && !NamesEdge(org, rs, k) ==> k in after.edges && after.edges[k] == db.edges[k])
  {
    EndsApartIff(org, rs);
    ProcessedEdges(db, org, rs, keys);
    if EndsApart(rs) {
      EdgeRowsStored(db.edges, org, rs);
    }
  }

  lemma OnlyRegistryUpdated(db: Database, org: string, rels: seq<Input>, keys: seq<string>)
    requires Enumerates(keys, Keys(rels))
    ensures var after := UpdateRegistry(db, org, rels, keys);
      after.links == db.links && after.entities == db.entities && after.edges == db.edges
  {
    UpdateRegistryIsUpsert(db, org, rels, keys);
  }

  lemma EdgesExecuted(db: Database, rows: seq<EdgeRow>)
    ensures Accepted(UpsertEdges(rows)) <==> DistinctKeys(rows)
    ensures Exec(db, UpsertEdges(rows)) == db.(edges := Upsert(db.edges, rows, TouchEdge))
  {
  }

  lemma ProcessedIs(db: Database, org: string, rs: seq<RelationshipInput>, keys: seq<string>)
    requires Enumerates(keys, Keys(TypesOf(rs)))
    ensures var rows := EdgeRowsOf(org, rs);
      ProcessRelationships(db, org, rs, keys) ==
        if !DistinctKeys(rows) then db
        else UpdateRegistry(db.(edges := Upsert(db.edges, rows, TouchEdge)), org, TypesOf(rs), keys)
  {
    var rows := EdgeRowsOf(org, rs);
    if rs == [] {
      UpdateRegistryIsUpsert(db, org, TypesOf(rs), keys);
    } else {
      EdgesExecuted(db, rows);
    }
  }

  lemma ProcessedEdges(db: Database, org: string, rs: seq<RelationshipInput>, keys: seq<string>)
    requires Enumerates(keys, Keys(TypesOf(rs)))
    ensures var after, rows := ProcessRelationships(db, org, rs, keys), EdgeRowsOf(org, rs);
      && after.links == db.links && after.entities == db.entities
      && (!DistinctKeys(rows) ==> after == db)
      && (DistinctKeys(rows) ==> after.edges == Upsert(db.edges, rows, TouchEdge))
  {
    var rows := EdgeRowsOf(org, rs);
    ProcessedIs(db, org, rs, keys);
    OnlyRegistryUpdated(db.(edges := Upsert(db.edges, rows, TouchEdge)), org, TypesOf(rs), keys);
  }

  ghost predicate NamesEdge(org: string, rs: seq<RelationshipInput>, k: EdgeKey) {
    exists i :: 0 <= i < |rs| && k == EdgeKey(org, rs[i].sourceId, rs[i].targetId, rs[i].relationshipType)
  }

  lemma EdgeRowsStored(before: map<EdgeKey, Edge>, org: string, rs: seq<RelationshipInput>)
    requires DistinctKeys(EdgeRowsOf(org, rs))
    ensures var after := Upsert(before, EdgeRowsOf(org, rs), TouchEdge);
      && (forall i :: 0 <= i < |rs| ==> StoredAs(before, after, org, rs[i]))
      && (forall k :: k in after && k !in before ==> NamesEdge(org, rs, k))
      && (forall k :: k in before && !NamesEdge(org, rs, k) ==> k in after && after[k] == before[k])
  {
    var rows := EdgeRowsOf(org, rs);
    forall i | 0 <= i < |rs|
      ensures StoredAs(before, Upsert(before, rows, TouchEdge), org, rs[i])
    {
      assert rows[i] == EdgeRowOf(org, rs[i]);
      UpsertedRow(before, rows, TouchEdge, i);
    }
    forall k | !NamesEdge(org, rs, k)
      ensures !HasKey(rows, k)
    {
      assert forall i :: 0 <= i < |rows| ==> rows[i] == EdgeRowOf(org, rs[i]);
    }
    EdgeBatchKeys(before, rows);
  }

  predicate HasTarget(registry: map<RegistryKey, set<string>>, org: string, s: string, t: string) {
    RegistryKey(org, s) in registry && t in registry[RegistryKey(org, s)]
  }

  // ----- what the update adds

  lemma RegistryRowsAreDistinct(org: string, ps: seq<Pair>)
    ensures DistinctKeys(RegistryRows(org, GroupPairsBySource(ps)))
  {
  }

  lemma RegistryRowsHold(org: string, ps: seq<Pair>, s: string, t: string)
    ensures Pair(s, t) in ps <==>
      exists i :: 0 <= i < |RegistryRows(org, GroupPairsBySource(ps))|
        && RegistryRows(org, GroupPairsBySource(ps))[i].key == RegistryKey(org, s)
        && t in RegistryRows(org, GroupPairsBySource(ps))[i].value
  {
    var gs := GroupPairsBySource(ps);
    var rows := RegistryRows(org, gs);
    GroupingRestoresPairs(ps);
    if Pair(s, t) in ps {
      var g :| g in gs && g.source == s && t in g.targets;
      var i :| 0 <= i < |gs| && gs[i] == g;
      assert rows[i].key == RegistryKey(org, s) && t in rows[i].value;
    }
    if i :| 0 <= i < |rows| && rows[i].key == RegistryKey(org, s) && t in rows[i].value {
      assert gs[i] in gs && gs[i].source == s && t in gs[i].targets;
    }
  }

  ghost predicate AddsClosure(
    before: map<RegistryKey, set<string>>, after: map<RegistryKey, set<string>>, org: string, rels: seq<Input>)
  {
    forall o, s, t ::
      HasTarget(after, o, s, t) <==>
        HasTarget(before, o, s, t) || (o == org && (Related(rels, s, t) || Related(rels, t, s)))
  }

  /**
   For tags without a bar, the update adds to the organisation's registry exactly the symmetric
   closure of the given relationships, and nothing else changes.
   */
  lemma UpdateAddsClosure(db: Database, org: string, rels: seq<Input>, keys: seq<string>)
    requires UsedTagsAreBarFree(rels) && Enumerates(keys, Keys(rels))
    ensures UpdateRegistry(db, org, rels, keys) == db.(registry := UpdateRegistry(db, org, rels, keys).registry)
    ensures AddsClosure(db.registry, UpdateRegistry(db, org, rels, keys).registry, org, rels)
  {
    UpdateRegistryIsUpsert(db, org, rels, keys);
    if rels != [] {
      RegistryUpsertAdds(db.registry, org, ExpandBidirectionalPairs(rels, keys));
      var after := Upsert(db.registry, RegistryBatch(org, rels, keys), UniteTargets);
      forall o, s, t
        ensures HasTarget(after, o, s, t) <==>
          HasTarget(db.registry, o, s, t) || (o == org && (Related(rels, s, t) || Related(rels, t, s)))
      {
        ExpandedPair(rels, keys, Pair(s, t));
      }
    }
  }

  lemma ExpandedPair(rels: seq<Input>, keys: seq<string>, p: Pair)
    requires UsedTagsAreBarFree(rels) && Enumerates(keys, Keys(rels))
    ensures p in ExpandBidirectionalPairs(rels, keys) <==>
      Related(rels, p.source, p.target) || Related(rels, p.target, p.source)
  {
    ExpansionIsSymmetricClosureIff(rels, keys);
  }

  lemma RegistryUpsertAdds(registry: map<RegistryKey, set<string>>, org: string, ps: seq<Pair>)
    ensures var after := Upsert(registry, RegistryRows(org, GroupPairsBySource(ps)), UniteTargets);
      forall o, s, t :: HasTarget(after, o, s, t) <==> HasTarget(registry, o, s, t) || (o == org && Pair(s, t) in ps)
  {
    RegistryRowsAreDistinct(org, ps);
    forall o, s, t
      ensures var after := Upsert(registry, RegistryRows(org, GroupPairsBySource(ps)), UniteTargets);
        HasTarget(after, o, s, t) <==> HasTarget(registry, o, s, t) || (o == org && Pair(s, t) in ps)
    {
      RegistryRowsHold(org, ps, s, t);
      TargetsAfterUpsert(registry, org, RegistryRows(org, GroupPairsBySource(ps)), o, s, t);
    }
  }

  lemma TargetsAfterUpsert(
    registry: map<RegistryKey, set<string>>, org: string, rows: seq<Row<RegistryKey, set<string>>>, o: string,
    s: string, t: string)
    requires DistinctKeys(rows) && forall i :: 0 <= i < |rows| ==> rows[i].key.org == org
    ensures HasTarget(Upsert(registry, rows, UniteTargets), o, s, t) <==>
      HasTarget(registry, o, s, t)
        || (o == org && exists i :: 0 <= i < |rows| && rows[i].key == RegistryKey(org, s) && t in rows[i].value)
  {
    if i :| 0 <= i < |rows| && rows[i].key == RegistryKey(o, s) {
      UpsertedRow(registry, rows, UniteTargets, i);
      assert o == org;
      assert forall j :: 0 <= j < |rows| && rows[j].key == RegistryKey(org, s) ==> j == i;
    } else {
      OtherRow(registry, rows, UniteTargets, RegistryKey(o, s));
    }
  }

  lemma TargetTagsMembers(rs: seq<RelationshipInput>, s: string, t: string)
    ensures t in TargetTags(rs, s) <==> exists i :: 0 <= i < |rs| && rs[i].sourceTag == s && rs[i].targetTag == t
  {
    var items := ItemsOf(rs, (r: RelationshipInput) => r.sourceTag, s);
    var tags := Map((r: RelationshipInput) => r.targetTag, items);
    if i :| 0 <= i < |rs| && rs[i].sourceTag == s && rs[i].targetTag == t {
      assert rs[i] in items;
      var j :| 0 <= j < |items| && items[j] == rs[i];
      assert tags[j] == t;
    }
    if t in tags {
      var j :| 0 <= j < |tags| && tags[j] == t;
      assert items[j] in items;
      var i :| 0 <= i < |rs| && rs[i] == items[j];
      assert rs[i].sourceTag == s && rs[i].targetTag == t;
    }
  }

  lemma TypesCoverEdges(rs: seq<RelationshipInput>, s: string, t: string)
    ensures Related(TypesOf(rs), s, t) <==> exists i :: 0 <= i < |rs| && rs[i].sourceTag == s && rs[i].targetTag == t
  {
    var key := (r: RelationshipInput) => r.sourceTag;
    var ks, rels := GroupKeys(rs, key), TypesOf(rs);
    TargetTagsMembers(rs, s, t);
    if i :| 0 <= i < |rs| && rs[i].sourceTag == s && rs[i].targetTag == t {
      assert key(rs[i]) == s && s in ks;
      var n :| 0 <= n < |ks| && ks[n] == s;
      assert rels[n].source == s && t in rels[n].targets;
    }
  }

  /** The insert never hits a row twice; it fails exactly when there is an input and none relates anything. */
  lemma RegistryAcceptedIff(org: string, rels: seq<Input>, keys: seq<string>)
    requires Enumerates(keys, Keys(rels))
    ensures Accepted(UpsertRegistry(RegistryBatch(org, rels, keys)))
       <==> exists s, t :: Related(rels, s, t)
  {
    var ps := ExpandBidirectionalPairs(rels, keys);
    RegistryRowsAreDistinct(org, ps);
    KeysWhenRelated(rels, keys);
    GroupsWhenPairs(ps);
  }

  lemma GroupsWhenPairs(ps: seq<Pair>)
    ensures GroupPairsBySource(ps) != [] <==> ps != []
  {
    if ps != [] {
      GroupingRestoresPairs(ps);
      assert Pair(ps[0].source, ps[0].target) in ps;
    } else {
      assert Map((p: Pair) => p.source, ps) == [];
    }
  }

  lemma KeysWhenRelated(rels: seq<Input>, keys: seq<string>)
    requires Enumerates(keys, Keys(rels))
    ensures keys != [] <==> exists s, t :: Related(rels, s, t)
  {
    if s, t :| Related(rels, s, t) {
      RawPairsMembers(rels, Pair(s, t));
      assert PairKey(Pair(s, t)) in keys;
    }
    if keys != [] {
      assert keys[0] in keys;
      var p :| p in RawPairs(rels) && keys[0] == PairKey(p);
      RawPairsMembers(rels, p);
    }
  }

  /** The types of a batch of edges always relate something. */
  lemma TypesAlwaysRelate(rs: seq<RelationshipInput>)
    requires rs != []
    ensures TypesOf(rs) != [] && exists s, t :: Related(TypesOf(rs), s, t)
  {
    TypesCoverEdges(rs, rs[0].sourceTag, rs[0].targetTag);
  }

  // ----- the agreement, step by step

  ghost predicate Symmetric(registry: map<RegistryKey, set<string>>) {
    forall o, s, t :: HasTarget(registry, o, s, t) ==> HasTarget(registry, o, t, s)
  }

  predicate Registered(registry: map<RegistryKey, set<string>>, k: EdgeKey, e: Edge) {
    k.relationshipType == MERGED || HasTarget(registry, k.org, e.sourceTag, e.targetTag)
  }

  /** Every edge but the "merged" ones states a relationship between types that the registry knows. */
  predicate EdgesRegistered(db: Database) {
    forall k :: k in db.edges ==> Registered(db.registry, k, db.edges[k])
  }

  ghost predicate Agrees(db: Database) {
    Symmetric(db.registry) && EdgesRegistered(db)
  }

  ghost predicate RegistryGrows(before: Database, after: Database) {
    forall o, s, t :: HasTarget(before.registry, o, s, t) ==> HasTarget(after.registry, o, s, t)
  }

  /** An edge batch keeps the agreement when its own rows are registered: stored tags never change. */
  lemma UpsertKeepsRegistered(edges: map<EdgeKey, Edge>, registry: map<RegistryKey, set<string>>, rows: seq<EdgeRow>)
    requires forall k :: k in edges ==> Registered(registry, k, edges[k])
    requires forall i :: 0 <= i < |rows| ==> Registered(registry, rows[i].key, rows[i].value)
    ensures forall k :: k in Upsert(edges, rows, TouchEdge) ==>
      Registered(registry, k, Upsert(edges, rows, TouchEdge)[k])
  {
    if DistinctKeys(rows) {
      MergedRows(edges, rows, TouchEdge);
      forall k | k in Merged(edges, rows, TouchEdge)
        ensures Registered(registry, k, Merged(edges, rows, TouchEdge)[k])
      {
        if i :| 0 <= i < |rows| && rows[i].key == k {
        }
      }
    }
  }

  predicate BarFreeRelationships(rs: seq<RelationshipInput>) {
    forall i :: 0 <= i < |rs| ==> BarFree(rs[i].sourceTag) && BarFree(rs[i].targetTag)
  }

  lemma TypesAreBarFree(rs: seq<RelationshipInput>)
    requires BarFreeRelationships(rs)
    ensures UsedTagsAreBarFree(TypesOf(rs))
  {
    var rels := TypesOf(rs);
    var ks := GroupKeys(rs, (r: RelationshipInput) => r.sourceTag);
    forall n | 0 <= n < |rels|
      ensures BarFree(rels[n].source) && forall t :: t in rels[n].targets ==> BarFree(t)
    {
      assert rels[n].source == ks[n] && ks[n] in ks;
      forall t | t in rels[n].targets
        ensures BarFree(t)
      {
        assert Related(rels, rels[n].source, t);
        TypesCoverEdges(rs, rels[n].source, t);
      }
    }
  }

  /**
   processRelationships keeps the registry symmetric and complete for the edge table, for tags
   without a bar; and when the batch is accepted, each of its type pairs is in the registry.
   */
  lemma RelationshipsKeepAgreement(db: Database, org: string, rs: seq<RelationshipInput>, keys: seq<string>)
    requires BarFreeRelationships(rs) && Enumerates(keys, Keys(TypesOf(rs)))
    ensures RegistryGrows(db, ProcessRelationships(db, org, rs, keys))
    ensures Agrees(db) ==> Agrees(ProcessRelationships(db, org, rs, keys))
    ensures DistinctKeys(EdgeRowsOf(org, rs)) ==> forall i :: 0 <= i < |rs| ==>
      HasTarget(ProcessRelationships(db, org, rs, keys).registry, org, rs[i].sourceTag, rs[i].targetTag)
  {
    var rows := EdgeRowsOf(org, rs);
    if rs != [] && DistinctKeys(rows) {
      AcceptedRelationships(db, org, rs, keys);
      var after := ProcessRelationships(db, org, rs, keys);
      if Agrees(db) {
        UpsertKeepsRegistered(db.edges, after.registry, rows);
      }
    }
  }

  lemma AcceptedRelationships(db: Database, org: string, rs: seq<RelationshipInput>, keys: seq<string>)
    requires BarFreeRelationships(rs) && Enumerates(keys, Keys(TypesOf(rs)))
    requires rs != [] && DistinctKeys(EdgeRowsOf(org, rs))
    ensures ProcessRelationships(db, org, rs, keys).edges == Upsert(db.edges, EdgeRowsOf(org, rs), TouchEdge)
    ensures RegistryGrows(db, ProcessRelationships(db, org, rs, keys))
    ensures Symmetric(db.registry) ==> Symmetric(ProcessRelationships(db, org, rs, keys).registry)
    ensures forall i :: 0 <= i < |rs| ==>
      HasTarget(ProcessRelationships(db, org, rs, keys).registry, org, rs[i].sourceTag, rs[i].targetTag)
  {
    TypesAreBarFree(rs);
    UpdateAddsClosure(Exec(db, UpsertEdges(EdgeRowsOf(org, rs))), org, TypesOf(rs), keys);
    ClosureOfEdgeTypes(db.registry, ProcessRelationships(db, org, rs, keys).registry, org, rs);
  }

  lemma ClosureOfEdgeTypes(
    before: map<RegistryKey, set<string>>, after: map<RegistryKey, set<string>>, org: string,
    rs: seq<RelationshipInput>)
    requires AddsClosure(before, after, org, TypesOf(rs))
    ensures Symmetric(before) ==> Symmetric(after)
    ensures forall o, s, t :: HasTarget(before, o, s, t) ==> HasTarget(after, o, s, t)
    ensures forall i :: 0 <= i < |rs| ==> HasTarget(after, org, rs[i].sourceTag, rs[i].targetTag)
  {
    forall i | 0 <= i < |rs|
      ensures HasTarget(after, org, rs[i].sourceTag, rs[i].targetTag)
    {
      TypesCoverEdges(rs, rs[i].sourceTag, rs[i].targetTag);
    }
  }

  // ----- runs of operations

  datatype Operation =
    | Seed(org: string, rels: seq<Input>, keys: seq<string>)
    | Relate(org: string, inputs: seq<RelationshipInput>, keys: seq<string>)
    | Combine(org: string, adapter: string, keepId: string, removeId: string, found: seq<EdgeRow>, at: int)
    | Remove(org: string, adapter: string, externalId: string, at: int)
    | Otherwise(statement: Statement)

  /** The operation is one the system can take in this state: its selects read the state. */
  ghost predicate Possible(db: Database, op: Operation) {
    match op
    case Seed(_, rels, keys) => UsedTagsAreBarFree(rels) && Enumerates(keys, Keys(rels))
    case Relate(_, inputs, keys) => BarFreeRelationships(inputs) && Enumerates(keys, Keys(TypesOf(inputs)))
    case Combine(org, adapter, _, removeId, found, _) =>
      (match LiveLink(db, org, adapter, removeId)
       case None => true
       case Some(gone) => Found(db, org, gone.entityId, found))
    case Remove(_, _, _, _) => true
    case Otherwise(s) => !s.UpsertEdges? && !s.UpsertRegistry?
  }

  function Perform(tableOf: map<string, string>, db: Database, op: Operation): (db': Database)
    requires Possible(db, op)
  {
    match op
    case Seed(org, rels, keys) => UpdateRegistry(db, org, rels, keys)
    case Relate(org, inputs, keys) => ProcessRelationships(db, org, inputs, keys)
    case Combine(org, adapter, keepId, removeId, found, at) =>
      MergeEntity(tableOf, db, org, adapter, keepId, removeId, found, at).db
    case Remove(org, adapter, externalId, at) => DeleteEntity(tableOf, db, org, adapter, externalId, at)
    case Otherwise(s) => Exec(db, s)
  }

  lemma DeletionKeepsAgreement(
    tableOf: map<string, string>, db: Database, org: string, adapter: string, id: string, entityType: string, at: int)
    ensures var after := DeleteEntityId(tableOf, db, org, adapter, id, entityType, at);
      && after.registry == db.registry && after.edges.Keys == db.edges.Keys
      && (forall k :: k in db.edges ==>
        after.edges[k].sourceTag == db.edges[k].sourceTag && after.edges[k].targetTag == db.edges[k].targetTag)
  {
    if entityType in tableOf {
      DeletionBuries(tableOf, db, org, adapter, id, entityType, at);
    }
  }

  lemma MergeKeepsAgreement(tableOf: map<string, string>, db: Database, op: Operation)
    requires op.Combine? && Possible(db, op) && Agrees(db)
    ensures Agrees(Perform(tableOf, db, op)) && RegistryGrows(db, Perform(tableOf, db, op))
  {
    var org, adapter, keepId, removeId := op.org, op.adapter, op.keepId, op.removeId;
    var found, at := op.found, op.at;
    match LiveLink(db, org, adapter, removeId)
    case None =>
    case Some(gone) =>
      var mid := DeleteEntityId(tableOf, db, org, adapter, gone.entityId, gone.entityType, at);
      DeletionKeepsAgreement(tableOf, db, org, adapter, gone.entityId, gone.entityType, at);
      assert Agrees(mid);
      match LiveLink(db, org, adapter, keepId) {
        case None =>
        case Some(kept) =>
          if Decode(kept.entityId, gone.entityId).Directed? {
            MovedEdgesAreRegistered(db, found, org, adapter, kept.entityId, gone.entityId, kept.entityType, at);
          }
          InsertKeepsAgreement(mid, org, adapter, kept, gone, found, at);
      }
  }

  lemma InsertKeepsAgreement(
    mid: Database, org: string, adapter: string, kept: Link, gone: Link, found: seq<EdgeRow>, at: int)
    requires Agrees(mid)
    requires Decode(kept.entityId, gone.entityId).Directed? ==>
      var rows := MergeRows(found, org, adapter, kept.entityId, gone.entityId, kept.entityType, at);
      forall i :: 0 <= i < |rows| ==> Registered(mid.registry, rows[i].key, rows[i].value)
    ensures Agrees(InsertMergedEdges(mid, org, adapter, kept, gone, found, at).db)
    ensures InsertMergedEdges(mid, org, adapter, kept, gone, found, at).db.registry == mid.registry
  {
    if Decode(kept.entityId, gone.entityId).Directed? {
      UpsertKeepsRegistered(mid.edges, mid.registry,
        MergeRows(found, org, adapter, kept.entityId, gone.entityId, kept.entityType, at));
    }
  }

  lemma MovedEdgesAreRegistered(
    db: Database, found: seq<EdgeRow>, org: string, adapter: string, keep: string, remove: string, entityType: string,
    at: int)
    requires EdgesRegistered(db) && Found(db, org, remove, found) && Decode(keep, remove).Directed?
    ensures var rows := MergeRows(found, org, adapter, keep, remove, entityType, at);
      forall i :: 0 <= i < |rows| ==> Registered(db.registry, rows[i].key, rows[i].value)
  {
  }

  lemma StepKeepsAgreement(tableOf: map<string, string>, db: Database, op: Operation)
    requires Possible(db, op) && Agrees(db)
    ensures Agrees(Perform(tableOf, db, op)) && RegistryGrows(db, Perform(tableOf, db, op))
  {
    match op
    case Seed(org, rels, keys) =>
      UpdateAddsClosure(db, org, rels, keys);
    case Relate(org, inputs, keys) =>
      RelationshipsKeepAgreement(db, org, inputs, keys);
    case Combine(_, _, _, _, _, _) =>
      MergeKeepsAgreement(tableOf, db, op);
    case Remove(org, adapter, externalId, at) =>
      if LiveLink(db, org, adapter, externalId).Some? {
        var l := LiveLink(db, org, adapter, externalId).value;
        DeletionKeepsAgreement(tableOf, db, org, adapter, l.entityId, l.entityType, at);
      }
    case Otherwise(s) =>
  }

  ghost predicate PossibleRun(tableOf: map<string, string>, db: Database, ops: seq<Operation>)
    decreases |ops|
  {
    ops != [] ==> Possible(db, ops[0]) && PossibleRun(tableOf, Perform(tableOf, db, ops[0]), ops[1..])
  }

  function PerformAll(tableOf: map<string, string>, db: Database, ops: seq<Operation>): (db': Database)
    requires PossibleRun(tableOf, db, ops)
    decreases |ops|
  {
    if ops == [] then db else PerformAll(tableOf, Perform(tableOf, db, ops[0]), ops[1..])
  }

  /**
   Over every run, for tags without a bar: a type is a target of another exactly when the
   other is a target of it, no target is ever removed, and every edge that is not a "merged"
   one has its pair of types in the registry.
   */
  lemma {:induction false} RunKeepsAgreement(tableOf: map<string, string>, db: Database, ops: seq<Operation>)
    requires PossibleRun(tableOf, db, ops) && Agrees(db)
    ensures Agrees(PerformAll(tableOf, db, ops)) && RegistryGrows(db, PerformAll(tableOf, db, ops))
    decreases |ops|
  {
    if ops != [] {
      StepKeepsAgreement(tableOf, db, ops[0]);
      RunKeepsAgreement(tableOf, Perform(tableOf, db, ops[0]), ops[1..]);
    }
  }
}
