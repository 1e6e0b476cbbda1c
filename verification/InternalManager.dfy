/**
 The internal manager of one organisation: the object whose operations read the four tables
 and change them statement by statement. Each operation is proved to leave the tables as the
 functions of the other modules say, so what is proved of those holds of it.
 */
module InternalManager {
  import opened EdgeDirection
  import opened EntityTable
  import opened LinkTable
  import opened Merge
  import opened RelationshipUtils
  import opened Registry
  import opened Seqs
  import opened Tables
  import opened Wrappers

  datatype Failure = UpsertFailed | MergingFailed | NoDirection

  function Reported(o: MergeOutcome): (r: Result<(), Failure>) {
    match o
    case Refused(_) => Err(MergingFailed)
    case Undirected(_) => Err(NoDirection)
    case _ => Ok(())
  }

  lemma {:induction false} EnumerationExists(elements: set<string>)
    ensures exists keys :: Enumerates(keys, elements)
  {
    if elements == {} {
      assert Enumerates([], elements);
    } else {
      var k :| k in elements;
      EnumerationExists(elements - {k});
      var keys :| Enumerates(keys, elements - {k});
      assert Enumerates([k] + keys, elements);
    }
  }

  /** Gives the elements of a set in some order, as reading a hash set does. */
  method Enumerate(elements: set<string>) returns (keys: seq<string>)
    ensures Enumerates(keys, elements)
  {
    keys := [];
    var rest := elements;
    while rest != {}
      invariant NoDup(keys)
      invariant forall k :: k in keys <==> k in elements && k !in rest
      invariant rest <= elements
      decreases rest
    {
      var k :| k in rest;
      keys := keys + [k];
      rest := rest - {k};
    }
  }

  class Manager {
    const org: string
    const tableOf: map<string, string>
    var links: map<LinkKey, Link>
    var edges: map<EdgeKey, Edge>
    var entities: map<EntityKey, Entity>
    var registry: map<RegistryKey, set<string>>

    constructor (org: string, tableOf: map<string, string>, db: Database)
      ensures this.org == org && this.tableOf == tableOf && Db() == db
    {
      this.org, this.tableOf := org, tableOf;
      links, edges, entities, registry := db.links, db.edges, db.entities, db.registry;
    }

    function Db(): (db: Database)
      reads this
    {
      Database(links, edges, entities, registry)
    }

    /** One SQL statement. */
    method Execute(s: Statement) returns (accepted: bool)
      modifies this
      ensures Db() == Exec(old(Db()), s)
      ensures accepted == Accepted(s)
    {
      accepted := true;
      match s {
        case UpsertEntityLinks(rows) => links, accepted := Upsert(links, rows, TouchLink), DistinctKeys(rows);
        case UpsertReferenceLinks(rows) => links, accepted := Upsert(links, rows, KeepLink), DistinctKeys(rows);
        case UpsertEdges(rows) => edges, accepted := Upsert(edges, rows, TouchEdge), DistinctKeys(rows);
        case UpsertEntities(rows) => entities, accepted := Upsert(entities, rows, ReplaceEntity), DistinctKeys(rows);
        case UpsertRegistry(rows) =>
          registry, accepted := Upsert(registry, rows, UniteTargets), rows != [] && DistinctKeys(rows);
        case _ =>
          var db := Exec(Db(), s);
          links, edges, entities := db.links, db.edges, db.entities;
      }
    }

    /**
     Records a batch of links and returns every row with the ones that changed. `schedule`
     stands for the order in which the two concurrent statements reach the database.
     */
    method ProcessExternalLinks(inputs: seq<LinkInput>, now: int, force: bool, schedule: Schedule)
      returns (r: Result<(seq<LinkRow>, seq<LinkRow>), Failure>)
      modifies this
      ensures var o := LinkTable.ProcessExternalLinks(old(Db()), org, inputs, now, force, schedule);
        && Db() == o.db
        && r == if o.Processed? then Ok((o.all, o.changed)) else Err(UpsertFailed)
    {
      ghost var before := Db();
      var es, rs := EntityRows(org, inputs, now), ReferenceRows(org, inputs, now);
      var entityStatement, referenceStatement := UpsertEntityLinks(es), UpsertReferenceLinks(rs);
      var first := if schedule.entityFirst then entityStatement else referenceStatement;
      var second := if schedule.entityFirst then referenceStatement else entityStatement;
      RunThree(before, first, second, second);
      var firstAccepted := Execute(first);
      var afterFirst := links;
      if !firstAccepted && !schedule.bothRun {
        return Err(UpsertFailed);
      }
      var secondAccepted := Execute(second);
      if !firstAccepted || !secondAccepted {
        return Err(UpsertFailed);
      }
      AcceptedRowsArePresent(if schedule.entityFirst then before.links else afterFirst, es, TouchLink);
      AcceptedRowsArePresent(if schedule.entityFirst then afterFirst else before.links, rs, KeepLink);
      var entityRows := Returned(if schedule.entityFirst then afterFirst else links, es);
      var referenceRows := Returned(if schedule.entityFirst then links else afterFirst, rs);
      r := Ok((entityRows + referenceRows, Changed(entityRows, now, force) + Changed(referenceRows, now, force)));
    }

    /** Some live link of the entity with this adapter, if it has one. */
    method GetExternalLink(internalId: string, adapter: string) returns (r: Option<LinkRow>)
      ensures r.Some? ==>
        && r.value.key in links && links[r.value.key] == r.value.value
        && r.value.key.org == org && r.value.key.adapter == adapter
        && r.value.value.entityId == internalId && r.value.value.deletedAt.None?
      ensures r.None? ==> forall k ::
        k in links && k.org == org && k.adapter == adapter && links[k].entityId == internalId ==>
          links[k].deletedAt.Some?
    {
      var found := set k | k in links && k.org == org && k.adapter == adapter && links[k].entityId == internalId
        && links[k].deletedAt.None?;
      if found == {} {
        forall k | k in links && k.org == org && k.adapter == adapter && links[k].entityId == internalId
          ensures links[k].deletedAt.Some?
        {
          assert k !in found;
        }
        r := None;
      } else {
        var k :| k in found;
        r := Some(Row(k, links[k]));
      }
    }

    /** Buries the links, edges and row of an entity, unless its type has no table. */
    method DeleteEntityId(entityId: string, entityType: string, adapter: string, at: int)
      modifies this
      ensures Db() == Merge.DeleteEntityId(tableOf, old(Db()), org, adapter, entityId, entityType, at)
    {
      if entityType !in tableOf {
        return;
      }
      var a := BuryLinksOf(org, adapter, entityId, at);
      var b := BuryEdgesOf(org, entityId, at);
      var c := BuryEntityRow(tableOf[entityType], entityId, at);
      RunThree(Db(), a, b, c);
      var _ := Execute(a);
      var _ := Execute(b);
      var _ := Execute(c);
    }

    method DeleteEntity(externalId: string, adapter: string, at: int)
      modifies this
      ensures Db() == Merge.DeleteEntity(tableOf, old(Db()), org, adapter, externalId, at)
    {
      var link := LiveLink(Db(), org, adapter, externalId);
      if link.Some? {
        DeleteEntityId(link.value.entityId, link.value.entityType, adapter, at);
      }
    }

    /** Every edge that touches the entity, in some order. */
    method SelectEdges(id: string) returns (found: seq<EdgeRow>)
      ensures Found(Db(), org, id, found)
    {
      found := [];
      var rest := set k | k in edges && Touches(k, org, id);
      ghost var all := rest;
      assert forall k :: k in edges && Touches(k, org, id) ==> k in all;
      while rest != {}
        invariant rest <= all
        invariant DistinctKeys(found)
        invariant forall i :: 0 <= i < |found| ==>
          found[i].key in all && found[i].key !in rest && found[i].value == edges[found[i].key]
        invariant forall k :: k in all && k !in rest ==> exists i :: 0 <= i < |found| && found[i].key == k
        decreases rest
      {
        var k :| k in rest;
        ghost var before := found;
        found := found + [Row(k, edges[k])];
        rest := rest - {k};
        assert found[|found| - 1].key == k;
        assert forall i :: 0 <= i < |before| ==> found[i] == before[i];
      }
    }

    /** Merges the entity linked to removeId into the one linked to keepId. */
    method MergeEntity(keepId: string, removeId: string, adapter: string, at: int) returns (r: Result<(), Failure>)
      modifies this
      ensures match LiveLink(old(Db()), org, adapter, removeId)
        case None => r.Ok? && Db() == old(Db())
        case Some(gone) => exists found ::
          && Found(old(Db()), org, gone.entityId, found)
          && Db() == Merge.MergeEntity(tableOf, old(Db()), org, adapter, keepId, removeId, found, at).db
          && r == Reported(Merge.MergeEntity(tableOf, old(Db()), org, adapter, keepId, removeId, found, at))
      ensures match LiveLink(old(Db()), org, adapter, removeId)
        case None => true
        case Some(gone) => OnlyBuried(old(Db()), Db(), org, adapter, gone.entityId,
          if gone.entityType in tableOf then Some(tableOf[gone.entityType]) else None, at)
    {
      var keepLink, removeLink := LiveLink(Db(), org, adapter, keepId), LiveLink(Db(), org, adapter, removeId);
      if removeLink.None? {
        return Ok(());
      }
      var gone := removeLink.value;
      var found := SelectEdges(gone.entityId);
      ghost var outcome := Merge.MergeEntity(tableOf, Db(), org, adapter, keepId, removeId, found, at);
      assert OnlyBuried(Db(), outcome.db, org, adapter, gone.entityId,
        if gone.entityType in tableOf then Some(tableOf[gone.entityType]) else None, at)
      by {
        MergeBuriesRemoved(tableOf, Db(), org, adapter, keepId, removeId, found, at);
      }
      DeleteEntityId(gone.entityId, gone.entityType, adapter, at);
      if keepLink.None? {
        return Ok(());
      }
      var kept := keepLink.value;
      if Decode(kept.entityId, gone.entityId).EmptyId? {
        return Err(NoDirection);
      }
      var rows := MergeRows(found, org, adapter, kept.entityId, gone.entityId, kept.entityType, at);
      var accepted := Execute(UpsertEdges(rows));
      assert Db() == outcome.db;
      r := if accepted then Ok(()) else Err(MergingFailed);
    }

    /** Buries the links of a type that the last sync did not touch, and returns them as they were. */
    method DetectAndMarkDeleted(adapter: string, entityType: string, start: int, at: int)
      returns (stale: map<LinkKey, Link>)
      modifies this
      ensures stale == map k | k in old(links) && Stale(old(Db()), k, org, adapter, entityType, start) :: old(links)[k]
      ensures Db() == Run(old(Db()), DetectStatements(old(Db()), org, adapter, entityType, start, at))
    {
      var ks := StaleKeys(Db(), org, adapter, entityType, start);
      stale := map k | k in ks :: links[k];
      if ks == {} {
        return;
      }
      var s := BuryStaleLinks(org, adapter, entityType, set k | k in ks :: k.externalId, at);
      RunThree(Db(), s, s, s);
      var _ := Execute(s);
    }

    /**
     Upserts entities, one statement per tag with a table. The statements run concurrently: a
     refused one interrupts the others, of which `reached` says which have run all the same.
     */
    method ProcessEntities(es: seq<EntityInput>, reached: nat -> bool) returns (r: Result<(), Failure>)
      modifies this
      ensures var ss := EntityStatements(tableOf, es);
        && (r.Ok? <==> AllAccepted(ss))
        && Db() == Run(old(Db()), if r.Ok? then ss else Reached(ss, reached))
    {
      var ss := EntityStatements(tableOf, es);
      var refused := !AllAccepted(ss);
      var todo := if refused then Reached(ss, reached) else ss;
      for i := 0 to |todo|
        invariant Db() == Run(old(Db()), todo[..i])
      {
        RunStep(old(Db()), todo, i);
        var _ := Execute(todo[i]);
      }
      assert todo[..|todo|] == todo;
      r := if refused then Err(UpsertFailed) else Ok(());
    }

    /** Adds type-level relationships to the organisation's registry, in both directions. */
    method UpdateEntityRelationships(rels: seq<Input>) returns (r: Result<(), Failure>)
      modifies this
      ensures exists keys :: Enumerates(keys, Keys(rels)) && Db() == UpdateRegistry(old(Db()), org, rels, keys)
      ensures r.Ok? <==> rels == [] || exists s, t :: Related(rels, s, t)
    {
      r := Ok(());
      var keys := Enumerate(Keys(rels));
      assert Enumerates(keys, Keys(rels));
      if rels != [] {
        var pairs := ExpandBidirectionalPairs(rels, keys);
        var accepted := Execute(UpsertRegistry(RegistryRows(org, GroupPairsBySource(pairs))));
        RegistryAcceptedIff(org, rels, keys);
        if !accepted {
          r := Err(UpsertFailed);
        }
      }
    }

    /** Writes edges and then registers their types. */
    method ProcessRelationships(rs: seq<RelationshipInput>) returns (r: Result<(), Failure>)
      modifies this
      ensures exists keys ::
        && Enumerates(keys, Keys(TypesOf(rs)))
        && Db() == Registry.ProcessRelationships(old(Db()), org, rs, keys)
      ensures r.Ok? <==> DistinctKeys(EdgeRowsOf(org, rs))
    {
      var accepted := true;
      if rs != [] {
        accepted := Execute(UpsertEdges(EdgeRowsOf(org, rs)));
      }
      EnumerationExists(Keys(TypesOf(rs)));
      r := if accepted then Ok(()) else Err(UpsertFailed);
      if rs != [] && accepted {
        TypesAlwaysRelate(rs);
        r := UpdateEntityRelationships(TypesOf(rs));
      }
    }
  }
}
