/**
 What a page leaves in the tables once it is synced: a link for each of its entities, a row for each
 one that changed, and an edge for each relation between linked entities; and nothing else.
 */
module SyncedPage {
  import opened EdgeDirection
  import opened EntityTable
  import opened LinkTable
  import opened PageSync
  import opened Redelivery
  import opened Registry
  import opened RelationshipExtraction
  import opened RelationshipUtils
  import opened Seqs
  import opened Tables
  import opened Wrappers

  // ----- which entities are written

  /** The entity at j is the first of the list with the id. */
  predicate FirstWithId(es: seq<PageEntity>, id: string, j: int) {
    0 <= j < |es| && es[j].id == id && forall i :: 0 <= i < j ==> es[i].id != id
  }

  /** The entity at j is the one that changed row i asks for. */
  predicate Finds(changed: seq<LinkRow>, es: seq<PageEntity>, i: int, j: int) {
    0 <= i < |changed| && FirstWithId(es, changed[i].key.externalId, j)
  }

  lemma {:induction false} FindByIdIsFirst(es: seq<PageEntity>, id: string)
    ensures FindById(es, id).None? ==> forall i :: 0 <= i < |es| ==> es[i].id != id
    ensures forall j :: FirstWithId(es, id, j) ==> FindById(es, id) == Some(es[j])
    ensures FindById(es, id).Some? ==> exists j :: FirstWithId(es, id, j)
  {
    if es != [] && es[0].id != id {
      FindByIdIsFirst(es[1..], id);
      forall j | FirstWithId(es, id, j)
        ensures FindById(es, id) == Some(es[j])
      {
        assert FirstWithId(es[1..], id, j - 1);
      }
      if FindById(es, id).Some? {
        var j :| FirstWithId(es[1..], id, j);
        assert FirstWithId(es, id, j + 1);
      }
    } else if es != [] {
      assert FirstWithId(es, id, 0);
    }
  }

  /** Some changed row's first entity in the list decodes to it. */
  ghost predicate GivenBy(c: Context, changed: seq<LinkRow>, es: seq<PageEntity>, x: EntityInput) {
    exists i, j :: Finds(changed, es, i, j) && c.transform(changed[i].value.entityId, es[j]) == Some(x)
  }

  ghost predicate AllDecode(c: Context, changed: seq<LinkRow>, es: seq<PageEntity>) {
    forall i, j :: Finds(changed, es, i, j) ==> c.transform(changed[i].value.entityId, es[j]).Some?
  }

  lemma {:induction false} DecodedIsExact(c: Context, changed: seq<LinkRow>, es: seq<PageEntity>)
    ensures Decoded(c, changed, es).Some? <==> AllDecode(c, changed, es)
    ensures Decoded(c, changed, es).Some? ==>
      forall x :: x in Decoded(c, changed, es).value <==> GivenBy(c, changed, es, x)
  {
    if changed != [] {
      var r, rest := changed[0], changed[1..];
      DecodedIsExact(c, rest, es);
      FindByIdIsFirst(es, r.key.externalId);
      assert changed == [r] + rest;
      AllDecodeCons(c, r, rest, es);
      forall x
        ensures GivenBy(c, changed, es, x) <==> GivenBy(c, [r], es, x) || GivenBy(c, rest, es, x)
      {
        GivenByCons(c, r, rest, es, x);
      }
      OneRowGives(c, r, es);
    }
  }

  lemma AllDecodeCons(c: Context, r: LinkRow, rest: seq<LinkRow>, es: seq<PageEntity>)
    ensures AllDecode(c, [r] + rest, es) <==> AllDecode(c, [r], es) && AllDecode(c, rest, es)
  {
    var all := [r] + rest;
    assert all[0] == r && forall i :: 0 <= i < |rest| ==> all[i + 1] == rest[i];
    forall j
      ensures Finds(all, es, 0, j) <==> Finds([r], es, 0, j)
    {
    }
    forall i, j | 0 <= i < |rest|
      ensures Finds(all, es, i + 1, j) <==> Finds(rest, es, i, j)
    {
    }
    if i, j :| Finds(all, es, i, j) && c.transform(all[i].value.entityId, es[j]).None? {
      assert if i == 0 then Finds([r], es, 0, j) else Finds(rest, es, i - 1, j);
    }
  }

  lemma GivenByCons(c: Context, r: LinkRow, rest: seq<LinkRow>, es: seq<PageEntity>, x: EntityInput)
    ensures GivenBy(c, [r] + rest, es, x) <==> GivenBy(c, [r], es, x) || GivenBy(c, rest, es, x)
  {
    var all := [r] + rest;
    assert all[0] == r && forall i :: 0 <= i < |rest| ==> all[i + 1] == rest[i];
    forall j
      ensures Finds(all, es, 0, j) <==> Finds([r], es, 0, j)
    {
    }
    forall i, j | 0 <= i < |rest|
      ensures Finds(all, es, i + 1, j) <==> Finds(rest, es, i, j)
    {
    }
    if i, j :| Finds(all, es, i, j) && c.transform(all[i].value.entityId, es[j]) == Some(x) {
      assert if i == 0 then Finds([r], es, 0, j) else Finds(rest, es, i - 1, j);
    }
  }

  lemma OneRowGives(c: Context, r: LinkRow, es: seq<PageEntity>)
    ensures var e := FindById(es, r.key.externalId);
      && (AllDecode(c, [r], es) <==> e.None? || c.transform(r.value.entityId, e.value).Some?)
      && forall x :: GivenBy(c, [r], es, x) <==> e.Some? && c.transform(r.value.entityId, e.value) == Some(x)
  {
    FindByIdIsFirst(es, r.key.externalId);
    assert forall j :: Finds([r], es, 0, j) <==> FirstWithId(es, r.key.externalId, j);
  }

  /**
   Which entities a page has written: for each changed row, and each of the two lists, the first entity
   there with the row's external id, decoded under the row's internal id; and nothing else. None are
   written exactly when one of these does not decode.
   */
  lemma ChangedEntitiesAreExact(c: Context, changed: seq<LinkRow>, page: Page)
    ensures var es := ChangedEntities(c, changed, page);
      && (es.Some? <==> AllDecode(c, changed, page.data) && AllDecode(c, changed, page.included))
      && (es.Some? ==>
           forall x :: x in es.value <==> GivenBy(c, changed, page.data, x) || GivenBy(c, changed, page.included, x))
  {
    DecodedIsExact(c, changed, page.data);
    DecodedIsExact(c, changed, page.included);
  }

  // ----- the stages, table by table

  /** Each table is changed by one stage only. */
  lemma TablesByStage(c: Context, db: Database, page: Page, d: Delivery, db': Database)
    requires PageSync.Syncs(c, db, page, d, db')
    ensures db'.links == AfterMissing(c, db, page, d).links
    ensures AfterLinks(c, db, page, d).db.entities == db.entities
    ensures db'.entities == PageSync.AfterEntities(c, db, page, d).entities
    ensures AfterMissing(c, db, page, d).edges == db.edges
    ensures EndsApart(Edges(c, db, page, d))
    ensures exists keys ::
      && Enumerates(keys, Keys(TypesOf(Edges(c, db, page, d))))
      && db' == Registry.ProcessRelationships(AfterMissing(c, db, page, d), c.org, Edges(c, db, page, d), keys)
  {
    var keys :| Enumerates(keys, Keys(TypesOf(Edges(c, db, page, d))))
      && db' == Registry.ProcessRelationships(AfterMissing(c, db, page, d), c.org, Edges(c, db, page, d), keys);
    RelationshipsAreStored(AfterMissing(c, db, page, d), c.org, Edges(c, db, page, d), keys);
    EndsApartIff(c.org, Edges(c, db, page, d));
    EntityStage(c, db, page, d);
    MissingStage(c, db, page, d);
  }

  lemma EntityStage(c: Context, db: Database, page: Page, d: Delivery)
    requires Succeeds(c, db, page, d)
    ensures AfterLinks(c, db, page, d).db == db.(links := AfterLinks(c, db, page, d).db.links)
    ensures var o, after := AfterLinks(c, db, page, d), PageSync.AfterEntities(c, db, page, d);
      after == o.db.(entities := after.entities)
  {
    var o := AfterLinks(c, db, page, d);
    EntityWritesOnlyEntities(o.db, c.tableOf,
      GroupBy(ChangedEntities(c, o.changed, page).value, (e: EntityInput) => e.entity.tag));
  }

  lemma MissingStage(c: Context, db: Database, page: Page, d: Delivery)
    ensures var before, after := PageSync.AfterEntities(c, db, page, d), AfterMissing(c, db, page, d);
      after == before.(links := after.links) && LinksPersist(before, after)
  {
    var o, before := AfterLinks(c, db, page, d), PageSync.AfterEntities(c, db, page, d);
    var missing := PageMissing(c, o, page);
    MissingIsExact(Entities(page), c.discovered, Known(o).Keys);
    if missing != [] {
      MissingLinksAreDistinctInputs(missing, d.drawnMissing);
      var asked := LinkInputs(missing, d.drawnMissing);
      DistinctBatchIsProcessed(before, c.org, asked, d.missingAt, false, d.missingOrder);
      ProcessedIsRun(before, c.org, asked, d.missingAt, false, d.missingOrder);
      RunKeepsLinks(before, LinkStatements(c.org, asked, d.missingAt, d.missingOrder));
    }
  }

  /**
   After a successful sync each of these entities whose type has a table has its row as `WrittenAs`
   says, unless an entity of another type goes to the same one; and every row that none of them goes
   to is as it was.
   */
  lemma SyncedEntitiesAreWritten(c: Context, db: Database, page: Page, d: Delivery, db': Database)
    requires PageSync.Syncs(c, db, page, d, db')
    ensures var o := AfterLinks(c, db, page, d);
      && o.Processed? && ChangedEntities(c, o.changed, page).Some?
      && var es := ChangedEntities(c, o.changed, page).value;
         && (forall x :: x in es && OwnRow(c.tableOf, es, x) ==>
              WrittenAs(db.entities, db'.entities, EntityKey(c.tableOf[x.entity.tag], x.id), x.entity))
         && (forall k :: !EntityTable.Written(c.tableOf, es, k) ==>
              (k in db'.entities <==> k in db.entities) && (k in db.entities ==> db'.entities[k] == db.entities[k]))
  {
    var o := AfterLinks(c, db, page, d);
    TablesByStage(c, db, page, d, db');
    EntitiesAreWritten(o.db, c.tableOf, ChangedEntities(c, o.changed, page).value);
  }

  // ----- the entity behind a link

  lemma ReturnedNamesItsEntity(
    db: Database, org: string, inputs: seq<LinkInput>, now: int, force: bool, schedule: Schedule, r: LinkRow)
    requires LinkTable.ProcessExternalLinks(db, org, inputs, now, force, schedule).Processed?
    requires r in LinkTable.ProcessExternalLinks(db, org, inputs, now, force, schedule).all
    ensures var o := LinkTable.ProcessExternalLinks(db, org, inputs, now, force, schedule);
      r.key in o.db.links && o.db.links[r.key].entityId == r.value.entityId
  {
    var es, rs := EntityRows(org, inputs, now), ReferenceRows(org, inputs, now);
    PartsReturned(db, org, inputs, now, force, schedule);
    var entitiesDone, referencesDone :=
      LinkTable.AfterEntities(db.links, es, rs, schedule), AfterReferences(db.links, es, rs, schedule);
    UpsertKeepsLinks(entitiesDone, rs, KeepLink);
    UpsertKeepsLinks(referencesDone, es, TouchLink);
  }

  lemma KnownIffOnPage(c: Context, db: Database, page: Page, d: Delivery, id: string)
    requires AfterLinks(c, db, page, d).Processed?
    ensures id in Known(AfterLinks(c, db, page, d)) <==> OnPage(page, id)
  {
    var o, inputs := AfterLinks(c, db, page, d), PageLinks(c, page, d.drawn);
    ResolveKeys(map[], o.all, id);
    if r :| r in o.all && r.key.externalId == id {
      ReturnedIsOnPage(c, db, page, d, r);
    }
    if i :| 0 <= i < |Entities(page)| && Entities(page)[i].id == id {
      InputComesBack(db, c.org, inputs, d.linksAt, d.force, d.linkOrder, i);
    }
  }

  lemma ReturnedIsOnPage(c: Context, db: Database, page: Page, d: Delivery, r: LinkRow)
    requires AfterLinks(c, db, page, d).Processed? && r in AfterLinks(c, db, page, d).all
    ensures OnPage(page, r.key.externalId) && r.key == PcoKey(c.org, r.key.externalId)
  {
    ReturnedHasInput(db, c.org, PageLinks(c, page, d.drawn), d.linksAt, d.force, d.linkOrder, r);
    InputsAreOnPage(c, page, d.drawn, r.key.externalId);
  }

  /** Every input of an accepted batch has a returned row. */
  lemma InputComesBack(
    db: Database, org: string, inputs: seq<LinkInput>, now: int, force: bool, schedule: Schedule, i: nat)
    requires LinkTable.ProcessExternalLinks(db, org, inputs, now, force, schedule).Processed? && i < |inputs|
    ensures exists r ::
      r in LinkTable.ProcessExternalLinks(db, org, inputs, now, force, schedule).all && r.key == KeyOf(org, inputs[i])
  {
    var es, rs := EntityRows(org, inputs, now), ReferenceRows(org, inputs, now);
    var entitiesDone, referencesDone :=
      LinkTable.AfterEntities(db.links, es, rs, schedule), AfterReferences(db.links, es, rs, schedule);
    var o := LinkTable.ProcessExternalLinks(db, org, inputs, now, force, schedule);
    PartsReturned(db, org, inputs, now, force, schedule);
    assert o.all == Returned(entitiesDone, es) + Returned(referencesDone, rs);
    InputKeyInRows(org, inputs, now, i);
    var k := KeyOf(org, inputs[i]);
    if HasKey(es, k) {
      var r := RowOfKey(entitiesDone, es, k);
      assert r in o.all;
    } else {
      var r := RowOfKey(referencesDone, rs, k);
      assert r in o.all;
    }
  }

  lemma InputKeyInRows(org: string, inputs: seq<LinkInput>, now: int, i: nat)
    requires i < |inputs|
    ensures var k := KeyOf(org, inputs[i]);
      HasKey(EntityRows(org, inputs, now), k) || HasKey(ReferenceRows(org, inputs, now), k)
  {
    assert inputs[i] in inputs;
    InputHasItsRow(org, inputs, inputs[i], now);
  }

  lemma RowOfKey(t: map<LinkKey, Link>, rows: seq<LinkRow>, k: LinkKey) returns (r: LinkRow)
    requires HasKey(rows, k) && forall j :: 0 <= j < |rows| ==> rows[j].key in t
    ensures r in Returned(t, rows) && r.key == k
  {
    var j :| 0 <= j < |rows| && rows[j].key == k;
    r := Returned(t, rows)[j];
  }

  /** The page's own ids and the referenced ones are linked, each to the entity its row names in the end. */
  lemma LinkedOnSync(c: Context, db: Database, page: Page, d: Delivery, db': Database, id: string)
    requires PageSync.Syncs(c, db, page, d, db')
    ensures var links := AllLinks(c, db, page, d);
      && (id in links <==> OnPage(page, id) || Referenced(Entities(page), c.discovered, id))
      && (id in links ==>
           LinkKey(c.org, "pco", id) in db'.links
             && links[id].entityId == db'.links[LinkKey(c.org, "pco", id)].entityId)
  {
    var o, before := AfterLinks(c, db, page, d), PageSync.AfterEntities(c, db, page, d);
    var missing := PageMissing(c, o, page);
    TablesByStage(c, db, page, d, db');
    KnownIffOnPage(c, db, page, d, id);
    MissingIsExact(Entities(page), c.discovered, Known(o).Keys);
    CompletedIsExact(before, c.org, missing, Known(o), d.drawnMissing, d.missingAt, d.missingOrder, id);
    if id in Known(o) {
      KnownNamesStored(c, db, page, d, db', id);
    }
  }

  lemma KnownNamesStored(c: Context, db: Database, page: Page, d: Delivery, db': Database, id: string)
    requires PageSync.Syncs(c, db, page, d, db') && id in Known(AfterLinks(c, db, page, d))
    ensures var k := LinkKey(c.org, "pco", id);
      k in db'.links && Known(AfterLinks(c, db, page, d))[id].entityId == db'.links[k].entityId
  {
    var o := AfterLinks(c, db, page, d);
    TablesByStage(c, db, page, d, db');
    EntitiesKeepLinks(c, db, page, d);
    MissingStage(c, db, page, d);
    ResolveKeys(map[], o.all, id);
    var r :| r in o.all && r.key.externalId == id && Known(o)[id] == Info(r);
    ReturnedIsOnPage(c, db, page, d, r);
    ReturnedNamesItsEntity(db, c.org, PageLinks(c, page, d.drawn), d.linksAt, d.force, d.linkOrder, r);
  }

  // ----- the edges

  /** The entity refers to the target by an annotated relation of its schema. */
  predicate Relates(c: Context, e: PageEntity, a: Annotation, target: string) {
    && e.typ in c.schemas && a in c.schemas[e.typ].annotations
    && e.relationships.Some? && a.relKey in e.relationships.value && e.relationships.value[a.relKey] == Some(target)
  }

  /** It is on the page, or some entity of the page refers to it. */
  ghost predicate IsLinked(c: Context, page: Page, id: string) {
    OnPage(page, id) || Referenced(Entities(page), c.discovered, id)
  }

  /**
   k is the key of the edge for the relation: it joins the entities that the two links name, oriented,
   each end with its own tag, and its type is spelled from source to target.
   */
  ghost predicate IsEdgeOf(
    c: Context, t: map<LinkKey, Link>, e: PageEntity, a: Annotation, target: string, k: EdgeKey, sourceTag: string,
    targetTag: string)
  {
    var from, to := LinkKey(c.org, "pco", e.id), LinkKey(c.org, "pco", target);
    && e.typ in c.schemas && from in t && to in t && k.org == c.org
    && var name := if c.schemas[e.typ].name.Some? then c.schemas[e.typ].name.value else e.typ;
       && multiset{(k.source, sourceTag), (k.target, targetTag)}
         == multiset{(t[from].entityId, name), (t[to].entityId, a.target)}
       && Canonical(k.source, k.target) && (k.source == k.target ==> sourceTag == name)
       && k.relationshipType == sourceTag + "_" + (if '_' in a.relKey then a.relKey else "has") + "_" + targetTag
  }

  /** The edge is in the table, as the relation says if it is new, and with its metadata and time if it was there. */
  ghost predicate EdgeStored(
    before: map<EdgeKey, Edge>, after: map<EdgeKey, Edge>, e: PageEntity, a: Annotation, k: EdgeKey, sourceTag: string,
    targetTag: string)
  {
    && k in after
    && after[k].metadata == map["relationshipKey" := a.relKey, "source" := "pco_direct"]
    && (e.updatedAt.Some? ==> after[k].updatedAt == e.updatedAt)
    && (k in before ==> after[k] == before[k].(metadata := after[k].metadata, updatedAt := after[k].updatedAt))
    && (k !in before ==>
         && after[k].sourceTag == sourceTag && after[k].targetTag == targetTag
         && (e.createdAt.Some? ==> after[k].createdAt == e.createdAt.value)
         && after[k].createdBy == after[k].updatedBy == after[k].deletedBy == None && after[k].deletedAt == None)
  }

  /** The edge has the times of the entity, and where that has none the time its link was processed. */
  ghost predicate EdgeDated(
    before: map<EdgeKey, Edge>, after: map<EdgeKey, Edge>, e: PageEntity, k: EdgeKey, processedAt: int)
  {
    && k in after && after[k].updatedAt == Some(if e.updatedAt.Some? then e.updatedAt.value else processedAt)
    && (k !in before ==> after[k].createdAt == if e.createdAt.Some? then e.createdAt.value else processedAt)
  }

  lemma RelationIsCalled(
    c: Context, db: Database, page: Page, d: Delivery, db': Database, e: PageEntity, a: Annotation, target: string)
    requires PageSync.Syncs(c, db, page, d, db') && e in Entities(page) && Relates(c, e, a, target)
      && IsLinked(c, page, target)
    ensures Call(e, a) in PageCalls(c, db, page, d)
  {
    var links := AllLinks(c, db, page, d);
    var i :| 0 <= i < |Entities(page)| && Entities(page)[i] == e;
    LinkedOnSync(c, db, page, d, db', e.id);
    LinkedOnSync(c, db, page, d, db', target);
    ByTypePermutes(Entities(page));
    CallsAreExact(ByType(Entities(page)), c.schemas, links, Call(e, a));
  }

  lemma CalledRelates(c: Context, db: Database, page: Page, d: Delivery, db': Database, call: Call)
    requires PageSync.Syncs(c, db, page, d, db') && call in PageCalls(c, db, page, d)
    ensures call.entity in Entities(page) && Data(call.entity, call.annotation.relKey).Some?
    ensures var target := Data(call.entity, call.annotation.relKey).value;
      Relates(c, call.entity, call.annotation, target) && IsLinked(c, page, target)
  {
    var target := Data(call.entity, call.annotation.relKey);
    CallsAreExact(ByType(Entities(page)), c.schemas, AllLinks(c, db, page, d), call);
    ByTypePermutes(Entities(page));
    LinkedOnSync(c, db, page, d, db', target.value);
  }

  /** The emitted edge has the key that the relation asks for, with the ids that the links name in the end. */
  lemma StatedKey(c: Context, db: Database, page: Page, d: Delivery, db': Database, call: Call, r: RelationshipInput)
    requires PageSync.Syncs(c, db, page, d, db') && Data(call.entity, call.annotation.relKey).Some?
      && call.entity.typ in c.schemas
    requires States(r, call.entity, NameOf(c.schemas, call.entity), call.annotation, AllLinks(c, db, page, d))
    ensures IsEdgeOf(c, db'.links, call.entity, call.annotation, Data(call.entity, call.annotation.relKey).value,
      EdgeKey(c.org, r.sourceId, r.targetId, r.relationshipType), r.sourceTag, r.targetTag)
  {
    var target := Data(call.entity, call.annotation.relKey).value;
    LinkedOnSync(c, db, page, d, db', call.entity.id);
    LinkedOnSync(c, db, page, d, db', target);
    TypeInLetters(r.sourceTag, call.annotation.relKey, r.targetTag);
  }

  lemma TypeInLetters(a: string, relKey: string, b: string)
    ensures a + Middle(relKey) + b == a + "_" + (if '_' in relKey then relKey else "has") + "_" + b
  {
    MiddleInLetters(relKey);
    var m := if '_' in relKey then relKey else "has";
    assert a + ("_" + m + "_") + b == a + "_" + m + "_" + b;
  }

  lemma StatedIsStored(
    before: map<EdgeKey, Edge>, after: map<EdgeKey, Edge>, org: string, r: RelationshipInput, e: PageEntity,
    name: string, a: Annotation, links: LinkMap)
    requires States(r, e, name, a, links) && StoredAs(before, after, org, r)
    requires r.createdBy == r.updatedBy == r.deletedBy == None
    ensures EdgeStored(before, after, e, a, EdgeKey(org, r.sourceId, r.targetId, r.relationshipType), r.sourceTag,
      r.targetTag)
  {
  }

  /**
   Each relation of the page between linked entities has its edge in the table after a sync: joining the
   entities that the links name, oriented, each tag at its own id, with the relation's metadata.
   */
  lemma SyncedRelationIsStored(
    c: Context, db: Database, page: Page, d: Delivery, db': Database, e: PageEntity, a: Annotation, target: string)
    requires AllNamed(db, page, d) && PageSync.Syncs(c, db, page, d, db')
    requires e in Entities(page) && Relates(c, e, a, target) && IsLinked(c, page, target)
    ensures exists k, sourceTag, targetTag ::
      && IsEdgeOf(c, db'.links, e, a, target, k, sourceTag, targetTag)
      && EdgeStored(db.edges, db'.edges, e, a, k, sourceTag, targetTag)
      && LinkKey(c.org, "pco", e.id) in db'.links
      && (DistinctPage(page) ==>
           EdgeDated(db.edges, db'.edges, e, k, db'.links[LinkKey(c.org, "pco", e.id)].lastProcessedAt))
  {
    var calls, edges := PageCalls(c, db, page, d), Edges(c, db, page, d);
    RelationIsCalled(c, db, page, d, db', e, a, target);
    PageCallsAreAnswered(c, db, page, d);
    var i :| 0 <= i < |calls| && calls[i] == Call(e, a);
    EdgeIsStored(c, db, page, d, db', i);
    StatedKey(c, db, page, d, db', calls[i], edges[i]);
    EdgesHaveNoAuthor(c, db, page, d, i);
    StatedIsStored(db.edges, db'.edges, c.org, edges[i], e, NameOf(c.schemas, e), a, AllLinks(c, db, page, d));
    if DistinctPage(page) {
      var j :| 0 <= j < |Entities(page)| && Entities(page)[j] == e;
      PageLinkIsDated(c, db, page, d, db', e.id);
      StatedIsDated(db.edges, db'.edges, c.org, edges[i], e, NameOf(c.schemas, e), a, AllLinks(c, db, page, d));
    }
  }

  lemma StatedIsDated(
    before: map<EdgeKey, Edge>, after: map<EdgeKey, Edge>, org: string, r: RelationshipInput, e: PageEntity,
    name: string, a: Annotation, links: LinkMap)
    requires States(r, e, name, a, links) && StoredAs(before, after, org, r)
    ensures EdgeDated(before, after, e, EdgeKey(org, r.sourceId, r.targetId, r.relationshipType),
      links[e.id].lastProcessedAt)
  {
  }

  /** On a page of distinct entities the edges are dated by the links as they are stored in the end. */
  lemma PageLinkIsDated(c: Context, db: Database, page: Page, d: Delivery, db': Database, id: string)
    requires DistinctPage(page) && PageSync.Syncs(c, db, page, d, db') && OnPage(page, id)
    ensures var links, k := AllLinks(c, db, page, d), LinkKey(c.org, "pco", id);
      id in links && k in db'.links && links[id].lastProcessedAt == db'.links[k].lastProcessedAt
  {
    var o, before, inputs := AfterLinks(c, db, page, d), PageSync.AfterEntities(c, db, page, d),
      PageLinks(c, page, d.drawn);
    KnownIffOnPage(c, db, page, d, id);
    MissingIsExact(Entities(page), c.discovered, Known(o).Keys);
    CompletedIsExact(before, c.org, PageMissing(c, o, page), Known(o), d.drawnMissing, d.missingAt, d.missingOrder, id);
    ResolveKeys(map[], o.all, id);
    var r :| r in o.all && r.key.externalId == id && Known(o)[id] == Info(r);
    ReturnedIsOnPage(c, db, page, d, r);
    PageLinksAreDistinct(c, page, d.drawn);
    ReturnedRowsAreStored(db, c.org, inputs, d.linksAt, d.force, d.linkOrder, r);
    SyncedLinks(c, db, page, d, db');
  }

  lemma EdgeIsStored(c: Context, db: Database, page: Page, d: Delivery, db': Database, i: nat)
    requires PageSync.Syncs(c, db, page, d, db') && i < |Edges(c, db, page, d)|
    ensures StoredAs(db.edges, db'.edges, c.org, Edges(c, db, page, d)[i])
  {
    TablesByStage(c, db, page, d, db');
    var keys :| Enumerates(keys, Keys(TypesOf(Edges(c, db, page, d))))
      && db' == Registry.ProcessRelationships(AfterMissing(c, db, page, d), c.org, Edges(c, db, page, d), keys);
    RelationshipsAreStored(AfterMissing(c, db, page, d), c.org, Edges(c, db, page, d), keys);
  }

  /** No edge of a page has an author. */
  lemma EdgesHaveNoAuthor(c: Context, db: Database, page: Page, d: Delivery, i: nat)
    requires i < |Edges(c, db, page, d)|
    ensures var r := Edges(c, db, page, d)[i];
      r.createdBy == r.updatedBy == r.deletedBy == None
  {
    assert Edges(c, db, page, d)[i] in Edges(c, db, page, d);
    ExtractedHaveNoAuthor(ByType(Entities(page)), c.schemas, AllLinks(c, db, page, d));
  }

  lemma {:induction false} ExtractedHaveNoAuthor(es: seq<PageEntity>, schemas: map<string, Schema>, links: LinkMap)
    ensures forall r :: r in EdgesOf(es, schemas, links) ==> r.createdBy == r.updatedBy == r.deletedBy == None
  {
    if es != [] {
      ExtractedHaveNoAuthor(es[1..], schemas, links);
      if es[0].typ in schemas {
        EntityEdgesHaveNoAuthor(es[0], NameOf(schemas, es[0]), schemas[es[0].typ].annotations, links);
      }
    }
  }

  lemma {:induction false} EntityEdgesHaveNoAuthor(
    e: PageEntity, name: string, annotations: seq<Annotation>, links: LinkMap)
    ensures forall r :: r in EdgesOfEntity(e, name, annotations, links) ==>
      r.createdBy == r.updatedBy == r.deletedBy == None
  {
    if annotations != [] {
      EntityEdgesHaveNoAuthor(e, name, annotations[1..], links);
    }
  }

  /** k is the key of an edge that the page asks for. */
  ghost predicate AskedFor(c: Context, page: Page, t: map<LinkKey, Link>, k: EdgeKey) {
    exists e, a, target, sourceTag, targetTag ::
      && e in Entities(page) && Relates(c, e, a, target) && IsLinked(c, page, target)
      && IsEdgeOf(c, t, e, a, target, k, sourceTag, targetTag)
  }

  /** And no other edge is in the table that was not there, or is changed. */
  lemma OtherEdgesStay(c: Context, db: Database, page: Page, d: Delivery, db': Database, k: EdgeKey)
    requires AllNamed(db, page, d) && PageSync.Syncs(c, db, page, d, db') && !AskedFor(c, page, db'.links, k)
    ensures (k in db'.edges <==> k in db.edges) && (k in db.edges ==> db'.edges[k] == db.edges[k])
  {
    var edges := Edges(c, db, page, d);
    TablesByStage(c, db, page, d, db');
    var keys :| Enumerates(keys, Keys(TypesOf(edges)))
      && db' == Registry.ProcessRelationships(AfterMissing(c, db, page, d), c.org, edges, keys);
    RelationshipsAreStored(AfterMissing(c, db, page, d), c.org, edges, keys);
    if NamesEdge(c.org, edges, k) {
      var i :| 0 <= i < |edges| && k == EdgeKey(c.org, edges[i].sourceId, edges[i].targetId, edges[i].relationshipType);
      EdgeIsAskedFor(c, db, page, d, db', i);
      assert false;
    }
  }

  lemma EdgeIsAskedFor(c: Context, db: Database, page: Page, d: Delivery, db': Database, i: nat)
    requires AllNamed(db, page, d) && PageSync.Syncs(c, db, page, d, db') && i < |Edges(c, db, page, d)|
    ensures var r := Edges(c, db, page, d)[i];
      AskedFor(c, page, db'.links, EdgeKey(c.org, r.sourceId, r.targetId, r.relationshipType))
  {
    var calls := PageCalls(c, db, page, d);
    PageCallsAreAnswered(c, db, page, d);
    assert calls[i] in calls;
    CalledRelates(c, db, page, d, db', calls[i]);
    StatedKey(c, db, page, d, db', calls[i], Edges(c, db, page, d)[i]);
  }

  // ----- the page's own links

  /** Each entity of the page has its link, with the type's name, its id and its times, as `InColumns` says. */
  lemma SyncedLinkInColumns(c: Context, db: Database, page: Page, d: Delivery, db': Database, i: nat)
    requires DistinctPage(page) && PageSync.Syncs(c, db, page, d, db') && i < |Entities(page)|
    ensures var e, k := Entities(page)[i], LinkKey(c.org, "pco", Entities(page)[i].id);
      && k in db'.links
      && InColumns(db.links, k,
        LinkInput("pco", e.id, c.nameOf(e.typ), e.entityId, e.createdAt, e.updatedAt, d.drawn(i)),
           d.linksAt, db'.links[k])
  {
    PageLinkAfterSync(c, db, page, d, db', i);
    AfterInColumns(db.links, c.org, PageLinks(c, page, d.drawn)[i], d.linksAt);
  }

  /**
   Where every batch before is more than a millisecond old, an entity of the page that is new, or whose
   time differs from the stored one, is written: in either list, decoded under the id its link names.
   */
  lemma ChangedEntityIsWritten(c: Context, db: Database, page: Page, d: Delivery, db': Database, i: nat, x: EntityInput)
    requires DistinctPage(page) && PageSync.Syncs(c, db, page, d, db') && i < |Entities(page)|
    requires var e, k := Entities(page)[i], LinkKey(c.org, "pco", Entities(page)[i].id);
      k !in db.links || ((e.createdAt.Some? || e.updatedAt.Some?)
        && db.links[k].updatedAt != Some(if e.updatedAt.Some? then e.updatedAt.value else d.linksAt))
    requires LinkKey(c.org, "pco", Entities(page)[i].id) in db'.links
    requires c.transform(db'.links[LinkKey(c.org, "pco", Entities(page)[i].id)].entityId, Entities(page)[i]) == Some(x)
    ensures var o := AfterLinks(c, db, page, d);
      && o.Processed? && ChangedEntities(c, o.changed, page).Some? && x in ChangedEntities(c, o.changed, page).value
      && (OwnRow(c.tableOf, ChangedEntities(c, o.changed, page).value, x) ==>
           WrittenAs(db.entities, db'.entities, EntityKey(c.tableOf[x.entity.tag], x.id), x.entity))
  {
    var o := AfterLinks(c, db, page, d);
    ChangedRowComesBack(c, db, page, d, db', i);
    var k := LinkKey(c.org, "pco", Entities(page)[i].id);
    SyncedEntitiesAreWritten(c, db, page, d, db');
    ChangedIsGiven(c, o.changed, page, i, Row(k, db'.links[k]), x);
  }

  lemma ChangedIsGiven(c: Context, changed: seq<LinkRow>, page: Page, i: nat, r: LinkRow, x: EntityInput)
    requires DistinctPage(page) && i < |Entities(page)| && r in changed && ChangedEntities(c, changed, page).Some?
    requires r.key.externalId == Entities(page)[i].id && c.transform(r.value.entityId, Entities(page)[i]) == Some(x)
    ensures x in ChangedEntities(c, changed, page).value
  {
    var n :| 0 <= n < |changed| && changed[n] == r;
    var j := if i < |page.data| then i else i - |page.data|;
    var es := if i < |page.data| then page.data else page.included;
    assert es[j] == Entities(page)[i];
    IdsOfList(page, es);
    assert Finds(changed, es, n, j);
    ChangedEntitiesAreExact(c, changed, page);
  }

  lemma IdsOfList(page: Page, es: seq<PageEntity>)
    requires DistinctPage(page) && (es == page.data || es == page.included)
    ensures forall i, j :: 0 <= i < j < |es| ==> es[i].id != es[j].id
  {
    var offset := if es == page.data then 0 else |page.data|;
    assert forall i :: 0 <= i < |es| ==> Entities(page)[offset + i] == es[i];
    forall i, j | 0 <= i < j < |es|
      ensures es[i].id != es[j].id
    {
      assert Entities(page)[offset + i].id != Entities(page)[offset + j].id;
    }
  }

  lemma ChangedRowComesBack(c: Context, db: Database, page: Page, d: Delivery, db': Database, i: nat)
    requires DistinctPage(page) && PageSync.Syncs(c, db, page, d, db') && i < |Entities(page)|
    requires var e, k := Entities(page)[i], LinkKey(c.org, "pco", Entities(page)[i].id);
      k !in db.links || ((e.createdAt.Some? || e.updatedAt.Some?)
        && db.links[k].updatedAt != Some(if e.updatedAt.Some? then e.updatedAt.value else d.linksAt))
    ensures var o, k := AfterLinks(c, db, page, d), LinkKey(c.org, "pco", Entities(page)[i].id);
      o.Processed? && k in db'.links && Row(k, db'.links[k]) in o.changed
  {
    PageLinkAfterSync(c, db, page, d, db', i);
    ProcessedRowComesBack(c, db, page, d, i);
  }

  lemma ProcessedRowComesBack(c: Context, db: Database, page: Page, d: Delivery, i: nat)
    requires DistinctPage(page) && i < |Entities(page)|
    requires var e, k := Entities(page)[i], LinkKey(c.org, "pco", Entities(page)[i].id);
      k !in db.links || ((e.createdAt.Some? || e.updatedAt.Some?)
        && db.links[k].updatedAt != Some(if e.updatedAt.Some? then e.updatedAt.value else d.linksAt))
    ensures var o, input := AfterLinks(c, db, page, d), PageLinks(c, page, d.drawn)[i];
      o.Processed? && Row(KeyOf(c.org, input), LinkAfter(db.links, c.org, input, d.linksAt)) in o.changed
  {
    var inputs := PageLinks(c, page, d.drawn);
    PageLinksAreDistinct(c, page, d.drawn);
    assert inputs[i] in inputs;
    ProcessedNow(db.links, c.org, inputs[i], d.linksAt);
    ReturnedRow(db, c.org, inputs, d.linksAt, d.force, d.linkOrder, inputs[i]);
  }
}
