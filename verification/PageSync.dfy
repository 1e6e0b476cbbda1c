/**
 The sync of one page of a response: the links of its entities, the entities whose links
 changed, and the edges between them, in that order; and what a second sync of the page does.
 */
module PageSync {
  import opened EntityTable
  import opened InternalManager
  import opened LinkTable
  import opened Redelivery
  import opened Registry
  import opened RelationshipExtraction
  import opened RelationshipUtils
  import opened Seqs
  import opened Tables
  import opened Wrappers

  type PageEntity = RelationshipExtraction.Entity

  datatype Page = Page(data: seq<PageEntity>, included: seq<PageEntity>)

  /** The organisation and what its adapter knows; `transform` fails when an entity does not decode. */
  datatype Context = Context(
    org: string, tableOf: map<string, string>, nameOf: string -> string,
    discovered: map<string, seq<Annotation>>, schemas: map<string, Schema>,
    transform: (string, PageEntity) -> Option<EntityInput>)

  /** The clock readings, ids and statement orders of one sync, and what still runs when it fails. */
  datatype Delivery = Delivery(
    linksAt: int, force: bool, drawn: nat -> string, linkOrder: Schedule, entitiesReached: nat -> bool,
    missingAt: int, drawnMissing: nat -> string, missingOrder: Schedule)

  function Entities(page: Page): (es: seq<PageEntity>) {
    page.data + page.included
  }

  function LinkOf(c: Context, e: PageEntity, drawn: string): (i: LinkInput) {
    LinkInput("pco", e.id, c.nameOf(e.typ), e.entityId, e.createdAt, e.updatedAt, drawn)
  }

  function PageLinks(c: Context, page: Page, drawn: nat -> string): (inputs: seq<LinkInput>)
    ensures |inputs| == |Entities(page)|
    ensures forall i :: 0 <= i < |inputs| ==> inputs[i] == LinkOf(c, Entities(page)[i], drawn(i))
  {
    seq(|Entities(page)|, i requires 0 <= i < |Entities(page)| => LinkOf(c, Entities(page)[i], drawn(i)))
  }

  function FindById(es: seq<PageEntity>, id: string): (e: Option<PageEntity>) {
    if es == [] then None else if es[0].id == id then Some(es[0]) else FindById(es[1..], id)
  }

  /** The entities of one list behind the changed links, decoded; none at all if one fails. */
  function Decoded(c: Context, changed: seq<LinkRow>, es: seq<PageEntity>): (out: Option<seq<EntityInput>>) {
    if changed == [] then Some([])
    else
      var rest := Decoded(c, changed[1..], es);
      match FindById(es, changed[0].key.externalId)
      case None => rest
      case Some(e) =>
        var first := c.transform(changed[0].value.entityId, e);
        if first.None? || rest.None? then None else Some([first.value] + rest.value)
  }

  function ChangedEntities(c: Context, changed: seq<LinkRow>, page: Page): (out: Option<seq<EntityInput>>) {
    var data, included := Decoded(c, changed, page.data), Decoded(c, changed, page.included);
    if data.None? || included.None? then None else Some(data.value + included.value)
  }

  // ----- the stages

  function AfterLinks(c: Context, db: Database, page: Page, d: Delivery): (o: LinkOutcome) {
    LinkTable.ProcessExternalLinks(db, c.org, PageLinks(c, page, d.drawn), d.linksAt, d.force, d.linkOrder)
  }

  function EntityWrites(c: Context, o: LinkOutcome, page: Page): (ss: seq<Statement>) {
    if o.Refused? || ChangedEntities(c, o.changed, page).None? then []
    else EntityStatements(c.tableOf, ChangedEntities(c, o.changed, page).value)
  }

  function AfterEntities(c: Context, db: Database, page: Page, d: Delivery): (db': Database) {
    var o := AfterLinks(c, db, page, d);
    Run(o.db, EntityWrites(c, o, page))
  }

  function Known(o: LinkOutcome): (links: LinkMap) {
    if o.Processed? then Resolve(map[], o.all) else map[]
  }

  function PageMissing(c: Context, o: LinkOutcome, page: Page): (missing: seq<Reference>) {
    Missing(Entities(page), c.discovered, Known(o))
  }

  function AskFor(db: Database, org: string, missing: seq<Reference>, d: Delivery): (o: LinkOutcome) {
    LinkTable.ProcessExternalLinks(db, org, LinkInputs(missing, d.drawnMissing), d.missingAt, false, d.missingOrder)
  }

  function AfterMissing(c: Context, db: Database, page: Page, d: Delivery): (db': Database) {
    var o := AfterLinks(c, db, page, d);
    var before, missing := AfterEntities(c, db, page, d), PageMissing(c, o, page);
    if missing == [] then before
    else AskFor(before, c.org, missing, d).db
  }

  /** The links of the page and of everything it refers to. */
  function AllLinks(c: Context, db: Database, page: Page, d: Delivery): (links: LinkMap) {
    var o := AfterLinks(c, db, page, d);
    Completed(AfterEntities(c, db, page, d), c.org, PageMissing(c, o, page), Known(o), d.drawnMissing, d.missingAt,
      d.missingOrder)
  }

  function Edges(c: Context, db: Database, page: Page, d: Delivery): (rs: seq<RelationshipInput>) {
    ExtractRelationships(Entities(page), c.schemas, AllLinks(c, db, page, d))
  }

  /** The links are accepted, every changed entity decodes, and every entity statement is accepted. */
  predicate EntitiesSucceed(c: Context, db: Database, page: Page, d: Delivery) {
    var o := AfterLinks(c, db, page, d);
    && o.Processed?
    && ChangedEntities(c, o.changed, page).Some?
    && AllAccepted(EntityWrites(c, o, page))
  }

  predicate Succeeds(c: Context, db: Database, page: Page, d: Delivery) {
    EntitiesSucceed(c, db, page, d) && DistinctKeys(EdgeRowsOf(c.org, Edges(c, db, page, d)))
  }

  /** A successful sync takes db to db'. */
  ghost predicate Syncs(c: Context, db: Database, page: Page, d: Delivery, db': Database) {
    && Succeeds(c, db, page, d)
    && exists keys :: Enumerates(keys, Keys(TypesOf(Edges(c, db, page, d))))
         && db' == Registry.ProcessRelationships(AfterMissing(c, db, page, d), c.org, Edges(c, db, page, d), keys)
  }

  /** processPcoData. */
  method ProcessPcoData(manager: Manager, c: Context, page: Page, d: Delivery) returns (r: Result<(), ()>)
    requires manager.org == c.org && manager.tableOf == c.tableOf
    modifies manager
    ensures r.Ok? <==> Succeeds(c, old(manager.Db()), page, d)
    ensures r.Ok? ==> Syncs(c, old(manager.Db()), page, d, manager.Db())
  {
    var all := WriteEntities(manager, c, page, d);
    if all.Err? {
      return Err(());
    }
    var links := AddLinks(map[], all.value);
    var edges := ExtractRelationshipsEnhanced(manager, Entities(page), c.discovered, c.schemas, links, d.drawnMissing,
      d.missingAt, d.missingOrder);
    var related := manager.ProcessRelationships(edges);
    r := if related.Ok? then Ok(()) else Err(());
  }

  /** The first half: links and entities; gives back the rows of all links. */
  method WriteEntities(manager: Manager, c: Context, page: Page, d: Delivery) returns (r: Result<seq<LinkRow>, ()>)
    requires manager.org == c.org && manager.tableOf == c.tableOf
    modifies manager
    ensures r.Ok? <==> EntitiesSucceed(c, old(manager.Db()), page, d)
    ensures r.Ok? ==> r.value == AfterLinks(c, old(manager.Db()), page, d).all
    ensures r.Ok? ==> manager.Db() == AfterEntities(c, old(manager.Db()), page, d)
  {
    var processed := manager.ProcessExternalLinks(PageLinks(c, page, d.drawn), d.linksAt, d.force, d.linkOrder);
    if processed.Err? {
      return Err(());
    }
    var (all, changed) := processed.value;
    ghost var o := AfterLinks(c, old(manager.Db()), page, d);
    assert o == Processed(manager.Db(), all, changed);
    var es := ChangedEntities(c, changed, page);
    if es.None? {
      return Err(());
    }
    var written := manager.ProcessEntities(es.value, d.entitiesReached);
    r := if written.Ok? then Ok(all) else Err(());
  }

  // ----- what the later stages leave alone

  lemma {:induction false} EntityWritesOnlyEntities(
    db: Database, tableOf: map<string, string>, gs: seq<Group<EntityInput>>)
    ensures var db' := Run(db, StatementsFor(tableOf, gs));
      db' == db.(entities := db'.entities)
    decreases gs
  {
    if gs != [] {
      var first := if gs[0].key in tableOf then [UpsertEntities(EntityTable.RowsFor(tableOf[gs[0].key], gs[0].items))]
        else [];
      var rest := StatementsFor(tableOf, gs[1..]);
      RunAppend(db, first, rest);
      if first != [] {
        RunThree(db, first[0], first[0], first[0]);
      }
      EntityWritesOnlyEntities(Run(db, first), tableOf, gs[1..]);
    }
  }

  lemma EntitiesKeepLinks(c: Context, db: Database, page: Page, d: Delivery)
    ensures AfterEntities(c, db, page, d).links == AfterLinks(c, db, page, d).db.links
  {
    var o := AfterLinks(c, db, page, d);
    if o.Processed? && ChangedEntities(c, o.changed, page).Some? {
      EntityWritesOnlyEntities(o.db, c.tableOf,
        GroupBy(ChangedEntities(c, o.changed, page).value, (e: EntityInput) => e.entity.tag));
    }
  }

  // ----- the links of a page

  predicate DistinctPage(page: Page) {
    forall i, j :: 0 <= i < j < |Entities(page)| ==> Entities(page)[i].id != Entities(page)[j].id
  }

  predicate OnPage(page: Page, id: string) {
    exists i :: 0 <= i < |Entities(page)| && Entities(page)[i].id == id
  }

  lemma PageLinksAreDistinct(c: Context, page: Page, drawn: nat -> string)
    requires DistinctPage(page)
    ensures DistinctInputs(PageLinks(c, page, drawn))
  {
  }

  lemma InputsAreOnPage(c: Context, page: Page, drawn: nat -> string, id: string)
    ensures OnPage(page, id) <==> exists input :: input in PageLinks(c, page, drawn) && input.externalId == id
    ensures forall input :: input in PageLinks(c, page, drawn) ==> input.adapter == "pco"
  {
    var inputs := PageLinks(c, page, drawn);
    if i :| 0 <= i < |Entities(page)| && Entities(page)[i].id == id {
      assert inputs[i] in inputs;
    }
    if input :| input in inputs && input.externalId == id {
      var i :| 0 <= i < |inputs| && inputs[i] == input;
      assert Entities(page)[i].id == id;
    }
  }

  /** A page of distinct entities is accepted, and its own links are the known ones. */
  lemma KnownIsOnPage(c: Context, db: Database, page: Page, d: Delivery, id: string)
    requires DistinctPage(page)
    ensures AfterLinks(c, db, page, d).Processed?
    ensures id in Known(AfterLinks(c, db, page, d)) <==> OnPage(page, id)
  {
    var o, inputs := AfterLinks(c, db, page, d), PageLinks(c, page, d.drawn);
    PageLinksAreDistinct(c, page, d.drawn);
    InputsAreOnPage(c, page, d.drawn, id);
    DistinctBatchIsProcessed(db, c.org, inputs, d.linksAt, d.force, d.linkOrder);
    ResolveKeys(map[], o.all, id);
    if r :| r in o.all && r.key.externalId == id {
      ReturnedRowsAreStored(db, c.org, inputs, d.linksAt, d.force, d.linkOrder, r);
      var input :| input in inputs && r.key == KeyOf(c.org, input);
    }
  }

  /** A missing link is never one of the page's own. */
  lemma MissingIsOffPage(c: Context, db: Database, page: Page, d: Delivery)
    requires DistinctPage(page)
    ensures var missing := PageMissing(c, AfterLinks(c, db, page, d), page);
      DistinctIds(missing) && forall r :: r in missing ==> !OnPage(page, r.id)
  {
    var o := AfterLinks(c, db, page, d);
    var missing := PageMissing(c, o, page);
    MissingIsExact(Entities(page), c.discovered, Known(o).Keys);
    forall r | r in missing
      ensures !OnPage(page, r.id)
    {
      KnownIsOnPage(c, db, page, d, r.id);
      assert r.id in Ids(missing);
    }
  }

  // ----- the same page a second time

  /** Whether the entity's link settles: it carries its updatedAt, or no time at all. */
  predicate EntitySettles(e: PageEntity) {
    e.updatedAt.Some? || e.createdAt.None?
  }

  predicate PageSettles(page: Page) {
    forall i :: 0 <= i < |Entities(page)| ==> EntitySettles(Entities(page)[i])
  }

  /** After a sync the table holds the page's links as they were processed, and every missing link. */
  lemma SyncedLinks(c: Context, db: Database, page: Page, d: Delivery, db': Database)
    requires DistinctPage(page) && Syncs(c, db, page, d, db')
    ensures db'.links == AfterMissing(c, db, page, d).links
    ensures forall k :: IsKeyOf(c.org, PageLinks(c, page, d.drawn), k) ==>
      k in db'.links && k in AfterLinks(c, db, page, d).db.links
        && db'.links[k] == AfterLinks(c, db, page, d).db.links[k]
    ensures forall r :: r in PageMissing(c, AfterLinks(c, db, page, d), page) ==> PcoKey(c.org, r.id) in db'.links
  {
    var keys :| Enumerates(keys, Keys(TypesOf(Edges(c, db, page, d))))
      && db' == Registry.ProcessRelationships(AfterMissing(c, db, page, d), c.org, Edges(c, db, page, d), keys);
    RelationshipsKeepLinks(AfterMissing(c, db, page, d), c.org, Edges(c, db, page, d), keys);
    MissingKeepsPageLinks(c, db, page, d);
  }

  lemma MissingKeepsPageLinks(c: Context, db: Database, page: Page, d: Delivery)
    requires DistinctPage(page)
    ensures var o, after := AfterLinks(c, db, page, d), AfterMissing(c, db, page, d).links;
      && (forall k :: IsKeyOf(c.org, PageLinks(c, page, d.drawn), k) ==>
        k in after && k in o.db.links && after[k] == o.db.links[k])
      && (forall r :: r in PageMissing(c, o, page) ==> PcoKey(c.org, r.id) in after)
  {
    var o, inputs := AfterLinks(c, db, page, d), PageLinks(c, page, d.drawn);
    var missing := PageMissing(c, o, page);
    PageLinksAreDistinct(c, page, d.drawn);
    DistinctBatchIsProcessed(db, c.org, inputs, d.linksAt, d.force, d.linkOrder);
    EntitiesKeepLinks(c, db, page, d);
    MissingIsOffPage(c, db, page, d);
    MissingBatchKeepsOthers(AfterEntities(c, db, page, d), c.org, missing, d.drawnMissing, d.missingAt, d.missingOrder);
    forall k | IsKeyOf(c.org, inputs, k)
      ensures !IsKeyOf(c.org, LinkInputs(missing, d.drawnMissing), k)
    {
      OffPageKeys(c, page, d, missing, k);
    }
  }

  lemma MissingBatchKeepsOthers(
    db: Database, org: string, missing: seq<Reference>, drawn: nat -> string, at: int, order: Schedule)
    requires DistinctIds(missing)
    ensures var asked := LinkInputs(missing, drawn);
      var after := LinkTable.ProcessExternalLinks(db, org, asked, at, false, order).db.links;
      && (forall k :: k in db.links && !IsKeyOf(org, asked, k) ==> k in after && after[k] == db.links[k])
      && (forall r :: r in missing ==> PcoKey(org, r.id) in after)
  {
    var asked := LinkInputs(missing, drawn);
    DistinctBatchIsProcessed(db, org, asked, at, false, order);
    forall r | r in missing
      ensures IsKeyOf(org, asked, PcoKey(org, r.id))
    {
      var i :| 0 <= i < |missing| && missing[i] == r;
      assert asked[i] in asked;
    }
  }

  lemma OffPageKeys(c: Context, page: Page, d: Delivery, missing: seq<Reference>, k: LinkKey)
    requires forall r :: r in missing ==> !OnPage(page, r.id)
    requires IsKeyOf(c.org, PageLinks(c, page, d.drawn), k)
    ensures !IsKeyOf(c.org, LinkInputs(missing, d.drawnMissing), k)
  {
  }

  /** The two syncs ask for the same links. */
  lemma SamePageLinks(c: Context, page: Page, first: Delivery, second: Delivery)
    ensures SameLinks(PageLinks(c, page, first.drawn), PageLinks(c, page, second.drawn))
    ensures forall k :: IsKeyOf(c.org, PageLinks(c, page, first.drawn), k) <==>
      IsKeyOf(c.org, PageLinks(c, page, second.drawn), k)
  {
    var a, b := PageLinks(c, page, first.drawn), PageLinks(c, page, second.drawn);
    forall k
      ensures IsKeyOf(c.org, a, k) <==> IsKeyOf(c.org, b, k)
    {
      if input :| input in a && k == KeyOf(c.org, input) {
        var i :| 0 <= i < |a| && a[i] == input;
        assert b[i] in b && KeyOf(c.org, b[i]) == k;
      }
      if input :| input in b && k == KeyOf(c.org, input) {
        var i :| 0 <= i < |b| && b[i] == input;
        assert a[i] in a && KeyOf(c.org, a[i]) == k;
      }
    }
  }

  lemma PageLinkAfterSync(c: Context, db: Database, page: Page, d: Delivery, db': Database, i: nat)
    requires DistinctPage(page) && Syncs(c, db, page, d, db') && i < |Entities(page)|
    ensures var input := PageLinks(c, page, d.drawn)[i];
      KeyOf(c.org, input) in db'.links && db'.links[KeyOf(c.org, input)] == LinkAfter(db.links, c.org, input, d.linksAt)
  {
    var inputs := PageLinks(c, page, d.drawn);
    PageLinksAreDistinct(c, page, d.drawn);
    DistinctBatchIsProcessed(db, c.org, inputs, d.linksAt, d.force, d.linkOrder);
    SyncedLinks(c, db, page, d, db');
    assert inputs[i] in inputs;
    assert IsKeyOf(c.org, inputs, KeyOf(c.org, inputs[i]));
  }

  /** The page was synced before, with every stored time and its own more than a millisecond old. */
  ghost predicate SyncedBefore(c: Context, db: Database, page: Page, first: Delivery, db': Database, second: Delivery) {
    && DistinctPage(page) && Syncs(c, db, page, first, db')
    && ProcessedUpTo(db.links, second.linksAt - 2) && first.linksAt <= second.linksAt - 2
  }

  /** Each link of the page, as the second sync would leave it. */
  lemma PageLinkAgain(c: Context, db: Database, page: Page, first: Delivery, db': Database, second: Delivery, i: nat)
    requires SyncedBefore(c, db, page, first, db', second) && i < |Entities(page)|
    ensures var b := PageLinks(c, page, second.drawn)[i];
      var k := KeyOf(c.org, b);
      && k in db'.links && db'.links[k].lastProcessedAt <= second.linksAt - 2
      && (LinkAfter(db'.links, c.org, b, second.linksAt) == db'.links[k] <==> EntitySettles(Entities(page)[i]))
  {
    var a, b := PageLinks(c, page, first.drawn), PageLinks(c, page, second.drawn);
    PageLinkAfterSync(c, db, page, first, db', i);
    LinkAgain(db.links, db'.links, c.org, a[i], b[i], first.linksAt, second.linksAt);
  }

  /** When the page settles, its links are left alone, none counts as changed, and the same rows come back. */
  lemma LinksAgain(c: Context, db: Database, page: Page, first: Delivery, db': Database, second: Delivery)
    requires SyncedBefore(c, db, page, first, db', second) && PageSettles(page) && !second.force
    ensures var o := AfterLinks(c, db', page, second);
      && o.Processed? && o.db == db' && o.changed == []
      && AfterLinks(c, db, page, first).Processed? && o.all == AfterLinks(c, db, page, first).all
  {
    var b := PageLinks(c, page, second.drawn);
    PageLinksAreDistinct(c, page, second.drawn);
    forall input | input in b
      ensures KeyOf(c.org, input) in db'.links && db'.links[KeyOf(c.org, input)].lastProcessedAt <= second.linksAt - 2
      ensures LinkAfter(db'.links, c.org, input, second.linksAt) == db'.links[KeyOf(c.org, input)]
    {
      var i :| 0 <= i < |b| && b[i] == input;
      PageLinkAgain(c, db, page, first, db', second, i);
    }
    QuietBatch(db', c.org, b, second.linksAt, second.force, second.linkOrder);
    QuietBatchReportsNothing(db', c.org, b, second.linksAt, second.linkOrder);
    SameRowsComeBack(c, db, page, first, db', second);
  }

  lemma SameRowsComeBack(c: Context, db: Database, page: Page, first: Delivery, db': Database, second: Delivery)
    requires DistinctPage(page) && Syncs(c, db, page, first, db')
    requires AfterLinks(c, db', page, second).db == db'
    ensures var o, o' := AfterLinks(c, db, page, first), AfterLinks(c, db', page, second);
      o.Processed? && o'.Processed? && o'.all == o.all
  {
    var a, b := PageLinks(c, page, first.drawn), PageLinks(c, page, second.drawn);
    PageLinksAreDistinct(c, page, first.drawn);
    PageLinksAreDistinct(c, page, second.drawn);
    BatchReturnsStoredRows(db, c.org, a, first.linksAt, first.force, first.linkOrder);
    BatchReturnsStoredRows(db', c.org, b, second.linksAt, second.force, second.linkOrder);
    SamePageLinks(c, page, first, second);
    SyncedLinks(c, db, page, first, db');
    StoredAlike(AfterLinks(c, db, page, first).db.links, db'.links, c.org, a, b);
  }

  lemma StoredAlike(t: map<LinkKey, Link>, u: map<LinkKey, Link>, org: string, a: seq<LinkInput>, b: seq<LinkInput>)
    requires SameLinks(a, b)
    requires forall k :: IsKeyOf(org, a, k) ==> k in t && k in u && t[k] == u[k]
    ensures AllRecorded(t, org, EntityInputs(a)) && AllRecorded(u, org, EntityInputs(b))
    ensures AllRecorded(t, org, ReferenceInputs(a)) && AllRecorded(u, org, ReferenceInputs(b))
    ensures StoredRows(t, org, EntityInputs(a)) == StoredRows(u, org, EntityInputs(b))
    ensures StoredRows(t, org, ReferenceInputs(a)) == StoredRows(u, org, ReferenceInputs(b))
  {
    SameLinksPartitionAlike(a, b);
    var es, rs := EntityInputs(a), ReferenceInputs(a);
    forall i | 0 <= i < |es|
      ensures IsKeyOf(org, a, KeyOf(org, es[i])) && KeyOf(org, es[i]) == KeyOf(org, EntityInputs(b)[i])
    {
      assert es[i] in es && es[i] in a;
    }
    forall i | 0 <= i < |rs|
      ensures IsKeyOf(org, a, KeyOf(org, rs[i])) && KeyOf(org, rs[i]) == KeyOf(org, ReferenceInputs(b)[i])
    {
      assert rs[i] in rs && rs[i] in a;
    }
    SameLinksAreStoredAlike(t, u, org, es, EntityInputs(b));
    SameLinksAreStoredAlike(t, u, org, rs, ReferenceInputs(b));
  }

  lemma MissingIsQuiet(
    db: Database, org: string, missing: seq<Reference>, first: Delivery, db': Database, second: Delivery)
    requires DistinctIds(missing)
    requires db'.links == AskFor(db, org, missing, first).db.links
    ensures AskFor(db', org, missing, second).db == db'
  {
    MissingBatchKeepsOthers(db, org, missing, first.drawnMissing, first.missingAt, first.missingOrder);
    LinkedReferencesAreQuiet(db', org, missing, second);
  }

  /** Missing links asked for a second time are all there: nothing changes and the same rows come back. */
  lemma MissingAgain(
    db: Database, org: string, missing: seq<Reference>, first: Delivery, db': Database, second: Delivery)
    requires DistinctIds(missing)
    requires db'.links == AskFor(db, org, missing, first).db.links
    ensures var o, o' := AskFor(db, org, missing, first), AskFor(db', org, missing, second);
      o.Processed? && o'.Processed? && o'.db == db' && o'.all == o.all
  {
    var a, b := LinkInputs(missing, first.drawnMissing), LinkInputs(missing, second.drawnMissing);
    MissingIsQuiet(db, org, missing, first, db', second);
    MissingLinksAreDistinctInputs(missing, first.drawnMissing);
    MissingLinksAreDistinctInputs(missing, second.drawnMissing);
    assert SameLinks(a, b);
    assert AskFor(db', org, missing, second).db.links == AskFor(db, org, missing, first).db.links;
    SameRows(db, db', org, a, b, first.missingAt, second.missingAt, first.missingOrder, second.missingOrder);
  }

  /** Two batches for the same links, with the same rows in the table afterwards, return the same rows. */
  lemma SameRows(
    db: Database, db': Database, org: string, a: seq<LinkInput>, b: seq<LinkInput>, now: int, now': int,
    order: Schedule, order': Schedule)
    requires DistinctInputs(a) && DistinctInputs(b) && SameLinks(a, b)
    requires LinkTable.ProcessExternalLinks(db', org, b, now', false, order').db.links
          == LinkTable.ProcessExternalLinks(db, org, a, now, false, order).db.links
    ensures LinkTable.ProcessExternalLinks(db, org, a, now, false, order).Processed?
    ensures LinkTable.ProcessExternalLinks(db', org, b, now', false, order').Processed?
    ensures LinkTable.ProcessExternalLinks(db', org, b, now', false, order').all
      == LinkTable.ProcessExternalLinks(db, org, a, now, false, order).all
  {
    var t := LinkTable.ProcessExternalLinks(db, org, a, now, false, order).db.links;
    BatchReturnsStoredRows(db, org, a, now, false, order);
    BatchReturnsStoredRows(db', org, b, now', false, order');
    KeysAreRecorded(db, org, a, now, order);
    StoredAlike(t, t, org, a, b);
  }

  lemma KeysAreRecorded(db: Database, org: string, a: seq<LinkInput>, now: int, order: Schedule)
    requires DistinctInputs(a)
    ensures forall k :: IsKeyOf(org, a, k) ==>
      k in LinkTable.ProcessExternalLinks(db, org, a, now, false, order).db.links
  {
    DistinctBatchIsProcessed(db, org, a, now, false, order);
  }

  lemma LinkedReferencesAreQuiet(db: Database, org: string, missing: seq<Reference>, d: Delivery)
    requires DistinctIds(missing) && forall r :: r in missing ==> PcoKey(org, r.id) in db.links
    ensures AskFor(db, org, missing, d).db == db
  {
    var asked := LinkInputs(missing, d.drawnMissing);
    forall input | input in asked
      ensures KeyOf(org, input) in db.links
        && LinkAfter(db.links, org, input, d.missingAt) == db.links[KeyOf(org, input)]
    {
      var i :| 0 <= i < |asked| && asked[i] == input;
      assert missing[i] in missing && KeyOf(org, input) == PcoKey(org, missing[i].id);
    }
    QuietBatch(db, org, asked, d.missingAt, false, d.missingOrder);
  }

  lemma NoChangedEntities(c: Context, page: Page, o: LinkOutcome)
    requires o.Processed? && o.changed == []
    ensures ChangedEntities(c, o.changed, page) == Some([]) && EntityWrites(c, o, page) == []
  {
    var none: seq<EntityInput> := [];
    assert none + none == none;
    assert Map((e: EntityInput) => e.entity.tag, none) == [];
  }

  /** The second sync gets as far as the first, with the same edges and without a change. */
  lemma StagesAgain(c: Context, db: Database, page: Page, first: Delivery, db': Database, second: Delivery)
    requires SyncedBefore(c, db, page, first, db', second) && PageSettles(page) && !second.force
    ensures EntitiesSucceed(c, db', page, second)
    ensures AfterMissing(c, db', page, second) == db'
    ensures Edges(c, db', page, second) == Edges(c, db, page, first)
  {
    LinksAgain(c, db, page, first, db', second);
    var o, o' := AfterLinks(c, db, page, first), AfterLinks(c, db', page, second);
    NoChangedEntities(c, page, o');
    assert AfterEntities(c, db', page, second) == db';
    var missing := PageMissing(c, o, page);
    assert PageMissing(c, o', page) == missing;
    MissingIsOffPage(c, db, page, first);
    SyncedLinks(c, db, page, first, db');
    if missing != [] {
      MissingAgain(AfterEntities(c, db, page, first), c.org, missing, first, db', second);
    }
  }

  /**
   Syncing a page a second time always succeeds and leaves every table exactly as the first
   sync left it, if and only if each of its entities carries its updatedAt or no time at all.
   */
  lemma SecondSyncChangesNothing(
    c: Context, db: Database, page: Page, first: Delivery, db': Database, second: Delivery, db'': Database)
    requires SyncedBefore(c, db, page, first, db', second) && !second.force
    ensures PageSettles(page) ==> Succeeds(c, db', page, second)
    ensures Syncs(c, db', page, second, db'') ==> (db'' == db' <==> PageSettles(page))
  {
    if PageSettles(page) {
      StagesAgain(c, db, page, first, db', second);
      var rs := Edges(c, db, page, first);
      var keys :| Enumerates(keys, Keys(TypesOf(rs)))
        && db' == Registry.ProcessRelationships(AfterMissing(c, db, page, first), c.org, rs, keys);
      if Syncs(c, db', page, second, db'') {
        var others :| Enumerates(others, Keys(TypesOf(rs)))
          && db'' == Registry.ProcessRelationships(db', c.org, rs, others);
        RelationshipsAgain(AfterMissing(c, db, page, first), c.org, rs, keys, others);
      }
    } else if Syncs(c, db', page, second, db'') {
      UnsettledPageMoves(c, db, page, first, db', second, db'');
    }
  }

  lemma UnsettledPageMoves(
    c: Context, db: Database, page: Page, first: Delivery, db': Database, second: Delivery, db'': Database)
    requires SyncedBefore(c, db, page, first, db', second) && Syncs(c, db', page, second, db'') && !PageSettles(page)
    ensures db'' != db'
  {
    var i :| 0 <= i < |Entities(page)| && !EntitySettles(Entities(page)[i]);
    PageLinkAgain(c, db, page, first, db', second, i);
    PageLinkAfterSync(c, db', page, second, db'', i);
  }

  // ----- when a page syncs

  /** No id is empty: neither of the page's entities nor one that is stored or would be drawn. */
  ghost predicate AllNamed(db: Database, page: Page, d: Delivery) {
    && NamedRows(db.links)
    && (forall i :: 0 <= i < |Entities(page)| ==> Entities(page)[i].id != "" && Entities(page)[i].entityId != Some(""))
    && (forall i :: d.drawn(i) != "" && d.drawnMissing(i) != "")
  }

  ghost predicate RowsNamed(rows: seq<LinkRow>) {
    forall i :: 0 <= i < |rows| ==> rows[i].value.entityId != ""
  }

  lemma UpsertStaysNamed(t: map<LinkKey, Link>, rows: seq<LinkRow>, onConflict: (Link, Link) -> Link)
    requires NamedRows(t) && RowsNamed(rows)
    requires forall l, m :: onConflict(l, m).entityId == l.entityId
    ensures NamedRows(Upsert(t, rows, onConflict))
  {
    if DistinctKeys(rows) {
      MergedRows(t, rows, onConflict);
      forall k | k in Merged(t, rows, onConflict)
        ensures Merged(t, rows, onConflict)[k].entityId != ""
      {
        if i :| 0 <= i < |rows| && rows[i].key == k {
        }
      }
    }
  }

  lemma InputsGiveNamedRows(org: string, inputs: seq<LinkInput>, now: int)
    requires forall input :: input in inputs ==> input.entityId != Some("") && input.drawn != ""
    ensures RowsNamed(EntityRows(org, inputs, now)) && RowsNamed(ReferenceRows(org, inputs, now))
  {
    var es, rs := EntityInputs(inputs), ReferenceInputs(inputs);
    forall i | 0 <= i < |es|
      ensures EntityRows(org, inputs, now)[i].value.entityId != ""
    {
      assert es[i] in es && es[i] in inputs;
    }
    forall i | 0 <= i < |rs|
      ensures ReferenceRows(org, inputs, now)[i].value.entityId != ""
    {
      assert rs[i] in rs && rs[i] in inputs;
    }
  }

  lemma BothStatementsStayNamed(t: map<LinkKey, Link>, es: seq<LinkRow>, rs: seq<LinkRow>, order: Schedule)
    requires NamedRows(t) && RowsNamed(es) && RowsNamed(rs)
    ensures NamedRows(LinkTable.AfterEntities(t, es, rs, order)) && NamedRows(AfterReferences(t, es, rs, order))
  {
    UpsertStaysNamed(t, es, TouchLink);
    UpsertStaysNamed(t, rs, KeepLink);
    if order.entityFirst {
      UpsertStaysNamed(Upsert(t, es, TouchLink), rs, KeepLink);
    } else {
      UpsertStaysNamed(Upsert(t, rs, KeepLink), es, TouchLink);
    }
  }

  /** An accepted batch of named links leaves, and returns, named rows for links it was given. */
  lemma BatchStaysNamed(db: Database, org: string, inputs: seq<LinkInput>, now: int, force: bool, order: Schedule)
    requires NamedRows(db.links)
    requires forall input :: input in inputs ==> input.entityId != Some("") && input.drawn != ""
    requires LinkTable.ProcessExternalLinks(db, org, inputs, now, force, order).Processed?
    ensures NamedRows(LinkTable.ProcessExternalLinks(db, org, inputs, now, force, order).db.links)
    ensures forall r :: r in LinkTable.ProcessExternalLinks(db, org, inputs, now, force, order).all ==>
      r.value.entityId != "" && IsKeyOf(org, inputs, r.key)
  {
    var es, rs := EntityRows(org, inputs, now), ReferenceRows(org, inputs, now);
    InputsGiveNamedRows(org, inputs, now);
    BothStatementsStayNamed(db.links, es, rs, order);
    PartsReturned(db, org, inputs, now, force, order);
    RowsComeFromInputs(org, inputs, now);
    ReturnedStaysNamed(LinkTable.AfterEntities(db.links, es, rs, order), es, org, inputs);
    ReturnedStaysNamed(AfterReferences(db.links, es, rs, order), rs, org, inputs);
  }

  lemma ReturnedStaysNamed(t: map<LinkKey, Link>, rows: seq<LinkRow>, org: string, inputs: seq<LinkInput>)
    requires NamedRows(t) && forall i :: 0 <= i < |rows| ==> rows[i].key in t && IsKeyOf(org, inputs, rows[i].key)
    ensures forall r :: r in Returned(t, rows) ==> r.value.entityId != "" && IsKeyOf(org, inputs, r.key)
  {
  }

  /** The links of an accepted page are named, and they are those of its entities. */
  lemma KnownIsNamed(c: Context, db: Database, page: Page, d: Delivery)
    requires AllNamed(db, page, d) && AfterLinks(c, db, page, d).Processed?
    ensures NamedRows(AfterLinks(c, db, page, d).db.links)
    ensures NamedLinks(Known(AfterLinks(c, db, page, d)))
  {
    var o, inputs := AfterLinks(c, db, page, d), PageLinks(c, page, d.drawn);
    forall input | input in inputs
      ensures input.entityId != Some("") && input.drawn != "" && input.externalId != ""
    {
      var i :| 0 <= i < |inputs| && inputs[i] == input;
      assert input == LinkOf(c, Entities(page)[i], d.drawn(i));
    }
    BatchStaysNamed(db, c.org, inputs, d.linksAt, d.force, d.linkOrder);
    ResolveKeys(map[], o.all, "");
    forall id | id in Known(o)
      ensures Known(o)[id].entityId != ""
    {
      ResolveKeys(map[], o.all, id);
    }
  }

  function PageCalls(c: Context, db: Database, page: Page, d: Delivery): (calls: seq<Call>) {
    Calls(ByType(Entities(page)), c.schemas, AllLinks(c, db, page, d))
  }

  /** Edge by edge, the edges of the page answer its relations between linked entities. */
  lemma PageCallsAreAnswered(c: Context, db: Database, page: Page, d: Delivery)
    requires AllNamed(db, page, d) && AfterLinks(c, db, page, d).Processed?
    ensures NamedLinks(AllLinks(c, db, page, d))
    ensures Answers(Edges(c, db, page, d), PageCalls(c, db, page, d), c.schemas, AllLinks(c, db, page, d))
  {
    var o := AfterLinks(c, db, page, d);
    KnownIsNamed(c, db, page, d);
    EntitiesKeepLinks(c, db, page, d);
    NothingLostOrInvented(
      AfterEntities(c, db, page, d), c.org, Entities(page), c.discovered, c.schemas, Known(o), d.drawnMissing,
        d.missingAt, d.missingOrder);
  }

  /** No two relations of the page give one edge. */
  ghost predicate CallsApart(c: Context, calls: seq<Call>, links: LinkMap)
    requires forall i :: 0 <= i < |calls| ==> Answerable(calls[i], c.schemas, links)
  {
    forall i, j :: 0 <= i < j < |calls| ==> !SameEdge(calls[i], calls[j], c.schemas, links)
  }

  predicate EntitiesApart(c: Context, es: seq<EntityInput>) {
    forall i, j :: 0 <= i < j < |es| ==> !SameRow(c.tableOf, es[i], es[j])
  }

  predicate Timed(e: PageEntity) {
    e.createdAt.Some? || e.updatedAt.Some?
  }

  /** No two entities of the page with a time share an id, and no two without, whatever their types. */
  predicate IdsApart(page: Page) {
    var es := Entities(page);
    forall i, j :: 0 <= i < j < |es| && Timed(es[i]) == Timed(es[j]) ==> es[i].id != es[j].id
  }

  lemma PageLinksClashIff(c: Context, page: Page, drawn: nat -> string, i: nat, j: nat)
    requires i < |Entities(page)| && j < |Entities(page)|
    ensures var a, b := Entities(page)[i], Entities(page)[j];
      Clash(PageLinks(c, page, drawn)[i], PageLinks(c, page, drawn)[j]) <==> Timed(a) == Timed(b) && a.id == b.id
  {
  }

  lemma PageIsApartIff(c: Context, page: Page, drawn: nat -> string)
    ensures InputsApart(PageLinks(c, page, drawn)) <==> IdsApart(page)
  {
    var inputs, es := PageLinks(c, page, drawn), Entities(page);
    if i, j :| 0 <= i < j < |es| && Timed(es[i]) == Timed(es[j]) && es[i].id == es[j].id {
      PageLinksClashIff(c, page, drawn, i, j);
    }
    if i, j :| 0 <= i < j < |inputs| && Clash(inputs[i], inputs[j]) {
      PageLinksClashIff(c, page, drawn, i, j);
    }
  }

  lemma LinksProcessedIff(c: Context, db: Database, page: Page, d: Delivery)
    ensures AfterLinks(c, db, page, d).Processed? <==> IdsApart(page)
  {
    PageIsApartIff(c, page, d.drawn);
    LinksAcceptedIff(db, c.org, PageLinks(c, page, d.drawn), d.linksAt, d.force, d.linkOrder);
  }

  /**
   A page syncs if and only if no two of its entities with times share an id and no two without,
   each changed entity decodes, no two of those go to one row, and no two relations between linked
   entities give one edge. So one pair of entities of different types with one id keeps the whole
   page from being synced, and one pair of relations that fall on one edge keeps every edge of the
   page from being written.
   */
  lemma SyncSucceedsIff(c: Context, db: Database, page: Page, d: Delivery)
    requires AllNamed(db, page, d)
    ensures var o, links, calls := AfterLinks(c, db, page, d), AllLinks(c, db, page, d), PageCalls(c, db, page, d);
      && (o.Processed? <==> IdsApart(page))
      && (forall i :: 0 <= i < |calls| ==> Answerable(calls[i], c.schemas, links))
      && (Succeeds(c, db, page, d) <==>
           && IdsApart(page)
           && var es := ChangedEntities(c, o.changed, page);
              es.Some? && EntitiesApart(c, es.value) && CallsApart(c, calls, links))
    ensures Succeeds(c, db, page, d) <==> exists db' :: Syncs(c, db, page, d, db')
  {
    LinksProcessedIff(c, db, page, d);
    CallsAreAnswerable(c, db, page, d);
    if IdsApart(page) {
      EntitiesSucceedIff(c, db, page, d);
      EdgesAcceptedIff(c, db, page, d);
    }
    if Succeeds(c, db, page, d) {
      SuccessIsASync(c, db, page, d);
    }
  }

  lemma CallsAreAnswerable(c: Context, db: Database, page: Page, d: Delivery)
    ensures var links, calls := AllLinks(c, db, page, d), PageCalls(c, db, page, d);
      forall i :: 0 <= i < |calls| ==> Answerable(calls[i], c.schemas, links)
  {
    var links, calls := AllLinks(c, db, page, d), PageCalls(c, db, page, d);
    forall i | 0 <= i < |calls|
      ensures Answerable(calls[i], c.schemas, links)
    {
      assert calls[i] in calls;
      CallsAreExact(ByType(Entities(page)), c.schemas, links, calls[i]);
    }
  }

  lemma EntitiesSucceedIff(c: Context, db: Database, page: Page, d: Delivery)
    requires AfterLinks(c, db, page, d).Processed?
    ensures var o := AfterLinks(c, db, page, d);
      EntitiesSucceed(c, db, page, d) <==>
        ChangedEntities(c, o.changed, page).Some? && EntitiesApart(c, ChangedEntities(c, o.changed, page).value)
  {
    var es := ChangedEntities(c, AfterLinks(c, db, page, d).changed, page);
    if es.Some? {
      EntitiesAcceptedIff(c.tableOf, es.value);
    }
  }

  lemma EdgesAcceptedIff(c: Context, db: Database, page: Page, d: Delivery)
    requires AllNamed(db, page, d) && AfterLinks(c, db, page, d).Processed?
    ensures var links, calls := AllLinks(c, db, page, d), PageCalls(c, db, page, d);
      && (forall i :: 0 <= i < |calls| ==> Answerable(calls[i], c.schemas, links))
      && (DistinctKeys(EdgeRowsOf(c.org, Edges(c, db, page, d))) <==> CallsApart(c, calls, links))
  {
    PageCallsAreAnswered(c, db, page, d);
    EdgeBatchAcceptedIff(c.org, Edges(c, db, page, d), PageCalls(c, db, page, d), c.schemas, AllLinks(c, db, page, d));
  }

  lemma SuccessIsASync(c: Context, db: Database, page: Page, d: Delivery)
    requires Succeeds(c, db, page, d)
    ensures exists db' :: Syncs(c, db, page, d, db')
  {
    var rs := Edges(c, db, page, d);
    EnumerationExists(Keys(TypesOf(rs)));
    var keys :| Enumerates(keys, Keys(TypesOf(rs)));
    assert Syncs(c, db, page, d, Registry.ProcessRelationships(AfterMissing(c, db, page, d), c.org, rs, keys));
  }

  /** So two entities of a page that share an id, both with times, keep it from syncing, whatever else it holds. */
  lemma SharedIdIsNotSynced(c: Context, db: Database, page: Page, d: Delivery, i: nat, j: nat)
    requires i < j < |Entities(page)| && Entities(page)[i].id == Entities(page)[j].id
    ensures Timed(Entities(page)[i]) == Timed(Entities(page)[j]) ==> !Succeeds(c, db, page, d)
  {
    LinksProcessedIff(c, db, page, d);
  }
}
