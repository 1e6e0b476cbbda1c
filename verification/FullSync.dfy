/**
 The sync of an entity type: every page in its order, and then the detection of what is gone.
 A sync is a run of statements, so what detection buries follows from what the pages brought.
 */
module FullSync {
  import opened EntityTable
  import opened LinkTable
  import opened PageSync
  import opened Registry
  import opened RelationshipExtraction
  import opened RelationshipUtils
  import opened Seqs
  import opened Tables
  import opened Wrappers

  /** Page after page is synced, each on what the one before left. */
  ghost predicate SyncsAll(c: Context, dbs: seq<Database>, pages: seq<Page>, ds: seq<Delivery>) {
    && |dbs| == |pages| + 1 && |ds| == |pages|
    && forall p :: 0 <= p < |pages| ==> PageSync.Syncs(c, dbs[p], pages[p], ds[p], dbs[p + 1])
  }

  /** The entity has a time, and its link is k, which gets another updatedAt than u from it. */
  predicate BringsNews(c: Context, e: PageEntity, now: int, k: LinkKey, u: Option<int>) {
    Timed(e) && k == PcoKey(c.org, e.id) && Some(e.updatedAt.GetOr(now)) != u
  }

  ghost predicate PageBrings(c: Context, page: Page, d: Delivery, k: LinkKey, u: Option<int>) {
    exists i :: 0 <= i < |Entities(page)| && BringsNews(c, Entities(page)[i], d.linksAt, k, u)
  }

  ghost predicate PagesBring(c: Context, pages: seq<Page>, ds: seq<Delivery>, k: LinkKey, u: Option<int>)
    requires |pages| == |ds|
  {
    exists p :: 0 <= p < |pages| && PageBrings(c, pages[p], ds[p], k, u)
  }

  // ----- runs that bury nothing

  /** The statement buries no link and inserts none that is dead, and its times are not before `start`. */
  predicate KeepsAlive(s: Statement, start: int) {
    && BatchTimesFrom(s, start)
    && match s
       case UpsertEntityLinks(rows) => forall i :: 0 <= i < |rows| ==> rows[i].value.deletedAt.None?
       case UpsertReferenceLinks(rows) => forall i :: 0 <= i < |rows| ==> rows[i].value.deletedAt.None?
       case BuryLinksOf(_, _, _, _) => false
       case BuryStaleLinks(_, _, _, _, _) => false
       case _ => true
  }

  predicate AllKeepAlive(ss: seq<Statement>, start: int) {
    forall i :: 0 <= i < |ss| ==> KeepsAlive(ss[i], start)
  }

  ghost predicate LinksStayAlive(before: map<LinkKey, Link>, after: map<LinkKey, Link>) {
    forall k :: k in after && (k in before ==> before[k].deletedAt.None?) ==> after[k].deletedAt.None?
  }

  lemma StepKeepsAlive(db: Database, s: Statement, start: int)
    requires KeepsAlive(s, start)
    ensures LinksStayAlive(db.links, Exec(db, s).links)
  {
    if (s.UpsertEntityLinks? || s.UpsertReferenceLinks?) && Accepted(s) {
      MergedRows(db.links, s.linkRows, if s.UpsertEntityLinks? then TouchLink else KeepLink);
    }
  }

  lemma {:induction false} RunKeepsAlive(db: Database, ss: seq<Statement>, start: int)
    requires AllKeepAlive(ss, start)
    ensures LinksStayAlive(db.links, Run(db, ss).links)
  {
    if ss != [] {
      var init := ss[..|ss| - 1];
      RunKeepsAlive(db, init, start);
      StepKeepsAlive(Run(db, init), ss[|ss| - 1], start);
      RunKeepsLinks(db, init);
    }
  }

  lemma RunBringsAppend(ss: seq<Statement>, ts: seq<Statement>, k: LinkKey, u: Option<int>)
    ensures RunBrings(ss + ts, k, u) <==> RunBrings(ss, k, u) || RunBrings(ts, k, u)
  {
    var both := ss + ts;
    if i :| 0 <= i < |both| && Brings(both[i], k, u) {
      assert if i < |ss| then Brings(ss[i], k, u) else Brings(ts[i - |ss|], k, u);
    }
    if i :| 0 <= i < |ss| && Brings(ss[i], k, u) {
      assert Brings(both[i], k, u);
    }
    if i :| 0 <= i < |ts| && Brings(ts[i], k, u) {
      assert Brings(both[|ss| + i], k, u);
    }
  }

  // ----- the statements of one page

  /** What the stages after the links run: entities, missing links, edges and the registry. */
  function LaterStatements(c: Context, db: Database, page: Page, d: Delivery, keys: seq<string>): (ss: seq<Statement>)
    requires Enumerates(keys, Keys(TypesOf(Edges(c, db, page, d))))
  {
    var o := AfterLinks(c, db, page, d);
    EntityWrites(c, o, page) + MissingStatements(c.org, PageMissing(c, o, page), d)
    + RelationshipStatements(c.org, Edges(c, db, page, d), keys)
  }

  function MissingStatements(org: string, missing: seq<Reference>, d: Delivery): (ss: seq<Statement>) {
    if missing == [] then [] else LinkStatements(org, LinkInputs(missing, d.drawnMissing), d.missingAt, d.missingOrder)
  }

  function RelationshipStatements(org: string, rs: seq<RelationshipInput>, keys: seq<string>): (ss: seq<Statement>)
    requires Enumerates(keys, Keys(TypesOf(rs)))
    ensures forall i :: 0 <= i < |ss| ==> ss[i].UpsertEdges? || ss[i].UpsertRegistry?
  {
    if rs == [] then []
    else if TypesOf(rs) == [] then [UpsertEdges(EdgeRowsOf(org, rs))]
    else [UpsertEdges(EdgeRowsOf(org, rs)), UpsertRegistry(RegistryBatch(org, TypesOf(rs), keys))]
  }

  lemma RelationshipsAreRun(db: Database, org: string, rs: seq<RelationshipInput>, keys: seq<string>)
    requires Enumerates(keys, Keys(TypesOf(rs))) && DistinctKeys(EdgeRowsOf(org, rs))
    ensures Registry.ProcessRelationships(db, org, rs, keys) == Run(db, RelationshipStatements(org, rs, keys))
  {
    if rs != [] {
      var edges := UpsertEdges(EdgeRowsOf(org, rs));
      RunThree(db, edges, UpsertRegistry(RegistryBatch(org, TypesOf(rs), keys)), edges);
    }
  }

  lemma MissingIsRun(db: Database, org: string, missing: seq<Reference>, d: Delivery)
    ensures (if missing == [] then db else AskFor(db, org, missing, d).db)
      == Run(db, MissingStatements(org, missing, d))
  {
    if AskFor(db, org, missing, d).Processed? {
      ProcessedIsRun(db, org, LinkInputs(missing, d.drawnMissing), d.missingAt, false, d.missingOrder);
    }
  }

  function PageStatements(c: Context, db: Database, page: Page, d: Delivery, keys: seq<string>): (ss: seq<Statement>)
    requires Enumerates(keys, Keys(TypesOf(Edges(c, db, page, d))))
  {
    LinkStatements(c.org, PageLinks(c, page, d.drawn), d.linksAt, d.linkOrder) + LaterStatements(c, db, page, d, keys)
  }

  lemma SyncIsARun(c: Context, db: Database, page: Page, d: Delivery, keys: seq<string>)
    requires Succeeds(c, db, page, d) && Enumerates(keys, Keys(TypesOf(Edges(c, db, page, d))))
    ensures Registry.ProcessRelationships(AfterMissing(c, db, page, d), c.org, Edges(c, db, page, d), keys)
      == Run(db, PageStatements(c, db, page, d, keys))
  {
    var o := AfterLinks(c, db, page, d);
    var missing, edges := PageMissing(c, o, page), RelationshipStatements(c.org, Edges(c, db, page, d), keys);
    ProcessedIsRun(db, c.org, PageLinks(c, page, d.drawn), d.linksAt, d.force, d.linkOrder);
    MissingIsRun(PageSync.AfterEntities(c, db, page, d), c.org, missing, d);
    RelationshipsAreRun(AfterMissing(c, db, page, d), c.org, Edges(c, db, page, d), keys);
    var first := LinkStatements(c.org, PageLinks(c, page, d.drawn), d.linksAt, d.linkOrder);
    RunAppend(db, first, LaterStatements(c, db, page, d, keys));
    RunAppend(o.db, EntityWrites(c, o, page) + MissingStatements(c.org, missing, d), edges);
    RunAppend(o.db, EntityWrites(c, o, page), MissingStatements(c.org, missing, d));
  }

  // ----- what they bring

  /** The statements bring no link another updatedAt, bury none, and are not before `start`. */
  ghost predicate BringsNothing(ss: seq<Statement>, start: int) {
    AllKeepAlive(ss, start) && forall k, u :: !RunBrings(ss, k, u)
  }

  lemma BringsNothingAppend(ss: seq<Statement>, ts: seq<Statement>, start: int)
    requires BringsNothing(ss, start) && BringsNothing(ts, start)
    ensures BringsNothing(ss + ts, start)
  {
    forall k, u
      ensures !RunBrings(ss + ts, k, u)
    {
      RunBringsAppend(ss, ts, k, u);
    }
  }

  lemma {:induction false} EntityWritesAreUpserts(tableOf: map<string, string>, gs: seq<Group<EntityInput>>)
    ensures forall s :: s in StatementsFor(tableOf, gs) ==> s.UpsertEntities?
  {
    if gs != [] {
      EntityWritesAreUpserts(tableOf, gs[1..]);
    }
  }

  lemma OthersBringNothing(ss: seq<Statement>, start: int)
    requires forall i :: 0 <= i < |ss| ==> ss[i].UpsertEntities? || ss[i].UpsertEdges? || ss[i].UpsertRegistry?
    ensures BringsNothing(ss, start)
  {
  }

  lemma EntityWritesBringNothing(c: Context, o: LinkOutcome, page: Page, start: int)
    ensures BringsNothing(EntityWrites(c, o, page), start)
  {
    var ws := EntityWrites(c, o, page);
    if ws != [] {
      EntityWritesAreUpserts(c.tableOf,
        GroupBy(ChangedEntities(c, o.changed, page).value, (e: EntityInput) => e.entity.tag));
    }
    assert forall i :: 0 <= i < |ws| ==> ws[i] in ws && ws[i].UpsertEntities?;
    OthersBringNothing(ws, start);
  }

  lemma EntityRowsKeepAlive(org: string, inputs: seq<LinkInput>, now: int, start: int)
    requires start <= now
    ensures KeepsAlive(UpsertEntityLinks(EntityRows(org, inputs, now)), start)
  {
  }

  lemma ReferenceRowsKeepAlive(org: string, inputs: seq<LinkInput>, now: int, start: int)
    requires start <= now
    ensures KeepsAlive(UpsertReferenceLinks(ReferenceRows(org, inputs, now)), start)
  {
  }

  lemma LinkStatementsKeepAlive(org: string, inputs: seq<LinkInput>, now: int, schedule: Schedule, start: int)
    requires start <= now
    ensures AllKeepAlive(LinkStatements(org, inputs, now, schedule), start)
  {
    EntityRowsKeepAlive(org, inputs, now, start);
    ReferenceRowsKeepAlive(org, inputs, now, start);
    var e, r := UpsertEntityLinks(EntityRows(org, inputs, now)), UpsertReferenceLinks(ReferenceRows(org, inputs, now));
    var ss := LinkStatements(org, inputs, now, schedule);
    assert forall i :: 0 <= i < |ss| ==> ss[i] == e || ss[i] == r;
  }

  lemma ReferencesHaveNoEntityRows(org: string, missing: seq<Reference>, drawn: nat -> string, now: int)
    ensures EntityRows(org, LinkInputs(missing, drawn), now) == []
  {
    FilterNone((i: LinkInput) => !IsReference(i), LinkInputs(missing, drawn));
  }

  lemma NoEntityRowsBringNothing(
    org: string, inputs: seq<LinkInput>, now: int, schedule: Schedule, k: LinkKey, u: Option<int>)
    requires EntityRows(org, inputs, now) == []
    ensures !RunBrings(LinkStatements(org, inputs, now, schedule), k, u)
  {
  }

  lemma MissingBringsNothing(org: string, missing: seq<Reference>, d: Delivery, start: int)
    requires start <= d.missingAt
    ensures BringsNothing(MissingStatements(org, missing, d), start)
  {
    var inputs := LinkInputs(missing, d.drawnMissing);
    ReferencesHaveNoEntityRows(org, missing, d.drawnMissing, d.missingAt);
    if missing != [] {
      LinkStatementsKeepAlive(org, inputs, d.missingAt, d.missingOrder, start);
      forall k, u
        ensures !RunBrings(LinkStatements(org, inputs, d.missingAt, d.missingOrder), k, u)
      {
        NoEntityRowsBringNothing(org, inputs, d.missingAt, d.missingOrder, k, u);
      }
    }
  }

  lemma LaterBringsNothing(c: Context, db: Database, page: Page, d: Delivery, keys: seq<string>, start: int)
    requires Enumerates(keys, Keys(TypesOf(Edges(c, db, page, d)))) && start <= d.missingAt
    ensures BringsNothing(LaterStatements(c, db, page, d, keys), start)
  {
    var o := AfterLinks(c, db, page, d);
    var ws, ms := EntityWrites(c, o, page), MissingStatements(c.org, PageMissing(c, o, page), d);
    EntityWritesBringNothing(c, o, page, start);
    MissingBringsNothing(c.org, PageMissing(c, o, page), d, start);
    OthersBringNothing(RelationshipStatements(c.org, Edges(c, db, page, d), keys), start);
    BringsNothingAppend(ws, ms, start);
    BringsNothingAppend(ws + ms, RelationshipStatements(c.org, Edges(c, db, page, d), keys), start);
  }

  predicate InputBrings(org: string, input: LinkInput, now: int, k: LinkKey, u: Option<int>) {
    !IsReference(input) && k == KeyOf(org, input) && Some(input.updatedAt.GetOr(now)) != u
  }

  /** Some entity link of the batch brings link k another updatedAt than u. */
  ghost predicate InputsBring(org: string, inputs: seq<LinkInput>, now: int, k: LinkKey, u: Option<int>) {
    exists i :: 0 <= i < |inputs| && InputBrings(org, inputs[i], now, k, u)
  }

  lemma EntityRowsBring(org: string, inputs: seq<LinkInput>, now: int, k: LinkKey, u: Option<int>)
    requires DistinctKeys(EntityRows(org, inputs, now))
    ensures Brings(UpsertEntityLinks(EntityRows(org, inputs, now)), k, u) <==> InputsBring(org, inputs, now, k, u)
  {
    var es := EntityRows(org, inputs, now);
    if i :| 0 <= i < |inputs| && InputBrings(org, inputs[i], now, k, u) {
      assert inputs[i] in inputs;
      InputHasItsRow(org, inputs, inputs[i], now);
    }
    if j :| 0 <= j < |es| && es[j].key == k && es[j].value.updatedAt != u {
      var input := EntityInputs(inputs)[j];
      assert input in EntityInputs(inputs) && input in inputs;
      var i :| 0 <= i < |inputs| && inputs[i] == input;
      assert InputBrings(org, inputs[i], now, k, u);
    }
  }

  lemma LinkStatementsBring(
    org: string, inputs: seq<LinkInput>, now: int, schedule: Schedule, k: LinkKey, u: Option<int>)
    requires InputsApart(inputs)
    ensures RunBrings(LinkStatements(org, inputs, now, schedule), k, u) <==> InputsBring(org, inputs, now, k, u)
  {
    var ss := LinkStatements(org, inputs, now, schedule);
    BatchesApartIff(org, inputs, now);
    EntityRowsBring(org, inputs, now, k, u);
    var n := if schedule.entityFirst then 0 else 1;
    assert |ss| == 2 && ss[n] == UpsertEntityLinks(EntityRows(org, inputs, now)) && ss[1 - n].UpsertReferenceLinks?;
  }

  /** The link statements of a page bring what its entities bring. */
  lemma PageLinksBring(c: Context, page: Page, d: Delivery, k: LinkKey, u: Option<int>)
    requires IdsApart(page)
    ensures RunBrings(LinkStatements(c.org, PageLinks(c, page, d.drawn), d.linksAt, d.linkOrder), k, u) <==>
      PageBrings(c, page, d, k, u)
  {
    var inputs := PageLinks(c, page, d.drawn);
    PageIsApartIff(c, page, d.drawn);
    LinkStatementsBring(c.org, inputs, d.linksAt, d.linkOrder, k, u);
    PageInputsBring(c, page, d, k, u);
  }

  lemma PageInputsBring(c: Context, page: Page, d: Delivery, k: LinkKey, u: Option<int>)
    ensures InputsBring(c.org, PageLinks(c, page, d.drawn), d.linksAt, k, u) <==> PageBrings(c, page, d, k, u)
  {
    var inputs := PageLinks(c, page, d.drawn);
    if i :| 0 <= i < |Entities(page)| && BringsNews(c, Entities(page)[i], d.linksAt, k, u) {
      assert InputBrings(c.org, inputs[i], d.linksAt, k, u);
    }
    if i :| 0 <= i < |inputs| && InputBrings(c.org, inputs[i], d.linksAt, k, u) {
      assert BringsNews(c, Entities(page)[i], d.linksAt, k, u);
    }
  }

  // ----- the whole sync

  /** The statements run from db to db', keep links alive, and bring links what the page brings them. */
  ghost predicate RunOfPage(
    c: Context, db: Database, page: Page, d: Delivery, db': Database, start: int, ss: seq<Statement>)
  {
    && db' == Run(db, ss) && AllKeepAlive(ss, start)
    && forall k, u :: RunBrings(ss, k, u) <==> PageBrings(c, page, d, k, u)
  }

  ghost predicate RunOfPages(
    c: Context, db: Database, pages: seq<Page>, ds: seq<Delivery>, db': Database, start: int, ss: seq<Statement>)
    requires |pages| == |ds|
  {
    && db' == Run(db, ss) && AllKeepAlive(ss, start)
    && forall k, u :: RunBrings(ss, k, u) <==> PagesBring(c, pages, ds, k, u)
  }

  predicate NotBefore(ds: seq<Delivery>, start: int) {
    forall i :: 0 <= i < |ds| ==> start <= ds[i].linksAt && start <= ds[i].missingAt
  }

  lemma PageRunKeepsAlive(c: Context, db: Database, page: Page, d: Delivery, keys: seq<string>, start: int)
    requires Enumerates(keys, Keys(TypesOf(Edges(c, db, page, d)))) && start <= d.linksAt && start <= d.missingAt
    ensures AllKeepAlive(PageStatements(c, db, page, d, keys), start)
  {
    LinkStatementsKeepAlive(c.org, PageLinks(c, page, d.drawn), d.linksAt, d.linkOrder, start);
    LaterBringsNothing(c, db, page, d, keys, start);
  }

  lemma PageRunBrings(
    c: Context, db: Database, page: Page, d: Delivery, keys: seq<string>, k: LinkKey, u: Option<int>)
    requires IdsApart(page) && Enumerates(keys, Keys(TypesOf(Edges(c, db, page, d))))
    ensures RunBrings(PageStatements(c, db, page, d, keys), k, u) <==> PageBrings(c, page, d, k, u)
  {
    var first := LinkStatements(c.org, PageLinks(c, page, d.drawn), d.linksAt, d.linkOrder);
    LaterBringsNothing(c, db, page, d, keys, d.missingAt);
    RunBringsAppend(first, LaterStatements(c, db, page, d, keys), k, u);
    PageLinksBring(c, page, d, k, u);
  }

  lemma SyncedPageRuns(c: Context, db: Database, page: Page, d: Delivery, db': Database) returns (keys: seq<string>)
    requires PageSync.Syncs(c, db, page, d, db')
    ensures IdsApart(page) && Enumerates(keys, Keys(TypesOf(Edges(c, db, page, d))))
    ensures db' == Run(db, PageStatements(c, db, page, d, keys))
  {
    keys :| Enumerates(keys, Keys(TypesOf(Edges(c, db, page, d))))
      && db' == Registry.ProcessRelationships(AfterMissing(c, db, page, d), c.org, Edges(c, db, page, d), keys);
    SyncIsARun(c, db, page, d, keys);
    LinksProcessedIff(c, db, page, d);
  }

  lemma PageIsARun(
    c: Context, db: Database, page: Page, d: Delivery, db': Database, start: int, keys: seq<string>)
    requires IdsApart(page) && Enumerates(keys, Keys(TypesOf(Edges(c, db, page, d))))
    requires db' == Run(db, PageStatements(c, db, page, d, keys)) && start <= d.linksAt && start <= d.missingAt
    ensures RunOfPage(c, db, page, d, db', start, PageStatements(c, db, page, d, keys))
  {
    PageRunKeepsAlive(c, db, page, d, keys, start);
    forall k, u
      ensures RunBrings(PageStatements(c, db, page, d, keys), k, u) <==> PageBrings(c, page, d, k, u)
    {
      PageRunBrings(c, db, page, d, keys, k, u);
    }
  }

  lemma {:induction false} PagesAreARun(c: Context, dbs: seq<Database>, pages: seq<Page>, ds: seq<Delivery>, start: int)
    returns (ss: seq<Statement>)
    requires SyncsAll(c, dbs, pages, ds) && NotBefore(ds, start)
    ensures RunOfPages(c, dbs[0], pages, ds, dbs[|pages|], start, ss)
    decreases |pages|
  {
    if pages == [] {
      ss := [];
    } else {
      var n := |pages| - 1;
      AllButLast(c, dbs, pages, ds);
      var init := PagesAreARun(c, dbs[..n + 1], pages[..n], ds[..n], start);
      var keys := SyncedPageRuns(c, dbs[n], pages[n], ds[n], dbs[n + 1]);
      var last := PageStatements(c, dbs[n], pages[n], ds[n], keys);
      PageIsARun(c, dbs[n], pages[n], ds[n], dbs[n + 1], start, keys);
      ss := init + last;
      OnePageMore(c, dbs[0], pages, ds, dbs[n], dbs[n + 1], start, init, last);
    }
  }

  lemma OnePageMore(
    c: Context, db: Database, pages: seq<Page>, ds: seq<Delivery>, mid: Database, db': Database, start: int,
    init: seq<Statement>, last: seq<Statement>)
    requires |pages| == |ds| && pages != []
    requires RunOfPages(c, db, pages[..|pages| - 1], ds[..|pages| - 1], mid, start, init)
    requires RunOfPage(c, mid, pages[|pages| - 1], ds[|pages| - 1], db', start, last)
    ensures RunOfPages(c, db, pages, ds, db', start, init + last)
  {
    RunAppend(db, init, last);
    forall k, u
      ensures RunBrings(init + last, k, u) <==> PagesBring(c, pages, ds, k, u)
    {
      RunBringsAppend(init, last, k, u);
      PagesBringLast(c, pages, ds, k, u);
    }
  }

  lemma AllButLast(c: Context, dbs: seq<Database>, pages: seq<Page>, ds: seq<Delivery>)
    requires SyncsAll(c, dbs, pages, ds) && pages != []
    ensures SyncsAll(c, dbs[..|pages|], pages[..|pages| - 1], ds[..|pages| - 1])
  {
  }

  lemma PagesBringLast(c: Context, pages: seq<Page>, ds: seq<Delivery>, k: LinkKey, u: Option<int>)
    requires |pages| == |ds| && pages != []
    ensures var n := |pages| - 1;
      PagesBring(c, pages, ds, k, u) <==>
        PagesBring(c, pages[..n], ds[..n], k, u) || PageBrings(c, pages[n], ds[n], k, u)
  {
    var n := |pages| - 1;
    if p :| 0 <= p < |pages| && PageBrings(c, pages[p], ds[p], k, u) {
      assert p < n ==> PageBrings(c, pages[..n][p], ds[..n][p], k, u);
    }
    if p :| 0 <= p < n && PageBrings(c, pages[..n][p], ds[..n][p], k, u) {
      assert PageBrings(c, pages[p], ds[p], k, u);
    }
  }

  /**
   What the detection after a full sync buries: of the links that were live before, those that were
   stored under the detected type, last processed before the sync began, and given no other
   updatedAt by any page; and no link that the sync inserted. So being on a page does not save a
   link: one that is unchanged is buried like one that is gone.
   */
  lemma FullSyncBuriesIff(
    c: Context, dbs: seq<Database>, pages: seq<Page>, ds: seq<Delivery>, entityType: string, start: int, at: int,
    k: LinkKey)
    requires SyncsAll(c, dbs, pages, ds) && NotBefore(ds, start)
    ensures var before, after := dbs[0].links, dbs[|pages|].links;
      var detected := Run(dbs[|pages|], DetectStatements(dbs[|pages|], c.org, "pco", entityType, start, at)).links;
      && (k in before ==> k in after) && (k in after ==> k in detected)
      && (k in after && k !in before ==> detected[k].deletedAt.None?)
      && (k in before && before[k].deletedAt.None? ==>
           (detected[k].deletedAt.Some? <==>
             Stale(dbs[0], k, c.org, "pco", entityType, start) && !PagesBring(c, pages, ds, k, before[k].updatedAt)))
  {
    var db, db' := dbs[0], dbs[|pages|];
    var ss := PagesAreARun(c, dbs, pages, ds, start);
    RunKeepsLinks(db, ss);
    RunKeepsAlive(db, ss, start);
    if k in db'.links {
      DetectionAlone(db', c.org, "pco", entityType, start, at, k);
      if db'.links[k].deletedAt.None? {
        DetectionAfterRun(db, ss, c.org, "pco", entityType, start, at, k);
      }
    }
  }
}
