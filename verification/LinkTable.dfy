/**
 The external-link table: how link inputs become rows, what a run of statements can never do
 to a row, which rows deletion detection buries, and how well the batch time stands in for
 real change detection.
 */
module LinkTable {
  import opened Seqs
  import opened Tables
  import opened Wrappers

  // ----- from inputs to rows

  /**
   One link to record. `drawn` is the id that getEntityId would draw for it; the two times
   are absent or parsed.
   */
  datatype LinkInput = LinkInput(
    adapter: string, externalId: string, entityType: string,
    entityId: Option<string>, createdAt: Option<int>, updatedAt: Option<int>, drawn: string)

  type LinkRow = Row<LinkKey, Link>

  function KeyOf(org: string, input: LinkInput): (k: LinkKey) {
    LinkKey(org, input.adapter, input.externalId)
  }

  /** A link without entity data only records that the entity exists. */
  predicate IsReference(input: LinkInput) {
    input.createdAt.None? && input.updatedAt.None?
  }

  function EntityRow(org: string, input: LinkInput, now: int): (r: LinkRow) {
    Row(KeyOf(org, input),
      Link(input.entityId.GetOr(input.drawn), input.entityType, input.createdAt.GetOr(now),
           Some(input.updatedAt.GetOr(now)), now, None, None))
  }

  function ReferenceRow(org: string, input: LinkInput, now: int): (r: LinkRow) {
    var id := if input.entityId == None || input.entityId == Some("") then input.drawn else input.entityId.value;
    Row(KeyOf(org, input), Link(id, input.entityType, now, Some(now), now, None, None))
  }

  function EntityInputs(inputs: seq<LinkInput>): (out: seq<LinkInput>) {
    Filter((i: LinkInput) => !IsReference(i), inputs)
  }

  function ReferenceInputs(inputs: seq<LinkInput>): (out: seq<LinkInput>) {
    Filter((i: LinkInput) => IsReference(i), inputs)
  }

  function EntityRows(org: string, inputs: seq<LinkInput>, now: int): (rows: seq<LinkRow>) {
    Map((i: LinkInput) => EntityRow(org, i, now), EntityInputs(inputs))
  }

  function ReferenceRows(org: string, inputs: seq<LinkInput>, now: int): (rows: seq<LinkRow>) {
    Map((i: LinkInput) => ReferenceRow(org, i, now), ReferenceInputs(inputs))
  }

  // ----- what no statement can do to a link

  /** The row still names the same entity, and is not dug up again once buried. */
  predicate Persists(before: Link, after: Link) {
    && after.entityId == before.entityId
    && after.entityType == before.entityType
    && after.createdAt == before.createdAt
    && (before.deletedAt.Some? ==> after.deletedAt.Some?)
  }

  predicate LinksPersist(db: Database, db': Database) {
    forall k :: k in db.links ==> k in db'.links && Persists(db.links[k], db'.links[k])
  }

  lemma StepKeepsLinks(db: Database, s: Statement)
    ensures LinksPersist(db, Exec(db, s))
  {
    match s
    case UpsertEntityLinks(rows) => UpsertKeepsLinks(db.links, rows, TouchLink);
    case UpsertReferenceLinks(rows) => UpsertKeepsLinks(db.links, rows, KeepLink);
    case _ =>
  }

  lemma UpsertKeepsLinks(t: map<LinkKey, Link>, rows: seq<LinkRow>, onConflict: (Link, Link) -> Link)
    requires forall l, m :: Persists(l, onConflict(l, m))
    ensures forall k :: k in t ==> k in Upsert(t, rows, onConflict) && Persists(t[k], Upsert(t, rows, onConflict)[k])
  {
    if DistinctKeys(rows) {
      MergedRows(t, rows, onConflict);
      forall k | k in t
        ensures Persists(t[k], Merged(t, rows, onConflict)[k])
      {
        if i :| 0 <= i < |rows| && rows[i].key == k {
        }
      }
    }
  }

  /**
   Over every run of statements, in any interleaving: a link row once present never vanishes,
   keeps naming the same entity, and keeps its tombstone.
   */
  lemma {:induction false} RunKeepsLinks(db: Database, ss: seq<Statement>)
    ensures LinksPersist(db, Run(db, ss))
  {
    if ss != [] {
      var mid := Run(db, ss[..|ss| - 1]);
      RunKeepsLinks(db, ss[..|ss| - 1]);
      StepKeepsLinks(mid, ss[|ss| - 1]);
      forall k | k in db.links
        ensures k in Run(db, ss).links && Persists(db.links[k], Run(db, ss).links[k])
      {
        assert k in mid.links;
      }
    }
  }

  // ----- detectAndMarkDeleted

  predicate InScope(k: LinkKey, l: Link, org: string, adapter: string, entityType: string) {
    k.org == org && k.adapter == adapter && l.entityType == entityType
  }

  /** The row is live, in scope and was last processed before the sync began. */
  predicate Stale(db: Database, k: LinkKey, org: string, adapter: string, entityType: string, start: int) {
    && k in db.links
    && InScope(k, db.links[k], org, adapter, entityType)
    && db.links[k].lastProcessedAt < start
    && db.links[k].deletedAt.None?
  }

  function StaleKeys(db: Database, org: string, adapter: string, entityType: string, start: int): (ks: set<LinkKey>) {
    set k | k in db.links && Stale(db, k, org, adapter, entityType, start)
  }

  /** The update that follows the select; none when nothing was found. */
  function DetectStatements(
    db: Database, org: string, adapter: string, entityType: string, start: int, at: int): (ss: seq<Statement>)
  {
    var ks := StaleKeys(db, org, adapter, entityType, start);
    if ks == {} then []
    else [BuryStaleLinks(org, adapter, entityType, set k | k in ks :: k.externalId, at)]
  }

  /**
   Detection selects on one state and updates a later one. Whatever ran in between, it buries
   exactly the rows that were stale when it looked, and changes no other row.
   */
  lemma DetectionBuriesWhatItSaw(
    db: Database, between: seq<Statement>, org: string, adapter: string, entityType: string, start: int, at: int)
    ensures var mid := Run(db, between);
      var after := Run(mid, DetectStatements(db, org, adapter, entityType, start, at));
      && after.links.Keys == mid.links.Keys
      && after == mid.(links := after.links)
      && forall k :: k in mid.links ==>
        after.links[k] == if Stale(db, k, org, adapter, entityType, start) then BuryLink(mid.links[k], at)
          else mid.links[k]
  {
    var mid := Run(db, between);
    var ks := StaleKeys(db, org, adapter, entityType, start);
    var ss := DetectStatements(db, org, adapter, entityType, start, at);
    assert forall k :: Stale(db, k, org, adapter, entityType, start) ==> k in ks;
    if ks != {} {
      var bury := BuryStaleLinks(org, adapter, entityType, set k | k in ks :: k.externalId, at);
      assert ss == [bury] && ss[..0] == [];
      assert Run(mid, ss) == Exec(mid, bury);
      forall k | k in mid.links
        ensures InScope(k, mid.links[k], org, adapter, entityType) && k.externalId in bury.externalIds
           <==> Stale(db, k, org, adapter, entityType, start)
      {
        PickedUp(db, between, org, adapter, entityType, start, k);
      }
    }
  }

  /** The update finds a row again by its external id, which names one row of the org and adapter. */
  lemma PickedUp(
    db: Database, between: seq<Statement>, org: string, adapter: string, entityType: string, start: int, k: LinkKey)
    requires k in Run(db, between).links
    ensures var ids := set k' | k' in StaleKeys(db, org, adapter, entityType, start) :: k'.externalId;
      InScope(k, Run(db, between).links[k], org, adapter, entityType) && k.externalId in ids
      <==> Stale(db, k, org, adapter, entityType, start)
  {
    RunKeepsLinks(db, between);
    var ks := StaleKeys(db, org, adapter, entityType, start);
    var ids := set k' | k' in ks :: k'.externalId;
    if k.externalId in ids && k.org == org && k.adapter == adapter {
      var k' :| k' in ks && k'.externalId == k.externalId;
      assert k == k';
    }
    if Stale(db, k, org, adapter, entityType, start) {
      assert k in ks;
    }
  }

  /** With nothing in between, it buries exactly the live rows in scope older than the start. */
  lemma DetectionAlone(db: Database, org: string, adapter: string, entityType: string, start: int, at: int, k: LinkKey)
    requires k in db.links
    ensures var after := Run(db, DetectStatements(db, org, adapter, entityType, start, at));
      && k in after.links
      && after.links[k] ==
           if k.org == org && k.adapter == adapter && db.links[k].entityType == entityType
             && db.links[k].lastProcessedAt < start && db.links[k].deletedAt.None?
           then db.links[k].(deletedAt := Some(at), deletedBy := Some("sync_deletion_detection"))
           else db.links[k]
  {
    DetectionBuriesWhatItSaw(db, [], org, adapter, entityType, start, at);
  }

  /**
   Any row that was stale at the select, and any accepted batch in between that holds it: a batch
   that brings another updatedAt makes the row fresh, and it is buried all the same.
   */
  lemma BumpedTooLate(
    db: Database, rows: seq<LinkRow>, i: nat, org: string, adapter: string, entityType: string, start: int, at: int)
    requires DistinctKeys(rows) && i < |rows| && Stale(db, rows[i].key, org, adapter, entityType, start)
    requires rows[i].value.lastProcessedAt >= start
    ensures var k, mid := rows[i].key, Run(db, [UpsertEntityLinks(rows)]);
      var after := Run(mid, DetectStatements(db, org, adapter, entityType, start, at));
      && k in mid.links && mid.links[k].deletedAt.None?
      && (mid.links[k].lastProcessedAt >= start <==> rows[i].value.updatedAt != db.links[k].updatedAt)
      && k in after.links && after.links[k].deletedAt == Some(at)
  {
    var bump := UpsertEntityLinks(rows);
    RunThree(db, bump, bump, bump);
    UpsertedRow(db.links, rows, TouchLink, i);
    DetectionBuriesWhatItSaw(db, [bump], org, adapter, entityType, start, at);
  }

  // ----- what is stale after a run

  /** Every link batch of the statement carries a time of at least `start`. */
  predicate BatchTimesFrom(s: Statement, start: int) {
    match s
    case UpsertEntityLinks(rows) => forall i :: 0 <= i < |rows| ==> rows[i].value.lastProcessedAt >= start
    case UpsertReferenceLinks(rows) => forall i :: 0 <= i < |rows| ==> rows[i].value.lastProcessedAt >= start
    case _ => true
  }

  /** The statement is carried out and brings link k another updatedAt than u. */
  ghost predicate Brings(s: Statement, k: LinkKey, u: Option<int>) {
    && s.UpsertEntityLinks? && Accepted(s)
    && exists i :: 0 <= i < |s.linkRows| && s.linkRows[i].key == k && s.linkRows[i].value.updatedAt != u
  }

  ghost predicate RunBrings(ss: seq<Statement>, k: LinkKey, u: Option<int>) {
    exists i :: 0 <= i < |ss| && Brings(ss[i], k, u)
  }

  lemma StepMovesLink(db: Database, s: Statement, k: LinkKey, start: int)
    requires k in db.links && BatchTimesFrom(s, start)
    ensures k in Exec(db, s).links
    ensures var l, l' := db.links[k], Exec(db, s).links[k];
      && (Brings(s, k, l.updatedAt) ==> l'.lastProcessedAt >= start)
      && (!Brings(s, k, l.updatedAt) ==> l'.lastProcessedAt == l.lastProcessedAt && l'.updatedAt == l.updatedAt)
  {
    StepKeepsLinks(db, s);
    if s.UpsertEntityLinks? || s.UpsertReferenceLinks? {
      var f := if s.UpsertEntityLinks? then TouchLink else KeepLink;
      if Accepted(s) {
        if i :| 0 <= i < |s.linkRows| && s.linkRows[i].key == k {
          UpsertedRow(db.links, s.linkRows, f, i);
          assert forall j :: 0 <= j < |s.linkRows| && s.linkRows[j].key == k ==> j == i;
        } else {
          OtherRow(db.links, s.linkRows, f, k);
        }
      }
    }
  }

  lemma StepInsertsFreshLinks(db: Database, s: Statement, k: LinkKey, start: int)
    requires k !in db.links && k in Exec(db, s).links && BatchTimesFrom(s, start)
    ensures Exec(db, s).links[k].lastProcessedAt >= start
  {
    if s.UpsertEntityLinks? || s.UpsertReferenceLinks? {
      MergedRows(db.links, s.linkRows, if s.UpsertEntityLinks? then TouchLink else KeepLink);
    }
  }

  /** Over any run of batches not older than `start`, only another updatedAt makes a link fresh, and new links are. */
  lemma {:induction false} LinkAfterRun(db: Database, ss: seq<Statement>, k: LinkKey, start: int)
    requires forall i :: 0 <= i < |ss| ==> BatchTimesFrom(ss[i], start)
    ensures k in db.links ==> k in Run(db, ss).links
    ensures k in db.links && RunBrings(ss, k, db.links[k].updatedAt) ==> Run(db, ss).links[k].lastProcessedAt >= start
    ensures k in db.links && !RunBrings(ss, k, db.links[k].updatedAt) ==>
      && Run(db, ss).links[k].lastProcessedAt == db.links[k].lastProcessedAt
      && Run(db, ss).links[k].updatedAt == db.links[k].updatedAt
    ensures k !in db.links && k in Run(db, ss).links ==> Run(db, ss).links[k].lastProcessedAt >= start
  {
    if ss != [] {
      var init, s := ss[..|ss| - 1], ss[|ss| - 1];
      LinkAfterRun(db, init, k, start);
      if k in Run(db, init).links {
        StepMovesLink(Run(db, init), s, k, start);
      } else if k in Run(db, ss).links {
        StepInsertsFreshLinks(Run(db, init), s, k, start);
      }
      if k in db.links {
        RunBringsLast(ss, k, db.links[k].updatedAt);
      }
    }
  }

  lemma RunBringsLast(ss: seq<Statement>, k: LinkKey, u: Option<int>)
    requires ss != []
    ensures RunBrings(ss, k, u) <==> RunBrings(ss[..|ss| - 1], k, u) || Brings(ss[|ss| - 1], k, u)
  {
    var init := ss[..|ss| - 1];
    if i :| 0 <= i < |ss| && Brings(ss[i], k, u) {
      assert i < |init| ==> Brings(init[i], k, u);
    }
    if i :| 0 <= i < |init| && Brings(init[i], k, u) {
      assert Brings(ss[i], k, u);
    }
  }

  /**
   Detection at the end of a sync, whatever statements ran since its start: of the links that are
   live by then it buries exactly those that were stale before and that no accepted batch since
   brought another updatedAt. That a batch held the link does not save it.
   */
  lemma DetectionAfterRun(
    db: Database, ss: seq<Statement>, org: string, adapter: string, entityType: string, start: int, at: int, k: LinkKey)
    requires forall i :: 0 <= i < |ss| ==> BatchTimesFrom(ss[i], start)
    requires k in Run(db, ss).links && Run(db, ss).links[k].deletedAt.None?
    ensures var after := Run(Run(db, ss), DetectStatements(Run(db, ss), org, adapter, entityType, start, at));
      && k in after.links
      && (after.links[k].deletedAt.Some? <==>
           Stale(db, k, org, adapter, entityType, start) && !RunBrings(ss, k, db.links[k].updatedAt))
  {
    LinkAfterRun(db, ss, k, start);
    RunKeepsLinks(db, ss);
    DetectionAlone(Run(db, ss), org, adapter, entityType, start, at, k);
  }

  // ----- change detection by batch time

  /** The rows a statement returns: one per input row, in order, as the table now holds them. */
  function Returned(t: map<LinkKey, Link>, rows: seq<LinkRow>): (out: seq<LinkRow>)
    requires forall i :: 0 <= i < |rows| ==> rows[i].key in t
    ensures |out| == |rows|
    ensures forall i :: 0 <= i < |rows| ==> out[i] == Row(rows[i].key, t[rows[i].key])
  {
    seq(|rows|, i requires 0 <= i < |rows| => Row(rows[i].key, t[rows[i].key]))
  }

  predicate JustProcessed(l: Link, now: int) {
    -1 <= l.lastProcessedAt - now <= 1
  }

  /** filterChangedMainEntityLinks: the rows whose lastProcessedAt is this batch's time. */
  function Changed(rows: seq<LinkRow>, now: int, force: bool): (out: seq<LinkRow>) {
    if force then rows else Filter((r: LinkRow) => JustProcessed(r.value, now), rows)
  }

  /** The row is new, or its updatedAt differs from the stored one. */
  predicate ReallyChanged(t: map<LinkKey, Link>, r: LinkRow) {
    r.key !in t || t[r.key].updatedAt != r.value.updatedAt
  }

  /**
   Of an accepted entity batch, the returned changed rows are exactly the new rows and those
   whose updatedAt differs if and only if no unchanged row was processed within a millisecond
   of this batch.
   */
  lemma ChangedIsExactUnlessTooRecent(t: map<LinkKey, Link>, rows: seq<LinkRow>, now: int)
    requires DistinctKeys(rows) && forall i :: 0 <= i < |rows| ==> rows[i].value.lastProcessedAt == now
    ensures forall i :: 0 <= i < |rows| ==> rows[i].key in Upsert(t, rows, TouchLink)
    ensures var all := Returned(Upsert(t, rows, TouchLink), rows);
      (forall i :: 0 <= i < |rows| ==> (all[i] in Changed(all, now, false) <==> ReallyChanged(t, rows[i])))
      <==>
      (forall i :: 0 <= i < |rows| && !ReallyChanged(t, rows[i]) ==> !JustProcessed(t[rows[i].key], now))
  {
    MergedRows(t, rows, TouchLink);
    var all := Returned(Upsert(t, rows, TouchLink), rows);
    forall i | 0 <= i < |rows|
      ensures all[i] in Changed(all, now, false) <==> ReallyChanged(t, rows[i]) || JustProcessed(t[rows[i].key], now)
    {
      assert all[i] in all;
    }
  }

  /** Reference batches change no row that exists, so only new rows can be new to the table. */
  lemma ReferencesOnlyInsert(t: map<LinkKey, Link>, rows: seq<LinkRow>, now: int)
    requires DistinctKeys(rows) && forall i :: 0 <= i < |rows| ==> rows[i].value.lastProcessedAt == now
    ensures forall k :: k in t ==> k in Upsert(t, rows, KeepLink) && Upsert(t, rows, KeepLink)[k] == t[k]
    ensures forall i :: 0 <= i < |rows| ==> rows[i].key in Upsert(t, rows, KeepLink)
    ensures var all := Returned(Upsert(t, rows, KeepLink), rows);
      (forall i :: 0 <= i < |rows| ==> (all[i] in Changed(all, now, false) <==> rows[i].key !in t))
      <==>
      (forall i :: 0 <= i < |rows| && rows[i].key in t ==> !JustProcessed(t[rows[i].key], now))
  {
    MergedRows(t, rows, KeepLink);
    var all := Returned(Upsert(t, rows, KeepLink), rows);
    forall i | 0 <= i < |rows|
      ensures all[i] in Changed(all, now, false) <==> rows[i].key !in t || JustProcessed(t[rows[i].key], now)
    {
      assert all[i] in all;
    }
    forall k | k in t
      ensures k in Upsert(t, rows, KeepLink) && Upsert(t, rows, KeepLink)[k] == t[k]
    {
      if i :| 0 <= i < |rows| && rows[i].key == k {
      }
    }
  }

  /** Every link batch of the statement carries a time of at most `latest`. */
  predicate BatchTimesUpTo(s: Statement, latest: int) {
    match s
    case UpsertEntityLinks(rows) => forall i :: 0 <= i < |rows| ==> rows[i].value.lastProcessedAt <= latest
    case UpsertReferenceLinks(rows) => forall i :: 0 <= i < |rows| ==> rows[i].value.lastProcessedAt <= latest
    case _ => true
  }

  predicate ProcessedUpTo(t: map<LinkKey, Link>, latest: int) {
    forall k :: k in t ==> t[k].lastProcessedAt <= latest
  }

  /** The times in the table are times of earlier batches. */
  lemma {:induction false} RunKeepsProcessedUpTo(db: Database, ss: seq<Statement>, latest: int)
    requires ProcessedUpTo(db.links, latest) && forall i :: 0 <= i < |ss| ==> BatchTimesUpTo(ss[i], latest)
    ensures ProcessedUpTo(Run(db, ss).links, latest)
  {
    if ss != [] {
      var mid, s := Run(db, ss[..|ss| - 1]), ss[|ss| - 1];
      RunKeepsProcessedUpTo(db, ss[..|ss| - 1], latest);
      match s
      case UpsertEntityLinks(rows) => UpsertKeepsProcessedUpTo(mid.links, rows, TouchLink, latest);
      case UpsertReferenceLinks(rows) => UpsertKeepsProcessedUpTo(mid.links, rows, KeepLink, latest);
      case _ =>
    }
  }

  lemma UpsertKeepsProcessedUpTo(
    t: map<LinkKey, Link>, rows: seq<LinkRow>, onConflict: (Link, Link) -> Link, latest: int)
    requires ProcessedUpTo(t, latest) && forall i :: 0 <= i < |rows| ==> rows[i].value.lastProcessedAt <= latest
    requires forall l, m :: onConflict(l, m).lastProcessedAt in {l.lastProcessedAt, m.lastProcessedAt}
    ensures ProcessedUpTo(Upsert(t, rows, onConflict), latest)
  {
    if DistinctKeys(rows) {
      MergedRows(t, rows, onConflict);
      forall k | k in Merged(t, rows, onConflict)
        ensures Merged(t, rows, onConflict)[k].lastProcessedAt <= latest
      {
        if i :| 0 <= i < |rows| && rows[i].key == k {
        }
      }
    }
  }

  /**
   The timestamp trick over whole runs: when every earlier batch time is more than one
   millisecond before this one, the entity links returned as changed are exactly those newly
   inserted or with another updatedAt, whatever ran before.
   */
  lemma ChangeDetectionOverRuns(db: Database, ss: seq<Statement>, rows: seq<LinkRow>, now: int)
    requires ProcessedUpTo(db.links, now - 2) && forall i :: 0 <= i < |ss| ==> BatchTimesUpTo(ss[i], now - 2)
    requires DistinctKeys(rows) && forall i :: 0 <= i < |rows| ==> rows[i].value.lastProcessedAt == now
    ensures var t := Run(db, ss).links;
      && (forall i :: 0 <= i < |rows| ==> rows[i].key in Upsert(t, rows, TouchLink))
      && var all := Returned(Upsert(t, rows, TouchLink), rows);
      forall i :: 0 <= i < |rows| ==> (all[i] in Changed(all, now, false) <==> ReallyChanged(t, rows[i]))
  {
    RunKeepsProcessedUpTo(db, ss, now - 2);
    ChangedIsExactUnlessTooRecent(Run(db, ss).links, rows, now);
  }

  // ----- processExternalLinks

  datatype LinkOutcome =
    | Processed(db: Database, all: seq<LinkRow>, changed: seq<LinkRow>)
    | Refused(db: Database)

  /**
   The two statements run concurrently: `entityFirst` says which the database takes first, and
   `bothRun` whether the other one still runs when the first is refused.
   */
  datatype Schedule = Schedule(entityFirst: bool, bothRun: bool)

  lemma AcceptedRowsArePresent(t: map<LinkKey, Link>, rows: seq<LinkRow>, onConflict: (Link, Link) -> Link)
    requires DistinctKeys(rows)
    ensures forall i :: 0 <= i < |rows| ==> rows[i].key in Upsert(t, rows, onConflict)
  {
    MergedRows(t, rows, onConflict);
  }

  function LinkStatements(org: string, inputs: seq<LinkInput>, now: int, schedule: Schedule): (ss: seq<Statement>) {
    var e := UpsertEntityLinks(EntityRows(org, inputs, now));
    var r := UpsertReferenceLinks(ReferenceRows(org, inputs, now));
    if schedule.entityFirst then (if Accepted(e) || schedule.bothRun then [e, r] else [e])
    else (if Accepted(r) || schedule.bothRun then [r, e] else [r])
  }

  function ProcessExternalLinks(
    db: Database, org: string, inputs: seq<LinkInput>, now: int, force: bool, schedule: Schedule): (o: LinkOutcome)
  {
    var es, rs := EntityRows(org, inputs, now), ReferenceRows(org, inputs, now);
    if !DistinctKeys(es) || !DistinctKeys(rs) then Refused(Run(db, LinkStatements(org, inputs, now, schedule)))
    else
      var entitiesDone := AfterEntities(db.links, es, rs, schedule);
      var referencesDone := AfterReferences(db.links, es, rs, schedule);
      AcceptedRowsArePresent(if schedule.entityFirst then db.links else referencesDone, es, TouchLink);
      AcceptedRowsArePresent(if schedule.entityFirst then entitiesDone else db.links, rs, KeepLink);
      var entities, references := Returned(entitiesDone, es), Returned(referencesDone, rs);
      Processed(
        db.(links := if schedule.entityFirst then referencesDone else entitiesDone),
        entities + references,
        Changed(entities, now, force) + Changed(references, now, force))
  }

  /** An accepted batch is the run of its two statements. */
  lemma ProcessedIsRun(db: Database, org: string, inputs: seq<LinkInput>, now: int, force: bool, schedule: Schedule)
    requires ProcessExternalLinks(db, org, inputs, now, force, schedule).Processed?
    ensures ProcessExternalLinks(db, org, inputs, now, force, schedule).db
      == Run(db, LinkStatements(org, inputs, now, schedule))
  {
    var e, r := UpsertEntityLinks(EntityRows(org, inputs, now)), UpsertReferenceLinks(ReferenceRows(org, inputs, now));
    RunThree(db, e, r, r);
    RunThree(db, r, e, e);
  }

  /** The link table right after the statement for entity links. */
  function AfterEntities(
    t: map<LinkKey, Link>, es: seq<LinkRow>, rs: seq<LinkRow>, schedule: Schedule): (t': map<LinkKey, Link>)
  {
    Upsert(if schedule.entityFirst then t else Upsert(t, rs, KeepLink), es, TouchLink)
  }

  /** The link table right after the statement for reference links. */
  function AfterReferences(
    t: map<LinkKey, Link>, es: seq<LinkRow>, rs: seq<LinkRow>, schedule: Schedule): (t': map<LinkKey, Link>)
  {
    Upsert(if schedule.entityFirst then Upsert(t, es, TouchLink) else t, rs, KeepLink)
  }

  predicate DistinctInputs(inputs: seq<LinkInput>) {
    forall i, j :: 0 <= i < j < |inputs| ==>
      inputs[i].adapter != inputs[j].adapter || inputs[i].externalId != inputs[j].externalId
  }

  lemma {:induction false} FilteredInputsStayDistinct(inputs: seq<LinkInput>, p: LinkInput -> bool)
    requires DistinctInputs(inputs)
    ensures DistinctInputs(Filter(p, inputs))
  {
    if inputs != [] {
      var rest := Filter(p, inputs[1..]);
      FilteredInputsStayDistinct(inputs[1..], p);
      forall j | 0 <= j < |rest|
        ensures inputs[0].adapter != rest[j].adapter || inputs[0].externalId != rest[j].externalId
      {
        assert rest[j] in inputs[1..];
        var i :| 0 <= i < |inputs[1..]| && inputs[1..][i] == rest[j];
        assert inputs[i + 1] == rest[j];
      }
    }
  }

  predicate SameLink(a: LinkInput, b: LinkInput) {
    a.adapter == b.adapter && a.externalId == b.externalId
  }

  /** The two go to one row in one statement. */
  predicate Clash(a: LinkInput, b: LinkInput) {
    IsReference(a) == IsReference(b) && SameLink(a, b)
  }

  /** No two links with entity data share a key, and no two without. */
  predicate InputsApart(inputs: seq<LinkInput>) {
    forall i, j :: 0 <= i < j < |inputs| ==> !Clash(inputs[i], inputs[j])
  }

  /**
   A batch of links is accepted if and only if no two links with entity data share a key and no
   two without do. The key does not hold the type, so two entities of different types clash.
   */
  lemma LinksAcceptedIff(db: Database, org: string, inputs: seq<LinkInput>, now: int, force: bool, schedule: Schedule)
    ensures ProcessExternalLinks(db, org, inputs, now, force, schedule).Processed? <==> InputsApart(inputs)
  {
    BatchesApartIff(org, inputs, now);
  }

  lemma BatchesApartIff(org: string, inputs: seq<LinkInput>, now: int)
    ensures InputsApart(inputs) <==>
      DistinctKeys(EntityRows(org, inputs, now)) && DistinctKeys(ReferenceRows(org, inputs, now))
  {
    EntitiesApartIff(org, inputs, now);
    ReferencesApartIff(org, inputs, now);
  }

  /** No two links of this kind share a key. */
  predicate KindApart(inputs: seq<LinkInput>, reference: bool) {
    forall i, j :: 0 <= i < j < |inputs| && IsReference(inputs[i]) == IsReference(inputs[j]) == reference ==>
      !SameLink(inputs[i], inputs[j])
  }

  lemma KindIsKeptApart(
    inputs: seq<LinkInput>, p: LinkInput -> bool, alike: (LinkInput, LinkInput) -> bool, reference: bool)
    requires forall i :: p(i) <==> IsReference(i) == reference
    requires forall a, b :: alike(a, b) <==> SameLink(a, b)
    ensures KindApart(inputs, reference) <==> KeptApart(p, alike, inputs)
  {
  }

  /** The rows of the links of one kind have distinct keys exactly when these links do. */
  lemma RowsOfKindApartIff(
    org: string, inputs: seq<LinkInput>, p: LinkInput -> bool, reference: bool, rows: seq<LinkRow>)
    requires forall i :: p(i) <==> IsReference(i) == reference
    requires |rows| == |Filter(p, inputs)|
    requires forall i :: 0 <= i < |rows| ==> rows[i].key == KeyOf(org, Filter(p, inputs)[i])
    ensures DistinctKeys(rows) <==> KindApart(inputs, reference)
  {
    var alike := (a: LinkInput, b: LinkInput) => SameLink(a, b);
    KindIsKeptApart(inputs, p, alike, reference);
    FilterKeepsApart(p, alike, inputs);
    RowsApartIff(org, Filter(p, inputs), rows, p, alike);
  }

  lemma EntitiesApartIff(org: string, inputs: seq<LinkInput>, now: int)
    ensures DistinctKeys(EntityRows(org, inputs, now)) <==> KindApart(inputs, false)
  {
    RowsOfKindApartIff(org, inputs, (i: LinkInput) => !IsReference(i), false, EntityRows(org, inputs, now));
  }

  lemma ReferencesApartIff(org: string, inputs: seq<LinkInput>, now: int)
    ensures DistinctKeys(ReferenceRows(org, inputs, now)) <==> KindApart(inputs, true)
  {
    RowsOfKindApartIff(org, inputs, (i: LinkInput) => IsReference(i), true, ReferenceRows(org, inputs, now));
  }

  lemma RowsApartIff(
    org: string, inputs: seq<LinkInput>, rows: seq<LinkRow>, p: LinkInput -> bool,
    alike: (LinkInput, LinkInput) -> bool)
    requires |rows| == |inputs| && forall i :: 0 <= i < |rows| ==> rows[i].key == KeyOf(org, inputs[i])
    requires forall i :: i in inputs ==> p(i)
    requires forall a, b :: alike(a, b) <==> SameLink(a, b)
    ensures DistinctKeys(rows) <==> KeptApart(p, alike, inputs)
  {
    if DistinctKeys(rows) {
      forall i, j | 0 <= i < j < |inputs|
        ensures !alike(inputs[i], inputs[j])
      {
        assert rows[i].key != rows[j].key;
      }
    } else {
      var i, j :| 0 <= i < j < |rows| && rows[i].key == rows[j].key;
      assert alike(inputs[i], inputs[j]) && inputs[i] in inputs && inputs[j] in inputs;
    }
  }

  lemma {:induction false} PartitionCounts(inputs: seq<LinkInput>)
    ensures |EntityInputs(inputs)| + |ReferenceInputs(inputs)| == |inputs|
  {
    if inputs != [] {
      PartitionCounts(inputs[1..]);
    }
  }

  /** The value the row of an input has once its batch is processed. */
  function LinkAfter(t: map<LinkKey, Link>, org: string, input: LinkInput, now: int): (l: Link) {
    var k := KeyOf(org, input);
    var r := if IsReference(input) then ReferenceRow(org, input, now) else EntityRow(org, input, now);
    if k !in t then r.value
    else if IsReference(input) then t[k]
    else TouchLink(t[k], r.value)
  }

  predicate DisjointKeys(xs: seq<LinkRow>, ys: seq<LinkRow>) {
    forall i, j :: 0 <= i < |xs| && 0 <= j < |ys| ==> xs[i].key != ys[j].key
  }

  /** Two batches on different keys: each row comes out as if its batch had run alone. */
  lemma OneBatchThenAnother(
    t: map<LinkKey, Link>, xs: seq<LinkRow>, f: (Link, Link) -> Link, ys: seq<LinkRow>, g: (Link, Link) -> Link)
    requires DistinctKeys(xs) && DistinctKeys(ys) && DisjointKeys(xs, ys)
    ensures var first := Upsert(t, xs, f);
      var last := Upsert(first, ys, g);
      && (forall i :: 0 <= i < |xs| ==>
        && xs[i].key in first && xs[i].key in last
        && first[xs[i].key] == last[xs[i].key] == if xs[i].key in t then f(t[xs[i].key], xs[i].value) else xs[i].value)
      && (forall i :: 0 <= i < |ys| ==>
        && ys[i].key in last
        && last[ys[i].key] == if ys[i].key in t then g(t[ys[i].key], ys[i].value) else ys[i].value)
      && (forall k :: k in last <==> k in t || HasKey(xs, k) || HasKey(ys, k))
      && (forall k :: k in t && !HasKey(xs, k) && !HasKey(ys, k) ==> last[k] == t[k])
  {
    var first := Upsert(t, xs, f);
    MergedRows(t, xs, f);
    MergedRows(first, ys, g);
    forall i | 0 <= i < |ys|
      ensures ys[i].key in first <==> ys[i].key in t
      ensures ys[i].key in t ==> first[ys[i].key] == t[ys[i].key]
    {
      assert !HasKey(xs, ys[i].key);
    }
  }

  /** Whichever statement runs first, an entity row and a reference row come out the same. */
  lemma BothBatches(t: map<LinkKey, Link>, es: seq<LinkRow>, rs: seq<LinkRow>, schedule: Schedule)
    requires DistinctKeys(es) && DistinctKeys(rs) && DisjointKeys(es, rs) && DisjointKeys(rs, es)
    ensures var entitiesDone, referencesDone :=
      AfterEntities(t, es, rs, schedule), AfterReferences(t, es, rs, schedule);
      var last := if schedule.entityFirst then referencesDone else entitiesDone;
      && (forall i :: 0 <= i < |es| ==>
        && es[i].key in entitiesDone && es[i].key in last
        && entitiesDone[es[i].key] == last[es[i].key] ==
          if es[i].key in t then TouchLink(t[es[i].key], es[i].value) else es[i].value)
      && (forall i :: 0 <= i < |rs| ==>
        && rs[i].key in referencesDone && rs[i].key in last
        && referencesDone[rs[i].key] == last[rs[i].key] == if rs[i].key in t then t[rs[i].key] else rs[i].value)
      && (forall k :: k in last <==> k in t || HasKey(es, k) || HasKey(rs, k))
      && (forall k :: k in t && !HasKey(es, k) && !HasKey(rs, k) ==> last[k] == t[k])
  {
    if schedule.entityFirst {
      OneBatchThenAnother(t, es, TouchLink, rs, KeepLink);
    } else {
      OneBatchThenAnother(t, rs, KeepLink, es, TouchLink);
    }
  }

  /**
   A batch of distinct links is always accepted; whichever statement runs first, every input's
   row comes out as `LinkAfter`, one row per input is returned, and no other row changes.
   */
  lemma DistinctBatchIsProcessed(
    db: Database, org: string, inputs: seq<LinkInput>, now: int, force: bool, schedule: Schedule)
    requires DistinctInputs(inputs)
    ensures var o := ProcessExternalLinks(db, org, inputs, now, force, schedule);
      && o.Processed? && |o.all| == |inputs|
      && o.db == db.(links := o.db.links)
      && (forall input :: input in inputs ==>
           && KeyOf(org, input) in o.db.links
           && o.db.links[KeyOf(org, input)] == LinkAfter(db.links, org, input, now)
           && Row(KeyOf(org, input), LinkAfter(db.links, org, input, now)) in o.all)
      && (forall k :: k in o.db.links <==> k in db.links || IsKeyOf(org, inputs, k))
      && (forall k :: k in db.links && !IsKeyOf(org, inputs, k) ==> o.db.links[k] == db.links[k])
  {
    var es, rs := EntityRows(org, inputs, now), ReferenceRows(org, inputs, now);
    BatchesAreDistinct(org, inputs, now);
    PartitionCounts(inputs);
    BothBatches(db.links, es, rs, schedule);
    forall k
      ensures IsKeyOf(org, inputs, k) <==> HasKey(es, k) || HasKey(rs, k)
    {
      KeysOfRows(org, inputs, now, k);
    }
    forall input | input in inputs
    {
      ReturnedRow(db, org, inputs, now, force, schedule, input);
    }
  }

  /**
   One link given both with and without entity data is accepted. A stored row comes out the same
   whichever statement runs first; a new row gets its entity and type from the one that does.
   */
  lemma LinkGivenTwice(
    db: Database, org: string, inputs: seq<LinkInput>, now: int, force: bool, schedule: Schedule, e: LinkInput,
    r: LinkInput)
    requires InputsApart(inputs) && e in inputs && r in inputs && SameLink(e, r) && !IsReference(e) && IsReference(r)
    ensures var o, k := ProcessExternalLinks(db, org, inputs, now, force, schedule), KeyOf(org, e);
      && o.Processed? && k in o.db.links
      && o.db.links[k] ==
           if k in db.links then TouchLink(db.links[k], EntityRow(org, e, now).value)
           else if schedule.entityFirst then EntityRow(org, e, now).value
           else TouchLink(ReferenceRow(org, r, now).value, EntityRow(org, e, now).value)
  {
    var es, rs := EntityRows(org, inputs, now), ReferenceRows(org, inputs, now);
    BatchesApartIff(org, inputs, now);
    InputHasItsRow(org, inputs, e, now);
    InputHasItsRow(org, inputs, r, now);
    var i :| 0 <= i < |es| && es[i] == EntityRow(org, e, now);
    var j :| 0 <= j < |rs| && rs[j] == ReferenceRow(org, r, now);
    if schedule.entityFirst {
      UpsertedRow(db.links, es, TouchLink, i);
      UpsertedRow(Upsert(db.links, es, TouchLink), rs, KeepLink, j);
    } else {
      UpsertedRow(db.links, rs, KeepLink, j);
      UpsertedRow(Upsert(db.links, rs, KeepLink), es, TouchLink, i);
    }
  }

  /**
   The row of a link after its batch, column by column. A new row is live and gets the input's id and
   type, drawing an id where it has none, and its times, or the time of the batch. In a stored one a
   link with entity data changes its updatedAt, and its lastProcessedAt when that differs; a link
   without entity data changes nothing.
   */
  ghost predicate InColumns(t: map<LinkKey, Link>, k: LinkKey, input: LinkInput, now: int, after: Link) {
    var timed := input.createdAt.Some? || input.updatedAt.Some?;
    var updatedAt := Some(if input.updatedAt.Some? then input.updatedAt.value else now);
    var hasId := input.entityId.Some? && (timed || input.entityId.value != "");
    && (k !in t ==>
         after == Link(
           if hasId then input.entityId.value else input.drawn, input.entityType,
           if input.createdAt.Some? then input.createdAt.value else now, updatedAt, now, None, None))
    && (k in t && timed ==>
         after == t[k].(updatedAt := updatedAt,
           lastProcessedAt := if updatedAt == t[k].updatedAt then t[k].lastProcessedAt else now))
    && (k in t && !timed ==> after == t[k])
  }

  lemma AfterInColumns(t: map<LinkKey, Link>, org: string, input: LinkInput, now: int)
    ensures InColumns(t, LinkKey(org, input.adapter, input.externalId), input, now, LinkAfter(t, org, input, now))
  {
  }

  /** The row of a new link, and of one with a new time, is processed at the time of the batch. */
  lemma ProcessedNow(t: map<LinkKey, Link>, org: string, input: LinkInput, now: int)
    requires var k := LinkKey(org, input.adapter, input.externalId);
      k !in t || ((input.createdAt.Some? || input.updatedAt.Some?)
        && t[k].updatedAt != Some(if input.updatedAt.Some? then input.updatedAt.value else now))
    ensures LinkAfter(t, org, input, now).lastProcessedAt == now
  {
    AfterInColumns(t, org, input, now);
  }

  /** What a batch of distinct links makes of the row of each of them. */
  lemma LinkInColumns(
    db: Database, org: string, inputs: seq<LinkInput>, now: int, force: bool, schedule: Schedule, input: LinkInput)
    requires DistinctInputs(inputs) && input in inputs
    ensures var o, k := ProcessExternalLinks(db, org, inputs, now, force, schedule),
        LinkKey(org, input.adapter, input.externalId);
      o.Processed? && k in o.db.links && InColumns(db.links, k, input, now, o.db.links[k])
  {
    var o := ProcessExternalLinks(db, org, inputs, now, force, schedule);
    AfterInColumns(db.links, org, input, now);
    ReturnedRow(db, org, inputs, now, force, schedule, input);
    assert KeyOf(org, input) == LinkKey(org, input.adapter, input.externalId);
  }

  /**
   What counts as changed: everything when that is forced, and else what was processed within a
   millisecond of the batch.
   */
  lemma ChangedInNumbers(db: Database, org: string, inputs: seq<LinkInput>, now: int, force: bool, schedule: Schedule)
    requires ProcessExternalLinks(db, org, inputs, now, force, schedule).Processed?
    ensures var o := ProcessExternalLinks(db, org, inputs, now, force, schedule);
      if force then o.changed == o.all
      else forall r :: r in o.changed <==> r in o.all && now - 1 <= r.value.lastProcessedAt <= now + 1
  {
    var es, rs := EntityRows(org, inputs, now), ReferenceRows(org, inputs, now);
    var entitiesDone, referencesDone :=
      AfterEntities(db.links, es, rs, schedule), AfterReferences(db.links, es, rs, schedule);
    PartsReturned(db, org, inputs, now, force, schedule);
    ChangedRowsInNumbers(Returned(entitiesDone, es), now);
    ChangedRowsInNumbers(Returned(referencesDone, rs), now);
  }

  lemma ChangedRowsInNumbers(rows: seq<LinkRow>, now: int)
    ensures forall r :: r in Changed(rows, now, false) <==> r in rows && now - 1 <= r.value.lastProcessedAt <= now + 1
  {
  }

  /** What comes back belongs to one of the inputs. */
  lemma ReturnedHasInput(
    db: Database, org: string, inputs: seq<LinkInput>, now: int, force: bool, schedule: Schedule, r: LinkRow)
    requires var o := ProcessExternalLinks(db, org, inputs, now, force, schedule);
      o.Processed? && r in o.all
    ensures exists input :: input in inputs && r.key == KeyOf(org, input)
  {
    var es, rs := EntityRows(org, inputs, now), ReferenceRows(org, inputs, now);
    var entitiesDone, referencesDone :=
      AfterEntities(db.links, es, rs, schedule), AfterReferences(db.links, es, rs, schedule);
    PartsReturned(db, org, inputs, now, force, schedule);
    RowsComeFromInputs(org, inputs, now);
    if r in Returned(entitiesDone, es) {
      var i := RowBehind(entitiesDone, es, r);
    } else {
      var i := RowBehind(referencesDone, rs, r);
    }
  }

  lemma RowBehind(t: map<LinkKey, Link>, rows: seq<LinkRow>, r: LinkRow) returns (i: nat)
    requires (forall j :: 0 <= j < |rows| ==> rows[j].key in t) && r in Returned(t, rows)
    ensures i < |rows| && rows[i].key == r.key
  {
    i :| 0 <= i < |rows| && Returned(t, rows)[i] == r;
  }

  lemma ReturnedHas(t: map<LinkKey, Link>, rows: seq<LinkRow>, i: nat, now: int, force: bool)
    requires i < |rows| && forall j :: 0 <= j < |rows| ==> rows[j].key in t
    ensures var r := Row(rows[i].key, t[rows[i].key]);
      && r in Returned(t, rows)
      && (force || JustProcessed(r.value, now) ==> r in Changed(Returned(t, rows), now, force))
  {
  }

  /** The returned row of an input, and when it counts as changed. */
  lemma ReturnedRow(
    db: Database, org: string, inputs: seq<LinkInput>, now: int, force: bool, schedule: Schedule, input: LinkInput)
    requires DistinctInputs(inputs) && input in inputs
    ensures var o := ProcessExternalLinks(db, org, inputs, now, force, schedule);
      var r := Row(KeyOf(org, input), LinkAfter(db.links, org, input, now));
      && o.Processed? && r.key in o.db.links && o.db.links[r.key] == r.value && r in o.all
      && (force || JustProcessed(r.value, now) ==> r in o.changed)
  {
    if IsReference(input) {
      ReturnedReference(db, org, inputs, now, force, schedule, input);
    } else {
      ReturnedEntity(db, org, inputs, now, force, schedule, input);
    }
  }

  lemma ReturnedReference(
    db: Database, org: string, inputs: seq<LinkInput>, now: int, force: bool, schedule: Schedule, input: LinkInput)
    requires DistinctInputs(inputs) && input in inputs && IsReference(input)
    ensures var o := ProcessExternalLinks(db, org, inputs, now, force, schedule);
      var r := Row(KeyOf(org, input), LinkAfter(db.links, org, input, now));
      && o.Processed? && r.key in o.db.links && o.db.links[r.key] == r.value && r in o.all
      && (force || JustProcessed(r.value, now) ==> r in o.changed)
  {
    var es, rs := EntityRows(org, inputs, now), ReferenceRows(org, inputs, now);
    BatchesAreDistinct(org, inputs, now);
    BothBatches(db.links, es, rs, schedule);
    InputHasItsRow(org, inputs, input, now);
    var i :| 0 <= i < |rs| && rs[i] == ReferenceRow(org, input, now);
    ReturnedHas(AfterReferences(db.links, es, rs, schedule), rs, i, now, force);
  }

  lemma ReturnedEntity(
    db: Database, org: string, inputs: seq<LinkInput>, now: int, force: bool, schedule: Schedule, input: LinkInput)
    requires DistinctInputs(inputs) && input in inputs && !IsReference(input)
    ensures var o := ProcessExternalLinks(db, org, inputs, now, force, schedule);
      var r := Row(KeyOf(org, input), LinkAfter(db.links, org, input, now));
      && o.Processed? && r.key in o.db.links && o.db.links[r.key] == r.value && r in o.all
      && (force || JustProcessed(r.value, now) ==> r in o.changed)
  {
    var es, rs := EntityRows(org, inputs, now), ReferenceRows(org, inputs, now);
    BatchesAreDistinct(org, inputs, now);
    BothBatches(db.links, es, rs, schedule);
    InputHasItsRow(org, inputs, input, now);
    var i :| 0 <= i < |es| && es[i] == EntityRow(org, input, now);
    ReturnedHas(AfterEntities(db.links, es, rs, schedule), es, i, now, force);
  }

  /**
   The whole operation detects change: for distinct links, with every stored time more than a
   millisecond old, a link comes back as changed exactly when it is new or, for a link with
   entity data, when its updatedAt differs from the stored one.
   */
  lemma ProcessedLinksDetectChange(
    db: Database, org: string, inputs: seq<LinkInput>, now: int, schedule: Schedule, input: LinkInput)
    requires DistinctInputs(inputs) && ProcessedUpTo(db.links, now - 2) && input in inputs
    ensures var o := ProcessExternalLinks(db, org, inputs, now, false, schedule);
      && o.Processed?
      && ((exists r :: r in o.changed && r.key == KeyOf(org, input)) <==>
           KeyOf(org, input) !in db.links ||
           (!IsReference(input) && ReallyChanged(db.links, EntityRow(org, input, now))))
  {
    var o := ProcessExternalLinks(db, org, inputs, now, false, schedule);
    ReturnedRow(db, org, inputs, now, false, schedule, input);
    DistinctBatchIsProcessed(db, org, inputs, now, false, schedule);
    forall r | r in o.changed
      ensures JustProcessed(r.value, now) && r.key in o.db.links && o.db.links[r.key] == r.value
    {
      ChangedRowsAreStored(db, org, inputs, now, schedule, r);
    }
  }

  // ----- the rows that come back

  predicate AllRecorded(t: map<LinkKey, Link>, org: string, inputs: seq<LinkInput>) {
    forall i :: 0 <= i < |inputs| ==> KeyOf(org, inputs[i]) in t
  }

  function StoredRows(t: map<LinkKey, Link>, org: string, inputs: seq<LinkInput>): (rows: seq<LinkRow>)
    requires AllRecorded(t, org, inputs)
  {
    seq(|inputs|, i requires 0 <= i < |inputs| => Row(KeyOf(org, inputs[i]), t[KeyOf(org, inputs[i])]))
  }

  lemma ReturnedIsStored(
    held: map<LinkKey, Link>, last: map<LinkKey, Link>, rows: seq<LinkRow>, org: string, inputs: seq<LinkInput>)
    requires |rows| == |inputs| && forall i :: 0 <= i < |rows| ==> rows[i].key == KeyOf(org, inputs[i])
    requires forall i :: 0 <= i < |rows| ==>
      rows[i].key in held && rows[i].key in last && held[rows[i].key] == last[rows[i].key]
    ensures AllRecorded(last, org, inputs)
    ensures Returned(held, rows) == StoredRows(last, org, inputs)
  {
  }

  /** The parts of what an accepted call returns, as the two statements gave them. */
  lemma PartsReturned(db: Database, org: string, inputs: seq<LinkInput>, now: int, force: bool, schedule: Schedule)
    requires DistinctKeys(EntityRows(org, inputs, now)) && DistinctKeys(ReferenceRows(org, inputs, now))
    ensures var es, rs := EntityRows(org, inputs, now), ReferenceRows(org, inputs, now);
      var o := ProcessExternalLinks(db, org, inputs, now, force, schedule);
      var entitiesDone, referencesDone :=
        AfterEntities(db.links, es, rs, schedule), AfterReferences(db.links, es, rs, schedule);
      && o.Processed? && o.db.links == (if schedule.entityFirst then referencesDone else entitiesDone)
      && (forall i :: 0 <= i < |es| ==> es[i].key in entitiesDone)
        && (forall i :: 0 <= i < |rs| ==> rs[i].key in referencesDone)
      && o.all == Returned(entitiesDone, es) + Returned(referencesDone, rs)
      && o.changed == Changed(Returned(entitiesDone, es), now, force)
        + Changed(Returned(referencesDone, rs), now, force)
  {
    var es, rs := EntityRows(org, inputs, now), ReferenceRows(org, inputs, now);
    AcceptedRowsArePresent(if schedule.entityFirst then db.links
      else AfterReferences(db.links, es, rs, schedule), es, TouchLink);
    AcceptedRowsArePresent(if schedule.entityFirst then AfterEntities(db.links, es, rs, schedule)
      else db.links, rs, KeepLink);
  }

  /** What a batch returns is what the table holds for its inputs at the end, those with entity data first. */
  lemma BatchReturnsStoredRows(
    db: Database, org: string, inputs: seq<LinkInput>, now: int, force: bool, schedule: Schedule)
    requires DistinctInputs(inputs)
    ensures var o := ProcessExternalLinks(db, org, inputs, now, force, schedule);
      && o.Processed?
      && AllRecorded(o.db.links, org, EntityInputs(inputs)) && AllRecorded(o.db.links, org, ReferenceInputs(inputs))
      && o.all == StoredRows(o.db.links, org, EntityInputs(inputs))
        + StoredRows(o.db.links, org, ReferenceInputs(inputs))
  {
    var es, rs := EntityRows(org, inputs, now), ReferenceRows(org, inputs, now);
    BatchesAreDistinct(org, inputs, now);
    PartsReturned(db, org, inputs, now, force, schedule);
    var entitiesDone, referencesDone :=
      AfterEntities(db.links, es, rs, schedule), AfterReferences(db.links, es, rs, schedule);
    var last := if schedule.entityFirst then referencesDone else entitiesDone;
    BothBatches(db.links, es, rs, schedule);
    ReturnedIsStored(entitiesDone, last, es, org, EntityInputs(inputs));
    ReturnedIsStored(referencesDone, last, rs, org, ReferenceInputs(inputs));
  }

  lemma StoredRowsBelong(t: map<LinkKey, Link>, org: string, inputs: seq<LinkInput>, all: seq<LinkInput>, r: LinkRow)
    requires AllRecorded(t, org, inputs) && r in StoredRows(t, org, inputs)
      && forall input :: input in inputs ==> input in all
    ensures IsKeyOf(org, all, r.key) && r.key in t && t[r.key] == r.value
  {
    var i :| 0 <= i < |inputs| && StoredRows(t, org, inputs)[i] == r;
    assert inputs[i] in inputs;
  }

  /** Every returned row is the row of an input, as the table holds it at the end. */
  lemma ReturnedRowsAreStored(
    db: Database, org: string, inputs: seq<LinkInput>, now: int, force: bool, schedule: Schedule, r: LinkRow)
    requires DistinctInputs(inputs)
    requires ProcessExternalLinks(db, org, inputs, now, force, schedule).Processed?
    requires r in ProcessExternalLinks(db, org, inputs, now, force, schedule).all
    ensures IsKeyOf(org, inputs, r.key)
    ensures var o := ProcessExternalLinks(db, org, inputs, now, force, schedule);
      r.key in o.db.links && o.db.links[r.key] == r.value
  {
    BatchReturnsStoredRows(db, org, inputs, now, force, schedule);
    var t := ProcessExternalLinks(db, org, inputs, now, force, schedule).db.links;
    if r in StoredRows(t, org, EntityInputs(inputs)) {
      StoredRowsBelong(t, org, EntityInputs(inputs), inputs, r);
    } else {
      StoredRowsBelong(t, org, ReferenceInputs(inputs), inputs, r);
    }
  }

  /** The changed rows are the returned rows of about this batch's time. */
  lemma ChangedRowsAreReturned(db: Database, org: string, inputs: seq<LinkInput>, now: int, schedule: Schedule)
    requires ProcessExternalLinks(db, org, inputs, now, false, schedule).Processed?
    ensures var o := ProcessExternalLinks(db, org, inputs, now, false, schedule);
      forall r :: r in o.changed <==> r in o.all && JustProcessed(r.value, now)
  {
    PartsReturned(db, org, inputs, now, false, schedule);
  }

  lemma ChangedRowsAreStored(
    db: Database, org: string, inputs: seq<LinkInput>, now: int, schedule: Schedule, r: LinkRow)
    requires DistinctInputs(inputs)
    requires ProcessExternalLinks(db, org, inputs, now, false, schedule).Processed?
    requires r in ProcessExternalLinks(db, org, inputs, now, false, schedule).changed
    ensures JustProcessed(r.value, now)
    ensures var o := ProcessExternalLinks(db, org, inputs, now, false, schedule);
      r.key in o.db.links && o.db.links[r.key] == r.value
  {
    ChangedRowsAreReturned(db, org, inputs, now, schedule);
    ReturnedRowsAreStored(db, org, inputs, now, false, schedule, r);
  }

  /** Without a row of about this batch's time, nothing counts as changed. */
  lemma NoneJustProcessed(db: Database, org: string, inputs: seq<LinkInput>, now: int, schedule: Schedule)
    requires ProcessExternalLinks(db, org, inputs, now, false, schedule).Processed?
    requires forall r :: r in ProcessExternalLinks(db, org, inputs, now, false, schedule).all ==>
      !JustProcessed(r.value, now)
    ensures ProcessExternalLinks(db, org, inputs, now, false, schedule).changed == []
  {
    var es, rs := EntityRows(org, inputs, now), ReferenceRows(org, inputs, now);
    PartsReturned(db, org, inputs, now, false, schedule);
    FilterNone((r: LinkRow) => JustProcessed(r.value, now), Returned(AfterEntities(db.links, es, rs, schedule), es));
    FilterNone((r: LinkRow) => JustProcessed(r.value, now), Returned(AfterReferences(db.links, es, rs, schedule), rs));
  }

  ghost predicate IsKeyOf(org: string, inputs: seq<LinkInput>, k: LinkKey) {
    exists input :: input in inputs && k == KeyOf(org, input)
  }

  lemma KeysOfRows(org: string, inputs: seq<LinkInput>, now: int, k: LinkKey)
    ensures IsKeyOf(org, inputs, k) <==>
      HasKey(EntityRows(org, inputs, now), k) || HasKey(ReferenceRows(org, inputs, now), k)
  {
  }

  lemma RowsComeFromInputs(org: string, inputs: seq<LinkInput>, now: int)
    ensures forall i :: 0 <= i < |EntityRows(org, inputs, now)| ==>
      exists input :: input in inputs && EntityRows(org, inputs, now)[i].key == KeyOf(org, input)
    ensures forall i :: 0 <= i < |ReferenceRows(org, inputs, now)| ==>
      exists input :: input in inputs && ReferenceRows(org, inputs, now)[i].key == KeyOf(org, input)
  {
    var es, rs := EntityRows(org, inputs, now), ReferenceRows(org, inputs, now);
    forall i | 0 <= i < |es|
      ensures exists input :: input in inputs && es[i].key == KeyOf(org, input)
    {
      assert EntityInputs(inputs)[i] in inputs;
    }
    forall i | 0 <= i < |rs|
      ensures exists input :: input in inputs && rs[i].key == KeyOf(org, input)
    {
      assert ReferenceInputs(inputs)[i] in inputs;
    }
  }

  lemma PartsAreDistinct(inputs: seq<LinkInput>)
    requires DistinctInputs(inputs)
    ensures DistinctInputs(EntityInputs(inputs)) && DistinctInputs(ReferenceInputs(inputs))
  {
    FilteredInputsStayDistinct(inputs, (i: LinkInput) => !IsReference(i));
    FilteredInputsStayDistinct(inputs, (i: LinkInput) => IsReference(i));
  }

  lemma PartsAreDisjoint(inputs: seq<LinkInput>, e: LinkInput, r: LinkInput, org: string)
    requires DistinctInputs(inputs) && e in EntityInputs(inputs) && r in ReferenceInputs(inputs)
    ensures KeyOf(org, e) != KeyOf(org, r)
  {
    assert e in inputs && r in inputs && e != r;
  }

  lemma BatchesAreDistinct(org: string, inputs: seq<LinkInput>, now: int)
    requires DistinctInputs(inputs)
    ensures DistinctKeys(EntityRows(org, inputs, now)) && DistinctKeys(ReferenceRows(org, inputs, now))
    ensures DisjointKeys(EntityRows(org, inputs, now), ReferenceRows(org, inputs, now))
    ensures DisjointKeys(ReferenceRows(org, inputs, now), EntityRows(org, inputs, now))
  {
    var es, rs := EntityInputs(inputs), ReferenceInputs(inputs);
    PartsAreDistinct(inputs);
    DistinctInputsGiveDistinctRows(org, es, EntityRows(org, inputs, now));
    DistinctInputsGiveDistinctRows(org, rs, ReferenceRows(org, inputs, now));
    forall i, j | 0 <= i < |es| && 0 <= j < |rs|
      ensures EntityRows(org, inputs, now)[i].key != ReferenceRows(org, inputs, now)[j].key
    {
      PartsAreDisjoint(inputs, es[i], rs[j], org);
    }
  }

  lemma DistinctInputsGiveDistinctRows(org: string, inputs: seq<LinkInput>, rows: seq<LinkRow>)
    requires DistinctInputs(inputs) && |rows| == |inputs|
      && forall i :: 0 <= i < |rows| ==> rows[i].key == KeyOf(org, inputs[i])
    ensures DistinctKeys(rows)
  {
  }

  /** The input's row stands in the batch of its kind, and in no other. */
  lemma InputHasItsRow(org: string, inputs: seq<LinkInput>, input: LinkInput, now: int)
    requires input in inputs
    ensures IsReference(input) ==>
      exists i :: 0 <= i < |ReferenceRows(org, inputs, now)|
        && ReferenceRows(org, inputs, now)[i] == ReferenceRow(org, input, now)
    ensures !IsReference(input) ==>
      exists i :: 0 <= i < |EntityRows(org, inputs, now)|
        && EntityRows(org, inputs, now)[i] == EntityRow(org, input, now)
  {
    if IsReference(input) {
      assert input in ReferenceInputs(inputs);
      var i :| 0 <= i < |ReferenceInputs(inputs)| && ReferenceInputs(inputs)[i] == input;
      assert ReferenceRows(org, inputs, now)[i] == ReferenceRow(org, input, now);
    } else {
      assert input in EntityInputs(inputs);
      var i :| 0 <= i < |EntityInputs(inputs)| && EntityInputs(inputs)[i] == input;
      assert EntityRows(org, inputs, now)[i] == EntityRow(org, input, now);
    }
  }
}
