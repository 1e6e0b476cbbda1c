/**
 One pushed mutation at a time, on the real tables: it looks the link of the entity up and creates,
 updates or deletes the remote entity, and what then happens to the tables here. A create or an
 update takes steps of the protocol of `PushEntity`.
 */
module PushMutation {
  import opened InternalManager
  import opened PushEntity
  import opened Wrappers
  import LinkTable
  import Merge
  import Tables

  function Key(org: string, e: External): (k: Tables.LinkKey) {
    Tables.LinkKey(org, "pco", e)
  }

  /** The link rows of the org for PCO, as the protocol sees them. */
  function LinksOf(t: map<Tables.LinkKey, Tables.Link>, org: string): (links: map<External, Internal>)
    ensures forall e :: e in links <==> Key(org, e) in t
    ensures forall e :: e in links ==> links[e] == t[Key(org, e)].entityId
  {
    var ids := set k | k in t && k == Key(org, k.externalId) :: k.externalId;
    assert forall e :: Key(org, e) in t ==> Key(org, e).externalId in ids;
    map e | e in ids :: t[Key(org, e)].entityId
  }

  function BuriedOf(t: map<Tables.LinkKey, Tables.Link>, org: string): (buried: set<External>)
    ensures forall e :: e in buried <==> Key(org, e) in t && t[Key(org, e)].deletedAt.Some?
  {
    set e | e in LinksOf(t, org) && t[Key(org, e)].deletedAt.Some?
  }

  // ----- what a link write does to that view

  /** The row of k is new and names id, or keeps its entity and tombstone; no other row changes. */
  ghost predicate OneRowWritten(
    t: map<Tables.LinkKey, Tables.Link>, t': map<Tables.LinkKey, Tables.Link>, k: Tables.LinkKey, id: Internal)
  {
    && t'.Keys == t.Keys + {k}
    && (forall x :: x in t && x != k ==> t'[x] == t[x])
    && t'[k].entityId == (if k in t then t[k].entityId else id)
    && t'[k].deletedAt == (if k in t then t[k].deletedAt else None)
  }

  lemma KeysOfOne(org: string, inputs: seq<LinkTable.LinkInput>, k: Tables.LinkKey)
    requires |inputs| == 1
    ensures LinkTable.IsKeyOf(org, inputs, k) <==> k == LinkTable.KeyOf(org, inputs[0])
  {
    assert inputs[0] in inputs;
  }

  lemma OneLinkProcessed(
    db: Tables.Database, org: string, inputs: seq<LinkTable.LinkInput>, now: int, force: bool,
    schedule: LinkTable.Schedule, o: LinkTable.LinkOutcome)
    requires |inputs| == 1 && o == LinkTable.ProcessExternalLinks(db, org, inputs, now, force, schedule)
    ensures o.Processed? && LinkTable.KeyOf(org, inputs[0]) in o.db.links
    ensures o.db.links[LinkTable.KeyOf(org, inputs[0])] == LinkTable.LinkAfter(db.links, org, inputs[0], now)
    ensures forall x :: x != LinkTable.KeyOf(org, inputs[0]) ==>
      (x in o.db.links <==> x in db.links) && (x in db.links ==> o.db.links[x] == db.links[x])
  {
    LinkTable.DistinctBatchIsProcessed(db, org, inputs, now, force, schedule);
    assert inputs[0] in inputs;
    forall x | x != LinkTable.KeyOf(org, inputs[0])
      ensures !LinkTable.IsKeyOf(org, inputs, x)
    {
      KeysOfOne(org, inputs, x);
    }
  }

  lemma LinkWritten(
    db: Tables.Database, org: string, input: LinkTable.LinkInput, now: int, force: bool, schedule: LinkTable.Schedule,
    id: Internal)
    requires input.adapter == "pco" && input.entityId == Some(id) && id != ""
    ensures var o := LinkTable.ProcessExternalLinks(db, org, [input], now, force, schedule);
      o.Processed? && OneRowWritten(db.links, o.db.links, Key(org, input.externalId), id)
  {
    var o := LinkTable.ProcessExternalLinks(db, org, [input], now, force, schedule);
    OneLinkProcessed(db, org, [input], now, force, schedule, o);
    RecordWritesLink(db.links, org, input, now, id);
  }

  /** So writing the link of one entity adds a row for it, or leaves the view as it is. */
  lemma LinksAfterWrite(
    t: map<Tables.LinkKey, Tables.Link>, t': map<Tables.LinkKey, Tables.Link>, org: string, e: External, id: Internal)
    requires OneRowWritten(t, t', Key(org, e), id)
    ensures LinksOf(t', org) == (if e in LinksOf(t, org) then LinksOf(t, org) else LinksOf(t, org)[e := id])
  {
    var before, after := LinksOf(t, org), LinksOf(t', org);
    forall x
      ensures x in after <==> x in before || x == e
      ensures x in after ==> after[x] == if x in before then before[x] else id
    {
      assert Key(org, x) == Key(org, e) <==> x == e;
    }
  }

  lemma BuriedAfterWrite(
    t: map<Tables.LinkKey, Tables.Link>, t': map<Tables.LinkKey, Tables.Link>, org: string, e: External, id: Internal)
    requires OneRowWritten(t, t', Key(org, e), id)
    ensures BuriedOf(t', org) == BuriedOf(t, org)
  {
    forall x
      ensures x in BuriedOf(t', org) <==> x in BuriedOf(t, org)
    {
      assert Key(org, x) == Key(org, e) <==> x == e;
    }
  }

  // ----- what a pushed delete does

  /**
   The local deletion is given the internal id where an external id is looked up: it goes for the
   entity of a live link with that very external id, if there is one and its type has a table.
   */
  predicate FoundFor(tableOf: map<string, string>, db: Tables.Database, org: string, id: Internal, owner: Internal) {
    var l := Merge.LiveLink(db, org, "pco", id);
    l.Some? && l.value.entityId == owner && l.value.entityType in tableOf
  }

  /**
   So a live link goes if and only if the entity it names is the one found under the internal id as
   an external one: the deleted entity keeps its links unless some link's external id is its own
   internal id, and otherwise it is another entity that loses them.
   */
  lemma PushedDeleteBuriesIff(
    tableOf: map<string, string>, db: Tables.Database, org: string, id: Internal, at: int, e: External)
    requires Merge.LiveLink(db, org, "pco", e).Some?
    ensures var after := Merge.DeleteEntity(tableOf, db, org, "pco", id, at);
      && Key(org, e) in after.links && after.links[Key(org, e)].entityId == db.links[Key(org, e)].entityId
      && (after.links[Key(org, e)].deletedAt.Some? <==> FoundFor(tableOf, db, org, id, db.links[Key(org, e)].entityId))
  {
    var l := Merge.LiveLink(db, org, "pco", id);
    if l.Some? && l.value.entityType in tableOf {
      Merge.DeletionBuries(tableOf, db, org, "pco", l.value.entityId, l.value.entityType, at);
    }
  }

  // ----- one mutation

  datatype Kind = Insert | Change | Upsert | Delete

  /** How the calls of one mutation end: the remote call may fail, or what follows it here. */
  datatype Weather = Fair | RemoteFails | LocalFails

  /** Where an operation stands when it ends; a create whose link fails leaves it in the window. */
  predicate EndsIn(p: Phase, linked: bool, made: External, weather: Weather) {
    match weather
    case Fair => p.Settled?
    case RemoteFails => if linked then p.WillUpdate? else p.WillCreate?
    case LocalFails => if linked then p.Settled? else p == Created(made)
  }

  /** The one operation of s took steps of the protocol to t, up to where the calls let it. */
  ghost predicate Performed(s: State, t: State, made: External, weather: Weather)
    requires |s.phases| == |s.ids| == 1
  {
    exists steps, p :: Run(s, steps) == t.(phases := [p]) && EndsIn(p, Linked(s, s.ids[0]), made, weather)
  }

  predicate Alone(s: State) {
    |s.ids| == 1 && s.phases == [Idle]
  }

  lemma Took(s: State, t: State, made: External, weather: Weather, steps: seq<Action>, p: Phase)
    requires |s.phases| == |s.ids| == 1
    requires Run(s, steps) == t.(phases := [p]) && EndsIn(p, Linked(s, s.ids[0]), made, weather)
    ensures Performed(s, t, made, weather)
  {
  }

  /** What a create leaves of the protocol's state, as far as its calls succeed. */
  function AfterCreate(s: State, made: External, weather: Weather): (t: State)
    requires |s.ids| == 1
  {
    if weather.RemoteFails? then s
    else
      var t := s.(remote := s.remote + {made}, created := s.created + [Creation(made, s.ids[0])]);
      if weather.LocalFails? then t else t.(links := s.links[made := s.ids[0]])
  }

  lemma CreatePerforms(s: State, made: External, weather: Weather)
    requires Alone(s) && !Linked(s, s.ids[0]) && made !in s.remote && made !in s.links
    ensures Performed(s, AfterCreate(s, made, weather), made, weather)
  {
    var t := AfterCreate(s, made, weather);
    match weather
    case RemoteFails =>
      OneStep(s, Miss(0));
      Took(s, t, made, weather, [Miss(0)], WillCreate);
    case LocalFails =>
      TwoSteps(s, Miss(0), Create(0, made));
      Took(s, t, made, weather, [Miss(0), Create(0, made)], Created(made));
    case Fair =>
      ThreeSteps(s, Miss(0), Create(0, made), Record(0));
      Took(s, t, made, weather, [Miss(0), Create(0, made), Record(0)], Settled);
  }

  /** And an update, whose link is there already. */
  function AfterUpdate(s: State, e: External, weather: Weather): (t: State)
    requires |s.ids| == 1
  {
    if weather.RemoteFails? then s else s.(updated := s.updated + [Creation(e, s.ids[0])])
  }

  lemma UpdatePerforms(s: State, e: External, weather: Weather)
    requires Alone(s) && LinkedBy(s, e, s.ids[0])
    ensures Performed(s, AfterUpdate(s, e, weather), e, weather)
  {
    var t := AfterUpdate(s, e, weather);
    assert e in s.links && Linked(s, s.ids[0]);
    if weather.RemoteFails? {
      OneStep(s, Find(0, e));
      Took(s, t, e, weather, [Find(0, e)], WillUpdate(e));
    } else {
      TwoSteps(s, Find(0, e), Update(0));
      Took(s, t, e, weather, [Find(0, e), Update(0)], Settled);
    }
  }

  lemma OneStep(s: State, a: Action)
    requires |s.phases| == |s.ids|
    ensures Run(s, [a]) == Step(s, a)
  {
    assert [a][1..] == [];
  }

  /** When and in which order the tables are written. */
  datatype Clock = Clock(now: int, schedule: LinkTable.Schedule)

  /** The answer is about an entity of PCO, and was given the internal id to link it to. */
  predicate AnswersFor(answer: LinkTable.LinkInput, id: Internal) {
    answer.adapter == "pco" && answer.entityId == Some(id) && id != ""
  }

  class Pusher {
    const manager: Manager
    var remote: set<External>     // every id the external system has given out
    var gone: set<External>       // the entities it was told to delete
    var created: seq<Creation>
    var updated: seq<Creation>

    constructor (manager: Manager, remote: set<External>)
      ensures this.manager == manager && this.remote == remote && gone == {} && created == updated == []
    {
      this.manager, this.remote, gone, created, updated := manager, remote, {}, [], [];
    }

    /** The protocol state of a batch that holds this one operation. */
    function View(id: Internal): (s: State)
      reads this, manager
    {
      State(
        [id], [Idle], LinksOf(manager.links, manager.org), BuriedOf(manager.links, manager.org),
        remote, created, updated, true)
    }

    /** The answer of the external system goes through the link table like any page. */
    method WriteLink(id: Internal, answer: LinkTable.LinkInput, clock: Clock, force: bool)
      requires AnswersFor(answer, id)
      modifies manager
      ensures var e, before := answer.externalId, old(View(id));
        View(id) == before.(links := if e in before.links then before.links else before.links[e := id])
      ensures manager.Db() == old(manager.Db()).(links := manager.links)
    {
      LinkWritten(manager.Db(), manager.org, answer, clock.now, force, clock.schedule, id);
      ghost var before := manager.links;
      var _ := manager.ProcessExternalLinks([answer], clock.now, force, clock.schedule);
      LinksAfterWrite(before, manager.links, manager.org, answer.externalId, id);
      BuriedAfterWrite(before, manager.links, manager.org, answer.externalId, id);
    }

    /** createEntity: make the remote entity, then write its link. `answer` is what the external system returns. */
    method CreateEntity(id: Internal, answer: LinkTable.LinkInput, clock: Clock, weather: Weather)
      returns (r: Result<(), ()>)
      requires AnswersFor(answer, id) && answer.externalId !in remote
      requires View(id).links.Keys <= remote && !Linked(View(id), id)
      modifies this, manager
      ensures r.Ok? <==> weather.Fair?
      ensures View(id) == AfterCreate(old(View(id)), answer.externalId, weather)
      ensures Performed(old(View(id)), View(id), answer.externalId, weather)
      ensures weather.Fair? ==> LinkedBy(View(id), answer.externalId, id)
      ensures !weather.Fair? ==> manager.Db() == old(manager.Db())
      ensures gone == old(gone)
    {
      CreatePerforms(View(id), answer.externalId, weather);
      if weather.RemoteFails? {
        return Err(());
      }
      remote := remote + {answer.externalId};
      created := created + [Creation(answer.externalId, id)];
      if weather.LocalFails? {
        return Err(());
      }
      WriteLink(id, answer, clock, true);
      r := Ok(());
    }

    /** updateEntity: change the linked remote entity, then write its link, which is there already. */
    method UpdateEntity(id: Internal, e: External, answer: LinkTable.LinkInput, clock: Clock, weather: Weather)
      returns (r: Result<(), ()>)
      requires AnswersFor(answer, id) && answer.externalId == e && LinkedBy(View(id), e, id)
      modifies `updated, manager
      ensures r.Ok? <==> weather.Fair?
      ensures View(id) == AfterUpdate(old(View(id)), e, weather)
      ensures Performed(old(View(id)), View(id), e, weather)
    {
      UpdatePerforms(View(id), e, weather);
      if weather.RemoteFails? {
        return Err(());
      }
      updated := updated + [Creation(e, id)];
      if weather.LocalFails? {
        return Err(());
      }
      WriteLink(id, answer, clock, false);
      r := Ok(());
    }

    /** deleteEntity: the remote entity goes first, then what the local deletion finds. */
    method DeleteEntity(id: Internal, e: External, at: int, weather: Weather) returns (r: Result<(), ()>)
      modifies `gone, manager
      ensures r.Ok? <==> weather.Fair?
      ensures gone == if weather.RemoteFails? then old(gone) else old(gone) + {e}
      ensures !weather.Fair? ==> manager.Db() == old(manager.Db())
      ensures weather.Fair? ==>
        manager.Db() == Merge.DeleteEntity(manager.tableOf, old(manager.Db()), manager.org, "pco", id, at)
      ensures weather.Fair? ==> forall x :: Merge.LiveLink(old(manager.Db()), manager.org, "pco", x).Some? ==>
        && Key(manager.org, x) in manager.links
        && manager.links[Key(manager.org, x)].entityId == old(manager.links)[Key(manager.org, x)].entityId
        && (manager.links[Key(manager.org, x)].deletedAt.Some? <==>
             FoundFor(manager.tableOf, old(manager.Db()), manager.org, id,
               old(manager.links)[Key(manager.org, x)].entityId))
    {
      ghost var before := manager.Db();
      if weather.RemoteFails? {
        return Err(());
      }
      gone := gone + {e};
      if weather.LocalFails? {
        return Err(());
      }
      manager.DeleteEntity(id, "pco", at);
      forall x | Merge.LiveLink(before, manager.org, "pco", x).Some? {
        PushedDeleteBuriesIff(manager.tableOf, before, manager.org, id, at, x);
      }
      r := Ok(());
    }

    /** An insert, update or upsert, by the link it finds. */
    method PushChange(id: Internal, made: LinkTable.LinkInput, clock: Clock, weather: Weather)
      returns (r: Result<(), ()>)
      requires AnswersFor(made, id) && made.externalId !in remote && View(id).links.Keys <= remote
      modifies this, manager
      ensures r.Ok? <==> weather.Fair?
      ensures exists e :: Performed(old(View(id)), View(id), e, weather)
      ensures created != old(created) <==> !Linked(old(View(id)), id) && !weather.RemoteFails?
      ensures gone == old(gone)
    {
      var link := manager.GetExternalLink(id, "pco");
      if link.None? {
        assert !Linked(View(id), id);
        r := CreateEntity(id, made, clock, weather);
      } else {
        var e := link.value.key.externalId;
        assert link.value.key == Key(manager.org, e) && LinkedBy(View(id), e, id);
        r := UpdateEntity(id, e, made.(externalId := e), clock, weather);
      }
    }

    /** A delete, by the link it finds; what has none is skipped. */
    method PushDelete(id: Internal, at: int, weather: Weather) returns (r: Result<(), ()>)
      modifies `gone, manager
      ensures r.Ok? <==> weather.Fair? || !Linked(old(View(id)), id)
      ensures !Linked(old(View(id)), id) ==> gone == old(gone)
      ensures Linked(old(View(id)), id) ==>
        exists e :: LinkedBy(old(View(id)), e, id)
          && gone == if weather.RemoteFails? then old(gone) else old(gone) + {e}
      ensures !Linked(old(View(id)), id) || !weather.Fair? ==> manager.Db() == old(manager.Db())
      ensures Linked(old(View(id)), id) && weather.Fair? ==>
        forall e :: LinkedBy(old(View(id)), e, id) ==>
          (LinkedBy(View(id), e, id) <==> !FoundFor(manager.tableOf, old(manager.Db()), manager.org, id, id))
    {
      var link := manager.GetExternalLink(id, "pco");
      if link.None? {
        assert !Linked(View(id), id);
        r := Ok(());
      } else {
        var e := link.value.key.externalId;
        assert link.value.key == Key(manager.org, e) && LinkedBy(View(id), e, id);
        r := DeleteEntity(id, e, at, weather);
      }
    }

    /**
     processMutation, run alone. A pushed delete keeps the links of its entity unless it is found by
     its internal id.
     */
    method ProcessMutation(kind: Kind, id: Internal, made: LinkTable.LinkInput, clock: Clock, weather: Weather)
      returns (r: Result<(), ()>)
      requires AnswersFor(made, id) && made.externalId !in remote && View(id).links.Keys <= remote
      modifies this, manager
      ensures r.Ok? <==> weather.Fair? || (kind.Delete? && !Linked(old(View(id)), id))
      ensures !kind.Delete? ==> exists e :: Performed(old(View(id)), View(id), e, weather)
      ensures created != old(created) <==> !kind.Delete? && !Linked(old(View(id)), id) && !weather.RemoteFails?
      ensures gone != old(gone) ==> kind.Delete? && Linked(old(View(id)), id) && !weather.RemoteFails?
      ensures kind.Delete? ==> updated == old(updated) && remote == old(remote)
      ensures kind.Delete? && Linked(old(View(id)), id) && weather.Fair? ==>
        forall e :: LinkedBy(old(View(id)), e, id) ==>
          (LinkedBy(View(id), e, id) <==> !FoundFor(manager.tableOf, old(manager.Db()), manager.org, id, id))
    {
      if kind.Delete? {
        r := PushDelete(id, clock.now, weather);
      } else {
        r := PushChange(id, made, clock, weather);
      }
    }
  }
}
