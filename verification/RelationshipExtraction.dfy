/**
 From the entities of a response to edges: a first pass over the annotated relationships lists
 the referenced entities that have no link yet, the links are created, and a second pass emits
 one oriented edge per reference.
 */
module RelationshipExtraction {
  import opened EdgeDirection
  import opened Registry
  import opened Seqs
  import opened Wrappers
  import opened InternalManager
  import opened LinkTable
  import Tables

  /** A relation of a schema and the entity type it leads to. */
  datatype Annotation = Annotation(relKey: string, target: string)

  /** What the adapter's manifest knows of a type. */
  datatype Schema = Schema(name: Option<string>, annotations: seq<Annotation>)

  /**
   An entity of a response, with its internal id when the caller knows it; the data of a relation is
   the id it refers to, or nothing.
   */
  datatype Entity = Entity(
    id: string, typ: string, entityId: Option<string>, createdAt: Option<int>, updatedAt: Option<int>,
    relationships: Option<map<string, Option<string>>>)

  datatype LinkInfo = LinkInfo(externalId: string, entityId: string, lastProcessedAt: int)

  type LinkMap = map<string, LinkInfo>

  /** A reference to an entity of the given type. */
  datatype Reference = Reference(id: string, target: string)

  function Data(e: Entity, relKey: string): (id: Option<string>) {
    if e.relationships.Some? && relKey in e.relationships.value then e.relationships.value[relKey] else None
  }

  // ----- the links that are missing

  /** The references one entity makes, in the order of its schema's annotations. */
  function ReferencesOf(e: Entity, annotations: seq<Annotation>): (rs: seq<Reference>) {
    if annotations == [] then []
    else
      var a := annotations[0];
      var d := Data(e, a.relKey);
      (if d.Some? && d.value != "" then [Reference(d.value, a.target)] else []) + ReferencesOf(e, annotations[1..])
  }

  function AnnotationsOf(discovered: map<string, seq<Annotation>>, typ: string): (annotations: seq<Annotation>) {
    if typ in discovered then discovered[typ] else []
  }

  function AllReferences(es: seq<Entity>, discovered: map<string, seq<Annotation>>): (rs: seq<Reference>) {
    if es == [] then []
    else ReferencesOf(es[0], AnnotationsOf(discovered, es[0].typ)) + AllReferences(es[1..], discovered)
  }

  function Ids(rs: seq<Reference>): (ids: set<string>) {
    set r | r in rs :: r.id
  }

  /** The worklist after some references: those to ids that are neither linked nor listed yet. */
  function Listed(listed: seq<Reference>, rs: seq<Reference>, linked: set<string>): (out: seq<Reference>)
    decreases rs
  {
    if rs == [] then listed
    else
      var r := rs[0];
      Listed(if r.id in linked || r.id in Ids(listed) then listed else listed + [r], rs[1..], linked)
  }

  lemma {:induction false} ListedAppend(
    listed: seq<Reference>, rs: seq<Reference>, ss: seq<Reference>, linked: set<string>)
    ensures Listed(listed, rs + ss, linked) == Listed(Listed(listed, rs, linked), ss, linked)
    decreases rs
  {
    if rs == [] {
      assert rs + ss == ss;
    } else {
      assert (rs + ss)[1..] == rs[1..] + ss;
      var r := rs[0];
      ListedAppend(if r.id in linked || r.id in Ids(listed) then listed else listed + [r], rs[1..], ss, linked);
    }
  }

  predicate DistinctIds(rs: seq<Reference>) {
    forall i, j :: 0 <= i < j < |rs| ==> rs[i].id != rs[j].id
  }

  /** The worklist is the duplicate-free set of the referenced ids without a link. */
  lemma {:induction false} ListedIsExact(listed: seq<Reference>, rs: seq<Reference>, linked: set<string>)
    requires DistinctIds(listed)
    ensures DistinctIds(Listed(listed, rs, linked))
    ensures Ids(Listed(listed, rs, linked)) == Ids(listed) + (Ids(rs) - linked)
    ensures forall r :: r in Listed(listed, rs, linked) ==> r in listed || r in rs
    decreases rs
  {
    if rs != [] {
      var r := rs[0];
      var next := if r.id in linked || r.id in Ids(listed) then listed else listed + [r];
      assert Ids(rs) == {r.id} + Ids(rs[1..]);
      if next != listed {
        forall i | 0 <= i < |listed|
          ensures listed[i].id != r.id
        {
          assert listed[i] in listed;
        }
        assert Ids(next) == Ids(listed) + {r.id};
      }
      ListedIsExact(next, rs[1..], linked);
    }
  }

  /** The source walks the entities type by type. */
  function ByType(es: seq<Entity>): (out: seq<Entity>) {
    Ungroup(GroupBy(es, (e: Entity) => e.typ))
  }

  /** The pass over one entity. */
  method ScanEntity(
    e: Entity, annotations: seq<Annotation>, linked: set<string>, missing: seq<Reference>, seen: set<string>)
    returns (missing': seq<Reference>, seen': set<string>)
    requires seen == Ids(missing)
    ensures missing' == Listed(missing, ReferencesOf(e, annotations), linked)
    ensures seen' == Ids(missing')
  {
    missing', seen' := missing, seen;
    if e.relationships.None? {
      NoReferences(e, annotations);
      return;
    }
    for i := 0 to |annotations|
      invariant seen' == Ids(missing')
      invariant Listed(missing', ReferencesOf(e, annotations[i..]), linked)
        == Listed(missing, ReferencesOf(e, annotations), linked)
    {
      var a := annotations[i];
      assert annotations[i..][1..] == annotations[i + 1..];
      var data := Data(e, a.relKey);
      if data.Some? && data.value != "" {
        var r := Reference(data.value, a.target);
        assert ReferencesOf(e, annotations[i..]) == [r] + ReferencesOf(e, annotations[i + 1..]);
        assert ([r] + ReferencesOf(e, annotations[i + 1..]))[1..] == ReferencesOf(e, annotations[i + 1..]);
        if r.id !in linked && r.id !in seen' {
          assert Ids(missing' + [r]) == Ids(missing') + {r.id};
          seen' := seen' + {r.id};
          missing' := missing' + [r];
        }
      } else {
        assert ReferencesOf(e, annotations[i..]) == ReferencesOf(e, annotations[i + 1..]);
      }
    }
    assert annotations[|annotations|..] == [];
  }

  lemma {:induction false} NoReferences(e: Entity, annotations: seq<Annotation>)
    requires e.relationships.None?
    ensures ReferencesOf(e, annotations) == []
  {
    if annotations != [] {
      NoReferences(e, annotations[1..]);
    }
  }

  /** The worklist of a whole response. */
  function Missing(
    es: seq<Entity>, discovered: map<string, seq<Annotation>>, known: LinkMap): (missing: seq<Reference>)
  {
    Listed([], AllReferences(ByType(es), discovered), known.Keys)
  }

  /** The first pass: the links to create. */
  method FindMissing(es: seq<Entity>, discovered: map<string, seq<Annotation>>, linked: set<string>)
    returns (missing: seq<Reference>)
    ensures missing == Listed([], AllReferences(ByType(es), discovered), linked)
  {
    var ordered := ByType(es);
    var seen: set<string> := {};
    missing := [];
    for i := 0 to |ordered|
      invariant seen == Ids(missing)
      invariant Listed(missing, AllReferences(ordered[i..], discovered), linked)
        == Listed([], AllReferences(ordered, discovered), linked)
    {
      var annotations := AnnotationsOf(discovered, ordered[i].typ);
      assert ordered[i..][1..] == ordered[i + 1..];
      ListedAppend(missing, ReferencesOf(ordered[i], annotations), AllReferences(ordered[i + 1..], discovered), linked);
      missing, seen := ScanEntity(ordered[i], annotations, linked, missing, seen);
    }
  }

  /** Some entity refers to the id through an annotated relation. */
  ghost predicate Referenced(es: seq<Entity>, discovered: map<string, seq<Annotation>>, id: string) {
    id != "" && exists e, a ::
      && e in es && e.typ in discovered && a in discovered[e.typ]
      && e.relationships.Some? && a.relKey in e.relationships.value && e.relationships.value[a.relKey] == Some(id)
  }

  lemma {:induction false} ReferencesOfMembers(e: Entity, annotations: seq<Annotation>, id: string)
    ensures id in Ids(ReferencesOf(e, annotations)) <==>
      id != "" && exists a :: a in annotations && Data(e, a.relKey) == Some(id)
  {
    if annotations != [] {
      var a := annotations[0];
      ReferencesOfMembers(e, annotations[1..], id);
      var d := Data(e, a.relKey);
      var first := if d.Some? && d.value != "" then [Reference(d.value, a.target)] else [];
      assert Ids(ReferencesOf(e, annotations)) == Ids(first) + Ids(ReferencesOf(e, annotations[1..]));
    }
  }

  lemma {:induction false} AllReferencesMembers(es: seq<Entity>, discovered: map<string, seq<Annotation>>, id: string)
    ensures id in Ids(AllReferences(es, discovered)) <==> Referenced(es, discovered, id)
  {
    if es != [] {
      var annotations := AnnotationsOf(discovered, es[0].typ);
      AllReferencesMembers(es[1..], discovered, id);
      ReferencesOfMembers(es[0], annotations, id);
      assert Ids(AllReferences(es, discovered))
        == Ids(ReferencesOf(es[0], annotations)) + Ids(AllReferences(es[1..], discovered));
    }
  }

  lemma ByTypePermutes(es: seq<Entity>)
    ensures multiset(ByType(es)) == multiset(es)
    ensures forall e :: e in ByType(es) <==> e in es
  {
    GroupByConserves(es, (e: Entity) => e.typ);
    assert forall e :: e in ByType(es) <==> e in multiset(ByType(es));
  }

  /** Some entity refers to the id through a relation that is annotated with the type. */
  ghost predicate ReferencedAs(es: seq<Entity>, discovered: map<string, seq<Annotation>>, id: string, target: string) {
    exists e, a ::
      && e in es && e.typ in discovered && a in discovered[e.typ] && a.target == target
      && e.relationships.Some? && a.relKey in e.relationships.value && e.relationships.value[a.relKey] == Some(id)
  }

  lemma {:induction false} ReferencesHaveTypes(e: Entity, annotations: seq<Annotation>, r: Reference)
    requires r in ReferencesOf(e, annotations)
    ensures exists a :: a in annotations && a.target == r.target && Data(e, a.relKey) == Some(r.id)
  {
    if r in ReferencesOf(e, annotations[1..]) {
      ReferencesHaveTypes(e, annotations[1..], r);
    } else {
      assert annotations[0] in annotations;
    }
  }

  lemma {:induction false} AllReferencesHaveTypes(
    es: seq<Entity>, discovered: map<string, seq<Annotation>>, r: Reference)
    requires r in AllReferences(es, discovered)
    ensures ReferencedAs(es, discovered, r.id, r.target)
  {
    var annotations := AnnotationsOf(discovered, es[0].typ);
    if r in ReferencesOf(es[0], annotations) {
      ReferencesHaveTypes(es[0], annotations, r);
      assert es[0] in es;
    } else {
      AllReferencesHaveTypes(es[1..], discovered, r);
      assert forall e :: e in es[1..] ==> e in es;
    }
  }

  /**
   The missing links are exactly the referenced ids without a link, each once, and each under a type
   that some relation names for it.
   */
  lemma MissingIsExact(es: seq<Entity>, discovered: map<string, seq<Annotation>>, linked: set<string>)
    ensures var missing := Listed([], AllReferences(ByType(es), discovered), linked);
      && DistinctIds(missing)
      && (forall id :: id in Ids(missing) <==> Referenced(es, discovered, id) && id !in linked)
      && (forall r :: r in missing ==> ReferencedAs(es, discovered, r.id, r.target))
  {
    var rs := AllReferences(ByType(es), discovered);
    ListedIsExact([], rs, linked);
    ByTypePermutes(es);
    forall id
      ensures id in Ids(rs) <==> Referenced(es, discovered, id)
    {
      AllReferencesMembers(ByType(es), discovered, id);
    }
    forall r | r in rs
      ensures ReferencedAs(es, discovered, r.id, r.target)
    {
      AllReferencesHaveTypes(ByType(es), discovered, r);
    }
  }

  // ----- creating the missing links

  /** The link asked for a reference; without times, it only records that the entity exists. */
  function LinkInputs(missing: seq<Reference>, drawn: nat -> string): (inputs: seq<LinkInput>) {
    seq(|missing|, i requires 0 <= i < |missing| =>
      LinkInput("pco", missing[i].id, missing[i].target, None, None, None, drawn(i)))
  }

  function Info(r: LinkRow): (info: LinkInfo) {
    LinkInfo(r.key.externalId, r.value.entityId, r.value.lastProcessedAt)
  }

  function Resolve(known: LinkMap, created: seq<LinkRow>): (links: LinkMap) {
    if created == [] then known
    else Resolve(known, created[..|created| - 1])[created[|created| - 1].key.externalId := Info(created[|created| - 1])]
  }

  lemma {:induction false} ResolveKeys(known: LinkMap, created: seq<LinkRow>, id: string)
    ensures id in Resolve(known, created) <==> id in known || exists r :: r in created && r.key.externalId == id
    ensures id in Resolve(known, created) ==>
      (id in known && Resolve(known, created)[id] == known[id])
      || exists r :: r in created && r.key.externalId == id && Resolve(known, created)[id] == Info(r)
    ensures id in known && (forall r :: r in created ==> r.key.externalId != id) ==>
      Resolve(known, created)[id] == known[id]
  {
    if created != [] {
      ResolveKeys(known, created[..|created| - 1], id);
      assert created == created[..|created| - 1] + [created[|created| - 1]];
    }
  }

  /** The links the second pass knows: those of the sync and, once created, the missing ones. */
  function Completed(
    db: Tables.Database, org: string, missing: seq<Reference>, known: LinkMap, drawn: nat -> string, now: int,
    schedule: Schedule)
    : (links: LinkMap)
  {
    if missing == [] then known
    else
      var o := LinkTable.ProcessExternalLinks(db, org, LinkInputs(missing, drawn), now, false, schedule);
      if o.Processed? then Resolve(known, o.all) else known
  }

  lemma MissingLinksAreDistinctInputs(missing: seq<Reference>, drawn: nat -> string)
    requires DistinctIds(missing)
    ensures DistinctInputs(LinkInputs(missing, drawn))
  {
  }

  /** The rows that come back belong to the missing ids, every one of them, as they are stored. */
  ghost predicate RowsFor(rows: seq<LinkRow>, org: string, ids: set<string>, t: map<Tables.LinkKey, Tables.Link>) {
    && (forall r :: r in rows ==>
      r.key.externalId in ids && r.key == PcoKey(org, r.key.externalId) && r.key in t && t[r.key] == r.value)
    && (forall id :: id in ids ==> exists r :: r in rows && r.key.externalId == id)
  }

  function PcoKey(org: string, id: string): (k: Tables.LinkKey) {
    Tables.LinkKey(org, "pco", id)
  }

  lemma MissingLinksComeBack(
    db: Tables.Database, org: string, missing: seq<Reference>, drawn: nat -> string, now: int, schedule: Schedule)
    requires DistinctIds(missing)
    ensures var o := LinkTable.ProcessExternalLinks(db, org, LinkInputs(missing, drawn), now, false, schedule);
      o.Processed? && RowsFor(o.all, org, Ids(missing), o.db.links)
  {
    var inputs := LinkInputs(missing, drawn);
    var o := LinkTable.ProcessExternalLinks(db, org, inputs, now, false, schedule);
    DistinctBatchIsProcessed(db, org, inputs, now, false, schedule);
    forall r | r in o.all
      ensures r.key.externalId in Ids(missing) && r.key == PcoKey(org, r.key.externalId) && r.key in o.db.links
        && o.db.links[r.key] == r.value
    {
      ReturnedRowsAreStored(db, org, inputs, now, false, schedule, r);
      AskedKeys(org, missing, drawn, r.key);
    }
    forall id | id in Ids(missing)
      ensures exists r :: r in o.all && r.key.externalId == id
    {
      var i :| 0 <= i < |missing| && missing[i].id == id;
      assert inputs[i] in inputs && KeyOf(org, inputs[i]).externalId == id;
    }
  }

  lemma AskedKeys(org: string, missing: seq<Reference>, drawn: nat -> string, k: Tables.LinkKey)
    requires IsKeyOf(org, LinkInputs(missing, drawn), k)
    ensures k.externalId in Ids(missing) && k == PcoKey(org, k.externalId)
  {
  }

  /**
   The missing links are always accepted. Afterwards exactly the known and the missing ids are
   linked: a known one as before, a missing one to the entity its row in the table names.
   */
  lemma CompletedIsExact(
    db: Tables.Database, org: string, missing: seq<Reference>, known: LinkMap, drawn: nat -> string, now: int,
    schedule: Schedule, id: string)
    requires DistinctIds(missing) && Ids(missing) !! known.Keys
    ensures var o := LinkTable.ProcessExternalLinks(db, org, LinkInputs(missing, drawn), now, false, schedule);
      var links := Completed(db, org, missing, known, drawn, now, schedule);
      && o.Processed?
      && (id in links <==> id in known || id in Ids(missing))
      && (id in known ==> links[id] == known[id])
      && (id in Ids(missing) ==>
           PcoKey(org, id) in o.db.links && links[id].entityId == o.db.links[PcoKey(org, id)].entityId)
  {
    MissingLinksComeBack(db, org, missing, drawn, now, schedule);
    if missing != [] {
      var o := LinkTable.ProcessExternalLinks(db, org, LinkInputs(missing, drawn), now, false, schedule);
      ResolveKeys(known, o.all, id);
    }
  }

  /**
   The type of a missing link: a row that is new gets the type the relation names, and a row that
   was there keeps its own. So the tag an edge takes from the relation is the type of the linked
   entity if and only if its row is new or was stored under that type; ids are shared by all types.
   */
  lemma MissingLinkType(
    db: Tables.Database, org: string, missing: seq<Reference>, drawn: nat -> string, now: int, schedule: Schedule,
    i: nat)
    requires DistinctIds(missing) && i < |missing|
    ensures var o := LinkTable.ProcessExternalLinks(db, org, LinkInputs(missing, drawn), now, false, schedule);
      var k := PcoKey(org, missing[i].id);
      && o.Processed? && k in o.db.links
      && (o.db.links[k].entityType == missing[i].target <==>
        k !in db.links || db.links[k].entityType == missing[i].target)
      && o.db.links[k].entityId == if k in db.links then db.links[k].entityId else drawn(i)
  {
    var inputs := LinkInputs(missing, drawn);
    DistinctBatchIsProcessed(db, org, inputs, now, false, schedule);
    assert inputs[i] in inputs && KeyOf(org, inputs[i]) == PcoKey(org, missing[i].id);
  }

  // ----- the edges

  function NameOf(schemas: map<string, Schema>, e: Entity): (name: string)
    requires e.typ in schemas
  {
    schemas[e.typ].name.GetOr(e.typ)
  }

  /** The edge for one annotated relation of a linked entity, if its target is linked. */
  function EdgeOf(e: Entity, name: string, a: Annotation, links: LinkMap): (out: seq<RelationshipInput>) {
    var d := Data(e, a.relKey);
    if e.id !in links || d.None? || d.value !in links then []
    else
      var (from, to) := (links[e.id], links[d.value]);
      Map((x: EdgeEnds) => Relationship(e, from, a, x), EdgeFor(from.entityId, name, to.entityId, a.target, a.relKey))
  }

  function Relationship(e: Entity, from: LinkInfo, a: Annotation, x: EdgeEnds): (r: RelationshipInput) {
    RelationshipInput(
      x.source, x.sourceTag, x.target, x.targetTag, x.relationshipType,
      Some(map["relationshipKey" := a.relKey, "source" := "pco_direct"]),
      e.createdAt.GetOr(from.lastProcessedAt), None,
      Some(e.updatedAt.GetOr(from.lastProcessedAt)), None, None, None)
  }

  function EdgesOfEntity(
    e: Entity, name: string, annotations: seq<Annotation>, links: LinkMap): (out: seq<RelationshipInput>)
  {
    if annotations == [] then []
    else EdgeOf(e, name, annotations[0], links) + EdgesOfEntity(e, name, annotations[1..], links)
  }

  function EdgesOf(es: seq<Entity>, schemas: map<string, Schema>, links: LinkMap): (out: seq<RelationshipInput>) {
    if es == [] then []
    else
      (if es[0].typ in schemas then EdgesOfEntity(es[0], NameOf(schemas, es[0]), schemas[es[0].typ].annotations, links)
        else [])
      + EdgesOf(es[1..], schemas, links)
  }

  /** The second pass. Link ids are not empty; the source throws when one is. */
  function ExtractRelationships(
    es: seq<Entity>, schemas: map<string, Schema>, links: LinkMap): (out: seq<RelationshipInput>)
  {
    EdgesOf(ByType(es), schemas, links)
  }

  /** An annotated relation of an entity. */
  datatype Call = Call(entity: Entity, annotation: Annotation)

  /** The relations of an entity that lead to a linked one. */
  function CallsOf(e: Entity, annotations: seq<Annotation>, links: LinkMap): (calls: seq<Call>) {
    if annotations == [] then []
    else
      var d := Data(e, annotations[0].relKey);
      (if d.Some? && d.value in links then [Call(e, annotations[0])] else []) + CallsOf(e, annotations[1..], links)
  }

  /** The relations of linked entities to linked entities, in the order of the pass. */
  function Calls(es: seq<Entity>, schemas: map<string, Schema>, links: LinkMap): (calls: seq<Call>) {
    if es == [] then []
    else
      (if es[0].typ in schemas && es[0].id in links then CallsOf(es[0], schemas[es[0].typ].annotations, links) else [])
      + Calls(es[1..], schemas, links)
  }

  ghost predicate NamedLinks(links: LinkMap) {
    "" !in links && forall id :: id in links ==> links[id].entityId != ""
  }

  /** Both readers of the annotations see the same for the types of the entities. */
  predicate ReadersAgree(es: seq<Entity>, discovered: map<string, seq<Annotation>>, schemas: map<string, Schema>) {
    forall e :: e in es && e.typ in schemas ==> schemas[e.typ].annotations == AnnotationsOf(discovered, e.typ)
  }

  /** The edge says what the relation says, and each end carries the type of its entity. */
  ghost predicate States(r: RelationshipInput, e: Entity, name: string, a: Annotation, links: LinkMap) {
    && e.id in links && Data(e, a.relKey).Some? && Data(e, a.relKey).value in links
    && multiset{(r.sourceId, r.sourceTag), (r.targetId, r.targetTag)}
       == multiset{(links[e.id].entityId, name), (links[Data(e, a.relKey).value].entityId, a.target)}
    && Canonical(r.sourceId, r.targetId)
    && (r.sourceId == r.targetId ==> r.sourceTag == name)
    && r.relationshipType == r.sourceTag + Middle(a.relKey) + r.targetTag
    && r.metadata == Some(map["relationshipKey" := a.relKey, "source" := "pco_direct"])
    && r.createdAt == (if e.createdAt.Some? then e.createdAt.value else links[e.id].lastProcessedAt)
    && r.updatedAt == Some(if e.updatedAt.Some? then e.updatedAt.value else links[e.id].lastProcessedAt)
    && r.deletedAt == None
  }

  lemma EdgeOfStates(e: Entity, name: string, a: Annotation, links: LinkMap)
    requires NamedLinks(links)
    ensures |EdgeOf(e, name, a, links)| ==
      if e.id in links && Data(e, a.relKey).Some? && Data(e, a.relKey).value in links then 1 else 0
    ensures forall r :: r in EdgeOf(e, name, a, links) ==> States(r, e, name, a, links)
  {
    var d := Data(e, a.relKey);
    if e.id in links && d.Some? && d.value in links {
      TagsFollowIds(links[e.id].entityId, name, links[d.value].entityId, a.target, a.relKey);
    }
  }

  /** Edge by edge, what is emitted is what is called for. */
  ghost predicate Answers(
    edges: seq<RelationshipInput>, calls: seq<Call>, schemas: map<string, Schema>, links: LinkMap)
  {
    && |edges| == |calls|
    && forall i :: 0 <= i < |edges| ==>
         && calls[i].entity.typ in schemas
         && States(edges[i], calls[i].entity, NameOf(schemas, calls[i].entity), calls[i].annotation, links)
  }

  lemma {:induction false} EntityIsAnswered(
    e: Entity, schemas: map<string, Schema>, annotations: seq<Annotation>, links: LinkMap)
    requires e.typ in schemas && e.id in links && NamedLinks(links)
    ensures Answers(
      EdgesOfEntity(e, NameOf(schemas, e), annotations, links), CallsOf(e, annotations, links), schemas, links)
  {
    if annotations != [] {
      EntityIsAnswered(e, schemas, annotations[1..], links);
      EdgeOfStates(e, NameOf(schemas, e), annotations[0], links);
    }
  }

  lemma {:induction false} UnlinkedEntityHasNoEdges(
    e: Entity, name: string, annotations: seq<Annotation>, links: LinkMap)
    requires e.id !in links
    ensures EdgesOfEntity(e, name, annotations, links) == []
  {
    if annotations != [] {
      UnlinkedEntityHasNoEdges(e, name, annotations[1..], links);
    }
  }

  lemma {:induction false} CallsAreAnswered(es: seq<Entity>, schemas: map<string, Schema>, links: LinkMap)
    requires NamedLinks(links)
    ensures Answers(EdgesOf(es, schemas, links), Calls(es, schemas, links), schemas, links)
  {
    if es != [] {
      var e := es[0];
      CallsAreAnswered(es[1..], schemas, links);
      if e.typ in schemas {
        if e.id in links {
          EntityIsAnswered(e, schemas, schemas[e.typ].annotations, links);
        } else {
          UnlinkedEntityHasNoEdges(e, NameOf(schemas, e), schemas[e.typ].annotations, links);
        }
      }
    }
  }

  // ----- the order of the entities does not matter

  lemma {:induction false} CallsAppend(xs: seq<Entity>, ys: seq<Entity>, schemas: map<string, Schema>, links: LinkMap)
    ensures Calls(xs + ys, schemas, links) == Calls(xs, schemas, links) + Calls(ys, schemas, links)
  {
    if xs == [] {
      assert xs + ys == ys;
    } else {
      assert (xs + ys)[1..] == xs[1..] + ys;
      CallsAppend(xs[1..], ys, schemas, links);
    }
  }

  lemma {:induction false} CallsIgnoreOrder(
    xs: seq<Entity>, ys: seq<Entity>, schemas: map<string, Schema>, links: LinkMap)
    requires multiset(xs) == multiset(ys)
    ensures multiset(Calls(xs, schemas, links)) == multiset(Calls(ys, schemas, links))
  {
    if xs == [] {
      assert |ys| == |multiset(ys)| == 0;
    } else {
      var i := HeadElsewhere(xs, ys);
      assert xs == [xs[0]] + xs[1..];
      CallsAppend([xs[0]], xs[1..], schemas, links);
      CallsIgnoreOrder(xs[1..], ys[..i] + ys[i + 1..], schemas, links);
      CallsWithout(ys, i, schemas, links);
    }
  }

  lemma CallsWithout(ys: seq<Entity>, i: nat, schemas: map<string, Schema>, links: LinkMap)
    requires i < |ys|
    ensures multiset(Calls(ys, schemas, links))
      == multiset(Calls([ys[i]], schemas, links)) + multiset(Calls(ys[..i] + ys[i + 1..], schemas, links))
  {
    var before, x, after := ys[..i], [ys[i]], ys[i + 1..];
    assert ys == before + (x + after);
    CallsAppend(before, x + after, schemas, links);
    CallsAppend(x, after, schemas, links);
    CallsAppend(before, after, schemas, links);
  }

  // ----- the whole of it

  ghost predicate NamedRows(t: map<Tables.LinkKey, Tables.Link>) {
    forall k :: k in t ==> t[k].entityId != ""
  }

  lemma CompletedLinksAreNamed(
    db: Tables.Database, org: string, missing: seq<Reference>, known: LinkMap, drawn: nat -> string, now: int,
    schedule: Schedule)
    requires DistinctIds(missing) && Ids(missing) !! known.Keys && "" !in Ids(missing)
    requires NamedLinks(known) && NamedRows(db.links) && forall i :: drawn(i) != ""
    ensures NamedLinks(Completed(db, org, missing, known, drawn, now, schedule))
  {
    CompletedIsExact(db, org, missing, known, drawn, now, schedule, "");
    forall id | id in Completed(db, org, missing, known, drawn, now, schedule)
      ensures Completed(db, org, missing, known, drawn, now, schedule)[id].entityId != ""
    {
      CompletedIsExact(db, org, missing, known, drawn, now, schedule, id);
      if id !in known {
        var i :| 0 <= i < |missing| && missing[i].id == id;
        MissingLinkType(db, org, missing, drawn, now, schedule, i);
      }
    }
  }

  /** After the first pass exactly the known and the referenced ids are linked. */
  lemma ReferencedAreLinked(
    db: Tables.Database, org: string, es: seq<Entity>, discovered: map<string, seq<Annotation>>,
    known: LinkMap, drawn: nat -> string, now: int, schedule: Schedule, id: string)
    ensures var links := Completed(db, org, Missing(es, discovered, known), known, drawn, now, schedule);
      id in links <==> id in known || Referenced(es, discovered, id)
  {
    var missing := Missing(es, discovered, known);
    MissingIsExact(es, discovered, known.Keys);
    CompletedIsExact(db, org, missing, known, drawn, now, schedule, id);
  }

  /**
   No relationship is lost or invented on the way: when ids are not empty, every annotated relation
   between linked entities gives one edge, in the order of the pass, that says what the relation
   says; the relations so answered are those of the entities handed in, each as often as it
   occurs there; and exactly the known and the referenced ids are linked.
   */
  lemma NothingLostOrInvented(
    db: Tables.Database, org: string, es: seq<Entity>, discovered: map<string, seq<Annotation>>,
    schemas: map<string, Schema>,
    known: LinkMap, drawn: nat -> string, now: int, schedule: Schedule)
    requires NamedLinks(known) && NamedRows(db.links) && forall i :: drawn(i) != ""
    ensures var links := Completed(db, org, Missing(es, discovered, known), known, drawn, now, schedule);
      && NamedLinks(links)
      && Answers(ExtractRelationships(es, schemas, links), Calls(ByType(es), schemas, links), schemas, links)
      && multiset(Calls(ByType(es), schemas, links)) == multiset(Calls(es, schemas, links))
      && forall id :: id in links <==> id in known || Referenced(es, discovered, id)
  {
    var missing := Missing(es, discovered, known);
    var links := Completed(db, org, missing, known, drawn, now, schedule);
    MissingIsExact(es, discovered, known.Keys);
    CompletedLinksAreNamed(db, org, missing, known, drawn, now, schedule);
    forall id
      ensures id in links <==> id in known || Referenced(es, discovered, id)
    {
      ReferencedAreLinked(db, org, es, discovered, known, drawn, now, schedule, id);
    }
    ByTypePermutes(es);
    CallsAreAnswered(ByType(es), schemas, links);
    CallsIgnoreOrder(ByType(es), es, schemas, links);
  }

  /** The second pass sees the relation. */
  predicate Seen(schemas: map<string, Schema>, e: Entity, a: Annotation) {
    e.typ in schemas && a in schemas[e.typ].annotations
  }

  /**
   When a relation of a linked entity is lost. One that the first pass sees has its target linked,
   and gives an edge if and only if the second pass sees it too. One that the second pass sees gives
   an edge if and only if its target was known or some entity refers to it by a relation that the
   first pass sees. So where both see the same, nothing is lost.
   */
  lemma RelationIsLostIff(
    db: Tables.Database, org: string, es: seq<Entity>, discovered: map<string, seq<Annotation>>,
    schemas: map<string, Schema>,
    known: LinkMap, drawn: nat -> string, now: int, schedule: Schedule, e: Entity, a: Annotation, target: string)
    requires e in es && target != "" && Data(e, a.relKey) == Some(target)
    requires e.id in Completed(db, org, Missing(es, discovered, known), known, drawn, now, schedule)
    ensures var links := Completed(db, org, Missing(es, discovered, known), known, drawn, now, schedule);
      && (a in AnnotationsOf(discovered, e.typ) ==>
           target in links && (Call(e, a) in Calls(es, schemas, links) <==> Seen(schemas, e, a)))
      && (Seen(schemas, e, a) ==>
           (Call(e, a) in Calls(es, schemas, links) <==> target in known || Referenced(es, discovered, target)))
      && (Seen(schemas, e, a) && ReadersAgree(es, discovered, schemas) ==> Call(e, a) in Calls(es, schemas, links))
  {
    var links := Completed(db, org, Missing(es, discovered, known), known, drawn, now, schedule);
    CallsAreExact(es, schemas, links, Call(e, a));
    ReferencedAreLinked(db, org, es, discovered, known, drawn, now, schedule, target);
  }

  /** The relations that get an edge are those of an entity with a schema that join two linked entities. */
  lemma {:induction false} CallsAreExact(es: seq<Entity>, schemas: map<string, Schema>, links: LinkMap, c: Call)
    ensures c in Calls(es, schemas, links) <==>
      && c.entity in es && c.entity.id in links && Seen(schemas, c.entity, c.annotation)
      && Data(c.entity, c.annotation.relKey).Some? && Data(c.entity, c.annotation.relKey).value in links
  {
    if es != [] {
      CallsAreExact(es[1..], schemas, links, c);
      if es[0].typ in schemas {
        CallsOfAreExact(es[0], schemas[es[0].typ].annotations, links, c);
      }
    }
  }

  lemma {:induction false} CallsOfAreExact(e: Entity, annotations: seq<Annotation>, links: LinkMap, c: Call)
    ensures c in CallsOf(e, annotations, links) <==>
      && c.entity == e && c.annotation in annotations
      && Data(e, c.annotation.relKey).Some? && Data(e, c.annotation.relKey).value in links
  {
    if annotations != [] {
      CallsOfAreExact(e, annotations[1..], links, c);
    }
  }

  // ----- when the edges are accepted

  /** The two calls give one edge key: the same two entities, and a type spelled the same. */
  ghost predicate SameEdge(c: Call, c': Call, schemas: map<string, Schema>, links: LinkMap)
    requires Answerable(c, schemas, links) && Answerable(c', schemas, links)
  {
    && Decode(FromId(c, links), ToId(c, links)) == Decode(FromId(c', links), ToId(c', links))
    && CallType(c, schemas, links) == CallType(c', schemas, links)
  }

  ghost predicate Answerable(c: Call, schemas: map<string, Schema>, links: LinkMap) {
    && c.entity.typ in schemas && c.entity.id in links
    && Data(c.entity, c.annotation.relKey).Some? && Data(c.entity, c.annotation.relKey).value in links
  }

  function FromId(c: Call, links: LinkMap): (id: string)
    requires c.entity.id in links
  {
    links[c.entity.id].entityId
  }

  function ToId(c: Call, links: LinkMap): (id: string)
    requires Data(c.entity, c.annotation.relKey).Some? && Data(c.entity, c.annotation.relKey).value in links
  {
    links[Data(c.entity, c.annotation.relKey).value].entityId
  }

  function CallType(c: Call, schemas: map<string, Schema>, links: LinkMap): (t: string)
    requires c.entity.typ in schemas && c.entity.id in links
    requires Data(c.entity, c.annotation.relKey).Some? && Data(c.entity, c.annotation.relKey).value in links
  {
    SpelledType(FromId(c, links), NameOf(schemas, c.entity), ToId(c, links), c.annotation.target, c.annotation.relKey)
  }

  lemma StatesFixesKey(r: RelationshipInput, c: Call, schemas: map<string, Schema>, links: LinkMap)
    requires c.entity.typ in schemas && States(r, c.entity, NameOf(schemas, c.entity), c.annotation, links)
    ensures Answerable(c, schemas, links)
    ensures Decode(FromId(c, links), ToId(c, links)) == Directed(r.sourceId, r.targetId)
    ensures r.relationshipType == CallType(c, schemas, links)
  {
    var a, b := FromId(c, links), ToId(c, links);
    var name, target := NameOf(schemas, c.entity), c.annotation.target;
    EndsOfPair((r.sourceId, r.sourceTag), (r.targetId, r.targetTag), (a, name), (b, target));
    DecodeIsSymmetricAndIdempotent(a, b);
  }

  lemma EndsOfPair<T>(a: T, b: T, c: T, d: T)
    requires multiset{a, b} == multiset{c, d}
    ensures (a == c && b == d) || (a == d && b == c)
  {
    assert a in multiset{c, d} && b in multiset{c, d} && c in multiset{a, b} && d in multiset{a, b};
  }

  /** The batch of a page's edges is accepted if and only if no two calls give one edge. */
  lemma EdgeBatchAcceptedIff(
    org: string, edges: seq<RelationshipInput>, calls: seq<Call>, schemas: map<string, Schema>, links: LinkMap)
    requires Answers(edges, calls, schemas, links)
    ensures forall i :: 0 <= i < |calls| ==> Answerable(calls[i], schemas, links)
    ensures Tables.DistinctKeys(EdgeRowsOf(org, edges)) <==>
      forall i, j :: 0 <= i < j < |calls| ==> !SameEdge(calls[i], calls[j], schemas, links)
  {
    forall i | 0 <= i < |calls|
      ensures Answerable(calls[i], schemas, links)
      ensures Decode(FromId(calls[i], links), ToId(calls[i], links)) == Directed(edges[i].sourceId, edges[i].targetId)
      ensures edges[i].relationshipType == CallType(calls[i], schemas, links)
    {
      StatesFixesKey(edges[i], calls[i], schemas, links);
    }
    var rows := EdgeRowsOf(org, edges);
    forall i, j | 0 <= i < j < |calls|
      ensures rows[i].key == rows[j].key <==> SameEdge(calls[i], calls[j], schemas, links)
    {
      assert rows[i].key == Tables.EdgeKey(org, edges[i].sourceId, edges[i].targetId, edges[i].relationshipType);
      assert rows[j].key == Tables.EdgeKey(org, edges[j].sourceId, edges[j].targetId, edges[j].relationshipType);
    }
  }

  /** The two calls state one relation, from one side or the other. */
  ghost predicate SameCall(c: Call, c': Call, schemas: map<string, Schema>, links: LinkMap)
    requires Answerable(c, schemas, links) && Answerable(c', schemas, links)
  {
    SameRelation(
      FromId(c, links), NameOf(schemas, c.entity), ToId(c, links), c.annotation.target, c.annotation.relKey,
      FromId(c', links), NameOf(schemas, c'.entity), ToId(c', links), c'.annotation.target, c'.annotation.relKey)
  }

  predicate PlainTags(c: Call, schemas: map<string, Schema>)
    requires c.entity.typ in schemas
  {
    '_' !in NameOf(schemas, c.entity) && '_' !in c.annotation.target
  }

  /**
   Two calls give one edge whenever they state one relation, and for type tags without '_' only
   then: they join the same two entities, each under the same tag, by keys that show alike.
   */
  lemma SameEdgeIff(c: Call, c': Call, schemas: map<string, Schema>, links: LinkMap)
    requires NamedLinks(links) && Answerable(c, schemas, links) && Answerable(c', schemas, links)
    ensures SameCall(c, c', schemas, links) ==> SameEdge(c, c', schemas, links)
    ensures PlainTags(c, schemas) && PlainTags(c', schemas) ==>
      (SameCall(c, c', schemas, links) <==> SameEdge(c, c', schemas, links))
  {
    OneKeyIff(
      FromId(c, links), NameOf(schemas, c.entity), ToId(c, links), c.annotation.target, c.annotation.relKey,
      FromId(c', links), NameOf(schemas, c'.entity), ToId(c', links), c'.annotation.target, c'.annotation.relKey);
  }

  /** So two relations without '_' from one entity to another, under one target type, fall on one edge. */
  lemma TwoPlainRelationsClash(c: Call, c': Call, schemas: map<string, Schema>, links: LinkMap)
    requires NamedLinks(links) && Answerable(c, schemas, links) && Answerable(c', schemas, links)
    requires c.entity == c'.entity && Data(c.entity, c.annotation.relKey) == Data(c.entity, c'.annotation.relKey)
    requires c.annotation.target == c'.annotation.target && '_' !in c.annotation.relKey && '_' !in c'.annotation.relKey
    ensures SameEdge(c, c', schemas, links)
  {
    SameEdgeIff(c, c', schemas, links);
  }

  /** And so do two entities that refer to each other by such relations. */
  lemma MutualRelationsClash(c: Call, c': Call, schemas: map<string, Schema>, links: LinkMap)
    requires NamedLinks(links) && Answerable(c, schemas, links) && Answerable(c', schemas, links)
    requires Data(c.entity, c.annotation.relKey).value == c'.entity.id
      && Data(c'.entity, c'.annotation.relKey).value == c.entity.id
    requires c.annotation.target == NameOf(schemas, c'.entity) && c'.annotation.target == NameOf(schemas, c.entity)
    requires FromId(c, links) != ToId(c, links)
    requires '_' !in c.annotation.relKey && '_' !in c'.annotation.relKey
    ensures SameEdge(c, c', schemas, links)
  {
    SameEdgeIff(c, c', schemas, links);
  }

  // ----- both passes as the source runs them

  method AddLinks(known: LinkMap, rows: seq<LinkRow>) returns (links: LinkMap)
    ensures links == Resolve(known, rows)
  {
    links := known;
    for i := 0 to |rows|
      invariant links == Resolve(known, rows[..i])
    {
      assert rows[..i + 1][..i] == rows[..i];
      links := links[rows[i].key.externalId := Info(rows[i])];
    }
    assert rows[..|rows|] == rows;
  }

  /** Both passes, with the links created in between. */
  method ExtractRelationshipsEnhanced(
    manager: Manager, es: seq<Entity>, discovered: map<string, seq<Annotation>>, schemas: map<string, Schema>,
    externalLinks: LinkMap, drawn: nat -> string, now: int, schedule: Schedule)
    returns (edges: seq<RelationshipInput>)
    modifies manager
    ensures var missing := Missing(es, discovered, externalLinks);
      && edges == ExtractRelationships(es, schemas,
        Completed(old(manager.Db()), manager.org, missing, externalLinks, drawn, now, schedule))
      && (missing == [] ==> manager.Db() == old(manager.Db()))
      && (missing != [] ==>
           manager.Db() == LinkTable.ProcessExternalLinks(
             old(manager.Db()), manager.org, LinkInputs(missing, drawn), now, false, schedule).db)
  {
    var links := externalLinks;
    var missing := FindMissing(es, discovered, externalLinks.Keys);
    if missing != [] {
      MissingIsExact(es, discovered, externalLinks.Keys);
      MissingLinksComeBack(manager.Db(), manager.org, missing, drawn, now, schedule);
      var r := manager.ProcessExternalLinks(LinkInputs(missing, drawn), now, false, schedule);
      links := AddLinks(externalLinks, r.value.0);
    }
    edges := ExtractRelationships(es, schemas, links);
  }
}
