/**
 Statements that arrive a second time: link batches, edge batches and registry updates that
 bring what the tables already hold leave them as they are.
 */
module Redelivery {
  import opened LinkTable
  import opened Registry
  import opened RelationshipUtils
  import opened Seqs
  import opened Tables
  import opened Wrappers

  // ----- link batches

  /** A batch whose links would come out as they are leaves the database as it is. */
  lemma QuietBatch(db: Database, org: string, inputs: seq<LinkInput>, now: int, force: bool, schedule: Schedule)
    requires DistinctInputs(inputs)
    requires forall input :: input in inputs ==>
      KeyOf(org, input) in db.links && LinkAfter(db.links, org, input, now) == db.links[KeyOf(org, input)]
    ensures ProcessExternalLinks(db, org, inputs, now, force, schedule).Processed?
    ensures ProcessExternalLinks(db, org, inputs, now, force, schedule).db == db
  {
    DistinctBatchIsProcessed(db, org, inputs, now, force, schedule);
    var o := ProcessExternalLinks(db, org, inputs, now, force, schedule);
    forall k | k in o.db.links
      ensures k in db.links && o.db.links[k] == db.links[k]
    {
      if IsKeyOf(org, inputs, k) {
        var input :| input in inputs && k == KeyOf(org, input);
      }
    }
    assert o.db.links == db.links;
  }

  /** And if none of them was processed lately, it reports no change. */
  lemma QuietBatchReportsNothing(db: Database, org: string, inputs: seq<LinkInput>, now: int, schedule: Schedule)
    requires DistinctInputs(inputs)
    requires forall input :: input in inputs ==>
      KeyOf(org, input) in db.links && LinkAfter(db.links, org, input, now) == db.links[KeyOf(org, input)]
    requires forall input :: input in inputs ==> db.links[KeyOf(org, input)].lastProcessedAt <= now - 2
    ensures ProcessExternalLinks(db, org, inputs, now, false, schedule).Processed?
    ensures ProcessExternalLinks(db, org, inputs, now, false, schedule).changed == []
  {
    QuietBatch(db, org, inputs, now, false, schedule);
    var o := ProcessExternalLinks(db, org, inputs, now, false, schedule);
    forall r | r in o.all
      ensures !JustProcessed(r.value, now)
    {
      ReturnedRowsAreStored(db, org, inputs, now, false, schedule, r);
      var input :| input in inputs && r.key == KeyOf(org, input);
    }
    NoneJustProcessed(db, org, inputs, now, schedule);
  }

  /** The same links, asked for again: only the ids that would be drawn may differ. */
  predicate SameLinks(a: seq<LinkInput>, b: seq<LinkInput>) {
    |a| == |b| && forall i :: 0 <= i < |a| ==> a[i] == b[i].(drawn := a[i].drawn)
  }

  lemma {:induction false} SameLinksPartitionAlike(a: seq<LinkInput>, b: seq<LinkInput>)
    requires SameLinks(a, b)
    ensures SameLinks(EntityInputs(a), EntityInputs(b)) && SameLinks(ReferenceInputs(a), ReferenceInputs(b))
  {
    if a != [] {
      var x, y := if IsReference(a[0]) then [] else [a[0]], if IsReference(b[0]) then [] else [b[0]];
      var z, w := if IsReference(a[0]) then [a[0]] else [], if IsReference(b[0]) then [b[0]] else [];
      SameLinksPartitionAlike(a[1..], b[1..]);
      assert a[0] == b[0].(drawn := a[0].drawn);
      assert EntityInputs(a) == x + EntityInputs(a[1..]) && EntityInputs(b) == y + EntityInputs(b[1..]);
      assert ReferenceInputs(a) == z + ReferenceInputs(a[1..]) && ReferenceInputs(b) == w + ReferenceInputs(b[1..]);
      SameLinksAppend(x, EntityInputs(a[1..]), y, EntityInputs(b[1..]));
      SameLinksAppend(z, ReferenceInputs(a[1..]), w, ReferenceInputs(b[1..]));
    }
  }

  lemma SameLinksAppend(a: seq<LinkInput>, a': seq<LinkInput>, b: seq<LinkInput>, b': seq<LinkInput>)
    requires SameLinks(a, b) && SameLinks(a', b')
    ensures SameLinks(a + a', b + b')
  {
  }

  lemma SameLinksAreStoredAlike(
    t: map<LinkKey, Link>, u: map<LinkKey, Link>, org: string, a: seq<LinkInput>, b: seq<LinkInput>)
    requires SameLinks(a, b) && AllRecorded(t, org, a) && AllRecorded(u, org, b)
    requires forall i :: 0 <= i < |a| ==> t[KeyOf(org, a[i])] == u[KeyOf(org, a[i])]
    ensures StoredRows(t, org, a) == StoredRows(u, org, b)
  {
  }

  /** Whether processing the link again leaves it alone: it carries its updatedAt, or no time at all. */
  predicate Settles(input: LinkInput) {
    input.updatedAt.Some? || input.createdAt.None?
  }

  /** One link, processed again: it comes out as it was exactly when it settles, and else with the new time. */
  lemma LinkAgain(
    t: map<LinkKey, Link>, t': map<LinkKey, Link>, org: string, a: LinkInput, b: LinkInput, first: int, second: int)
    requires a == b.(drawn := a.drawn) && ProcessedUpTo(t, second - 2) && first <= second - 2
    requires KeyOf(org, a) in t' && t'[KeyOf(org, a)] == LinkAfter(t, org, a, first)
    ensures t'[KeyOf(org, a)].lastProcessedAt <= second - 2
    ensures LinkAfter(t', org, b, second) == t'[KeyOf(org, a)] <==> Settles(a)
    ensures LinkAfter(t', org, b, second).lastProcessedAt == second <==> !Settles(a)
  {
  }

  /** The batch was processed before, with every stored time and its own more than a millisecond old. */
  predicate ProcessedBefore(
    db: Database, org: string, a: seq<LinkInput>, first: int, force: bool, schedule: Schedule, db': Database,
    b: seq<LinkInput>, second: int)
  {
    && DistinctInputs(a) && SameLinks(a, b)
    && ProcessedUpTo(db.links, second - 2) && first <= second - 2
    && db' == ProcessExternalLinks(db, org, a, first, force, schedule).db
  }

  lemma InputAgain(
    db: Database, org: string, a: seq<LinkInput>, first: int, force: bool, schedule: Schedule, db': Database,
    b: seq<LinkInput>, second: int, i: nat)
    requires ProcessedBefore(db, org, a, first, force, schedule, db', b, second) && i < |b|
    ensures var k := KeyOf(org, b[i]);
      && k in db'.links && db'.links[k].lastProcessedAt <= second - 2
      && (LinkAfter(db'.links, org, b[i], second) == db'.links[k] <==> Settles(a[i]))
      && (LinkAfter(db'.links, org, b[i], second).lastProcessedAt == second <==> !Settles(a[i]))
  {
    DistinctBatchIsProcessed(db, org, a, first, force, schedule);
    assert a[i] in a;
    LinkAgain(db.links, db'.links, org, a[i], b[i], first, second);
  }

  lemma UnsettledMoves(
    db: Database, org: string, a: seq<LinkInput>, first: int, force: bool, schedule: Schedule, db': Database,
    b: seq<LinkInput>, second: int, schedule': Schedule, i: nat)
    requires ProcessedBefore(db, org, a, first, force, schedule, db', b, second) && i < |a| && !Settles(a[i])
    ensures var o := ProcessExternalLinks(db', org, b, second, false, schedule');
      o.Processed? && o.db != db' && o.changed != []
  {
    InputAgain(db, org, a, first, force, schedule, db', b, second, i);
    SameLinksAreDistinct(a, b);
    assert b[i] in b;
    ReturnedRow(db', org, b, second, false, schedule', b[i]);
    var r := Row(KeyOf(org, b[i]), LinkAfter(db'.links, org, b[i], second));
    assert r in ProcessExternalLinks(db', org, b, second, false, schedule').changed;
  }

  lemma SameLinksAreDistinct(a: seq<LinkInput>, b: seq<LinkInput>)
    requires SameLinks(a, b) && DistinctInputs(a)
    ensures DistinctInputs(b)
  {
  }

  /**
   A batch of links processed again, more than a millisecond later: no row changes, and no link
   is reported as changed, exactly when each link carries its updatedAt or no time at all.
   */
  lemma BatchAgain(
    db: Database, org: string, a: seq<LinkInput>, first: int, force: bool, schedule: Schedule, db': Database,
    b: seq<LinkInput>, second: int, schedule': Schedule)
    requires ProcessedBefore(db, org, a, first, force, schedule, db', b, second)
    ensures var o := ProcessExternalLinks(db', org, b, second, false, schedule');
      var settled := forall i :: 0 <= i < |a| ==> Settles(a[i]);
      o.Processed? && (o.db == db' <==> settled) && (o.changed == [] <==> settled)
  {
    SameLinksAreDistinct(a, b);
    DistinctBatchIsProcessed(db', org, b, second, false, schedule');
    if i :| 0 <= i < |a| && !Settles(a[i]) {
      UnsettledMoves(db, org, a, first, force, schedule, db', b, second, schedule', i);
    } else {
      forall input | input in b
        ensures KeyOf(org, input) in db'.links && db'.links[KeyOf(org, input)].lastProcessedAt <= second - 2
        ensures LinkAfter(db'.links, org, input, second) == db'.links[KeyOf(org, input)]
      {
        var i :| 0 <= i < |b| && b[i] == input;
        InputAgain(db, org, a, first, force, schedule, db', b, second, i);
      }
      QuietBatch(db', org, b, second, false, schedule');
      QuietBatchReportsNothing(db', org, b, second, schedule');
    }
  }

  // ----- edges and registry

  lemma EdgesAgain(edges: map<EdgeKey, Edge>, rows: seq<Row<EdgeKey, Edge>>)
    requires DistinctKeys(rows)
    ensures Upsert(Upsert(edges, rows, TouchEdge), rows, TouchEdge) == Upsert(edges, rows, TouchEdge)
  {
    var once := Upsert(edges, rows, TouchEdge);
    var twice := Upsert(once, rows, TouchEdge);
    MergedRows(edges, rows, TouchEdge);
    MergedRows(once, rows, TouchEdge);
    forall k | k in twice
      ensures k in once && twice[k] == once[k]
    {
      if i :| 0 <= i < |rows| && rows[i].key == k {
        assert twice[rows[i].key] == TouchEdge(once[rows[i].key], rows[i].value);
      }
    }
  }

  /** The pairs do not depend on the order in which the hash set is read. */
  lemma ExpansionIgnoresOrder(rels: seq<Input>, keys: seq<string>, others: seq<string>)
    requires Enumerates(keys, Keys(rels)) && Enumerates(others, Keys(rels))
    ensures forall p :: p in ExpandBidirectionalPairs(rels, keys) <==> p in ExpandBidirectionalPairs(rels, others)
  {
    ExpansionReorders(rels, keys, others);
    ExpansionReorders(rels, others, keys);
  }

  lemma ExpansionReorders(rels: seq<Input>, keys: seq<string>, others: seq<string>)
    requires Enumerates(keys, Keys(rels)) && Enumerates(others, Keys(rels))
    ensures forall p :: p in ExpandBidirectionalPairs(rels, keys) ==> p in ExpandBidirectionalPairs(rels, others)
  {
    var ps, qs := ExpandBidirectionalPairs(rels, keys), ExpandBidirectionalPairs(rels, others);
    forall p | p in ps
      ensures p in qs
    {
      var i :| 0 <= i < |ps| && ps[i] == p;
      assert keys[i] in keys && keys[i] in others;
      var j :| 0 <= j < |others| && others[j] == keys[i];
      assert qs[j] == p;
    }
  }

  lemma RegistryAgain(
    registry: map<RegistryKey, set<string>>, org: string, rels: seq<Input>, keys: seq<string>, others: seq<string>)
    requires Enumerates(keys, Keys(rels)) && Enumerates(others, Keys(rels))
    ensures var once := Upsert(registry, RegistryBatch(org, rels, keys), UniteTargets);
      Upsert(once, RegistryBatch(org, rels, others), UniteTargets) == once
  {
    var ps, qs := ExpandBidirectionalPairs(rels, keys), ExpandBidirectionalPairs(rels, others);
    var rows := RegistryRows(org, GroupPairsBySource(qs));
    var once := Upsert(registry, RegistryRows(org, GroupPairsBySource(ps)), UniteTargets);
    ExpansionIgnoresOrder(rels, keys, others);
    RegistryUpsertAdds(registry, org, ps);
    RegistryRowsAreDistinct(org, qs);
    forall i | 0 <= i < |rows|
      ensures rows[i].key in once && rows[i].value <= once[rows[i].key]
    {
      RegistryRowIsKnown(once, org, qs, i);
    }
    KnownTargetsAgain(once, rows);
  }

  lemma KnownTargetsAgain(registry: map<RegistryKey, set<string>>, rows: seq<Row<RegistryKey, set<string>>>)
    requires DistinctKeys(rows)
    requires forall i :: 0 <= i < |rows| ==> rows[i].key in registry && rows[i].value <= registry[rows[i].key]
    ensures Upsert(registry, rows, UniteTargets) == registry
  {
    MergedRows(registry, rows, UniteTargets);
    var after := Upsert(registry, rows, UniteTargets);
    forall k | k in after
      ensures k in registry && after[k] == registry[k]
    {
      if i :| 0 <= i < |rows| && rows[i].key == k {
        assert after[rows[i].key] == UniteTargets(registry[rows[i].key], rows[i].value);
      }
    }
  }

  lemma RegistryRowIsKnown(registry: map<RegistryKey, set<string>>, org: string, ps: seq<Pair>, i: nat)
    requires i < |RegistryRows(org, GroupPairsBySource(ps))|
    requires forall p :: p in ps ==> HasTarget(registry, org, p.source, p.target)
    ensures var r := RegistryRows(org, GroupPairsBySource(ps))[i];
      r.key in registry && r.value <= registry[r.key]
  {
    var g := GroupPairsBySource(ps)[i];
    var r := RegistryRows(org, GroupPairsBySource(ps))[i];
    GroupingRestoresPairs(ps);
    forall t | t in g.targets
      ensures r.key in registry && t in registry[r.key]
    {
      RegistryRowsHold(org, ps, g.source, t);
      assert r.key == RegistryKey(org, g.source) && t in r.value;
      assert HasTarget(registry, org, Pair(g.source, t).source, Pair(g.source, t).target);
    }
    assert g in GroupPairsBySource(ps) && g.targets != [];
    assert g.targets[0] in g.targets;
  }

  lemma RegistryUpdateAgain(db: Database, org: string, rels: seq<Input>, keys: seq<string>, others: seq<string>)
    requires Enumerates(keys, Keys(rels)) && Enumerates(others, Keys(rels))
    ensures UpdateRegistry(UpdateRegistry(db, org, rels, keys), org, rels, others)
      == UpdateRegistry(db, org, rels, keys)
  {
    var once := UpdateRegistry(db, org, rels, keys);
    UpdateRegistryIsUpsert(db, org, rels, keys);
    UpdateRegistryIsUpsert(once, org, rels, others);
    if rels != [] {
      RegistryAgain(db.registry, org, rels, keys, others);
    }
  }

  /** Processing relationships is writing the edges and then the registry, or nothing at all. */
  lemma RelationshipSteps(db: Database, org: string, rs: seq<RelationshipInput>, keys: seq<string>)
    requires Enumerates(keys, Keys(TypesOf(rs)))
    ensures ProcessRelationships(db, org, rs, keys) ==
      if rs == [] || !DistinctKeys(EdgeRowsOf(org, rs)) then db
      else UpdateRegistry(db.(edges := Upsert(db.edges, EdgeRowsOf(org, rs), TouchEdge)), org, TypesOf(rs), keys)
  {
  }

  /** Relationships processed a second time, however the hash sets are read, change nothing. */
  lemma RelationshipsAgain(
    db: Database, org: string, rs: seq<RelationshipInput>, keys: seq<string>, others: seq<string>)
    requires Enumerates(keys, Keys(TypesOf(rs))) && Enumerates(others, Keys(TypesOf(rs)))
    ensures var once := ProcessRelationships(db, org, rs, keys);
      ProcessRelationships(once, org, rs, others) == once
  {
    var rows, once := EdgeRowsOf(org, rs), ProcessRelationships(db, org, rs, keys);
    RelationshipSteps(db, org, rs, keys);
    RelationshipSteps(once, org, rs, others);
    if rs != [] && DistinctKeys(rows) {
      var written := db.(edges := Upsert(db.edges, rows, TouchEdge));
      EdgesAgain(db.edges, rows);
      UpdateRegistryIsUpsert(written, org, TypesOf(rs), keys);
      assert once.edges == written.edges;
      assert once.(edges := Upsert(once.edges, rows, TouchEdge)) == once;
      RegistryUpdateAgain(written, org, TypesOf(rs), keys, others);
    }
  }

  lemma RelationshipsKeepLinks(db: Database, org: string, rs: seq<RelationshipInput>, keys: seq<string>)
    requires Enumerates(keys, Keys(TypesOf(rs)))
    ensures ProcessRelationships(db, org, rs, keys).links == db.links
  {
    RelationshipSteps(db, org, rs, keys);
    if rs != [] && DistinctKeys(EdgeRowsOf(org, rs)) {
      UpdateRegistryIsUpsert(db.(edges := Upsert(db.edges, EdgeRowsOf(org, rs), TouchEdge)), org, TypesOf(rs), keys);
    }
  }
}
