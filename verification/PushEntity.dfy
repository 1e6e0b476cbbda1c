/**
 Pushing a batch of inserts, updates and upserts to the external system. Each operation looks
 its link up and creates or updates the remote entity; the operations run concurrently inside
 an activity that is retried as a whole. A run interleaves their steps, retries, and the links
 that other syncs record or bury meanwhile.
 */
module PushEntity {
  import opened Seqs
  import opened Strings
  import opened Wrappers
  import LinkTable
  import Tables

  type External = string
  type Internal = string

  datatype Phase =
    | Idle                                // has not looked its link up in this attempt
    | WillCreate                          // found no link
    | WillUpdate(target: External)        // found this link
    | Created(made: External)             // created remotely, link not yet written
    | Settled                             // link written, or updated

  datatype Creation = Creation(made: External, id: Internal)

  datatype State = State(
    ids: seq<Internal>,                   // the internal id of each operation
    phases: seq<Phase>,
    links: map<External, Internal>,       // the link rows of the org and adapter, dead ones too
    buried: set<External>,                // the dead ones
    remote: set<External>,                // every id the external system has given out
    created: seq<Creation>,               // every remote create of this batch
    updated: seq<Creation>,               // every remote update of this batch
    clean: bool)                          // nothing interfered with a create and its link

  predicate LinkedBy(s: State, e: External, id: Internal) {
    e in s.links && s.links[e] == id && e !in s.buried
  }

  predicate Linked(s: State, id: Internal) {
    exists e :: e in s.links && LinkedBy(s, e, id)
  }

  predicate ValidStart(s: State) {
    && |s.phases| == |s.ids| && (forall i :: 0 <= i < |s.phases| ==> s.phases[i].Idle?)
    && s.buried <= s.links.Keys <= s.remote
    && s.created == [] && s.updated == [] && s.clean
  }

  datatype Action =
    | Find(i: nat, e: External)           // the lookup gives this link
    | Miss(i: nat)                        // the lookup gives nothing
    | Create(i: nat, e: External)         // the external system makes e
    | Record(i: nat)                      // the new link is written
    | Update(i: nat)
    | Retry                               // the attempt fails and the activity starts over
    | OtherLink(e: External, id: Internal)  // another sync records a link to an entity of its own
    | Bury(e: External)                   // a deletion, a merge or a detection buries a link

  predicate InWindow(s: State, e: External) {
    exists i :: 0 <= i < |s.phases| && s.phases[i] == Created(e)
  }

  function Creations(s: State, id: Internal): (cs: seq<Creation>) {
    Filter((c: Creation) => c.id == id, s.created)
  }

  predicate Shared(s: State, id: Internal) {
    exists i, j :: 0 <= i < j < |s.ids| && s.ids[i] == s.ids[j] == id
  }

  /** The id has lost its last link, after a create for it or with two operations on it. */
  predicate Orphaned(s: State, id: Internal) {
    !Linked(s, id) && (Creations(s, id) != [] || Shared(s, id))
  }

  /** A disabled step leaves the state as it is. */
  function Step(s: State, a: Action): (s': State)
    requires |s.phases| == |s.ids|
    ensures |s'.phases| == |s'.ids| && s'.ids == s.ids
  {
    match a
    case Find(i, e) =>
      if i < |s.ids| && s.phases[i].Idle? && LinkedBy(s, e, s.ids[i])
      then s.(phases := s.phases[i := WillUpdate(e)]) else s
    case Miss(i) =>
      if i < |s.ids| && s.phases[i].Idle? && !Linked(s, s.ids[i])
      then s.(phases := s.phases[i := WillCreate]) else s
    case Create(i, e) =>
      if i < |s.ids| && s.phases[i].WillCreate? && e !in s.remote
      then
        s.(phases := s.phases[i := Created(e)], remote := s.remote + {e},
           created := s.created + [Creation(e, s.ids[i])])
      else s
    case Record(i) =>
      // the upsert keeps the entity of a row that is already there
      if i < |s.ids| && s.phases[i].Created?
      then
        var e := s.phases[i].made;
        s.(phases := s.phases[i := Settled], links := if e in s.links then s.links else s.links[e := s.ids[i]])
      else s
    case Update(i) =>
      if i < |s.ids| && s.phases[i].WillUpdate?
      then s.(phases := s.phases[i := Settled], updated := s.updated + [Creation(s.phases[i].target, s.ids[i])])
      else s
    case Retry =>
      s.(phases := seq(|s.ids|, i => Idle),
         clean := s.clean && forall i :: 0 <= i < |s.phases| ==> !s.phases[i].Created?)
    case OtherLink(e, id) =>
      // its internal id was drawn for it, so it is none of the batch's
      if e in s.links || id in s.ids then s
      else s.(links := s.links[e := id], remote := s.remote + {e}, clean := s.clean && !InWindow(s, e))
    case Bury(e) =>
      if e !in s.links || e in s.buried then s
      else
        var s' := s.(buried := s.buried + {e});
        s'.(clean := s.clean && !Orphaned(s', s.links[e]))
  }

  function Run(s: State, steps: seq<Action>): (s': State)
    requires |s.phases| == |s.ids|
    ensures |s'.phases| == |s'.ids| && s'.ids == s.ids
    decreases |steps|
  {
    if steps == [] then s else Run(Step(s, steps[0]), steps[1..])
  }

  // ----- the invariant

  /** What was created for this id so far is linked to it, and nothing else is. */
  predicate CreationsLinked(s: State, id: Internal) {
    && |Creations(s, id)| <= 1
    && forall c :: c in Creations(s, id) ==>
         LinkedBy(s, c.made, id) && forall e :: e in s.links && LinkedBy(s, e, id) ==> e == c.made
  }

  /** What holds of operation i, as long as nothing interfered. */
  predicate OperationOk(s: State, i: nat)
    requires i < |s.ids| == |s.phases|
  {
    var id := s.ids[i];
    match s.phases[i]
    case WillCreate => !Linked(s, id) && Creations(s, id) == []
    case Created(e) => !Linked(s, id) && Creations(s, id) == [Creation(e, id)] && e !in s.links && e in s.remote
    case WillUpdate(e) => e in s.links && s.links[e] == id && CreationsLinked(s, id)
    case _ => CreationsLinked(s, id)
  }

  predicate AllOperationsOk(s: State)
    requires |s.phases| == |s.ids|
  {
    forall i :: 0 <= i < |s.ids| ==> OperationOk(s, i)
  }

  /** Remote entities under way are known and told apart. */
  predicate MadeApart(s: State) {
    && (forall i :: 0 <= i < |s.phases| && s.phases[i].Created? ==> s.phases[i].made in s.remote)
    && (forall i, j :: 0 <= i < j < |s.phases| && s.phases[i].Created? && s.phases[j].Created? ==>
      s.phases[i].made != s.phases[j].made)
  }

  /** Two operations on one id only where the id is linked, and so never created. */
  predicate IdsApart(s: State) {
    forall i, j :: 0 <= i < j < |s.ids| && s.ids[i] == s.ids[j] ==> Linked(s, s.ids[i])
  }

  predicate Inv(s: State) {
    && |s.phases| == |s.ids| && s.buried <= s.links.Keys <= s.remote && MadeApart(s)
    && (forall c :: c in s.created ==> c.id in s.ids && c.made in s.remote)
    && (s.clean ==>
         && IdsApart(s) && AllOperationsOk(s)
         && forall c :: c in s.updated ==> c.made in s.links && s.links[c.made] == c.id)
  }

  lemma StepKeepsLinked(s: State, a: Action, id: Internal)
    requires |s.phases| == |s.ids| && Linked(s, id)
    ensures Linked(Step(s, a), id) || (a.Bury? && a.e in s.links && s.links[a.e] == id)
  {
    var e :| e in s.links && LinkedBy(s, e, id);
    assert e in Step(s, a).links;
  }

  lemma StepKeepsApart(s: State, a: Action)
    requires |s.phases| == |s.ids| && IdsApart(s) && Step(s, a).clean
    ensures IdsApart(Step(s, a))
  {
    var s' := Step(s, a);
    forall i, j | 0 <= i < j < |s.ids| && s.ids[i] == s.ids[j]
      ensures Linked(s', s.ids[i])
    {
      StepKeepsLinked(s, a, s.ids[i]);
      assert Shared(s', s.ids[i]);
    }
  }

  /** An operation that is about to create, or has just created, is the only one on its id. */
  lemma UnlinkedIsAlone(s: State, i: nat, j: nat)
    requires |s.phases| == |s.ids| && IdsApart(s) && i < |s.ids| && j < |s.ids| && i != j && !Linked(s, s.ids[i])
    ensures s.ids[j] != s.ids[i]
  {
  }

  lemma CreateKeepsInv(s: State, i: nat, e: External)
    requires Inv(s)
    ensures Inv(Step(s, Create(i, e)))
  {
    var s' := Step(s, Create(i, e));
    if s' != s && s.clean {
      StepKeepsApart(s, Create(i, e));
      forall j | 0 <= j < |s.ids|
        ensures OperationOk(s', j)
      {
        CreateKeepsOperation(s, i, e, j);
      }
    }
  }

  lemma CreateKeepsOperation(s: State, i: nat, e: External, j: nat)
    requires Inv(s) && s.clean && i < |s.ids| && j < |s.ids| && s.phases[i].WillCreate? && e !in s.remote
    ensures OperationOk(Step(s, Create(i, e)), j)
  {
    var s', c := Step(s, Create(i, e)), Creation(e, s.ids[i]);
    assert OperationOk(s, i) && OperationOk(s, j);
    if j != i {
      UnlinkedIsAlone(s, i, j);
    }
    FilterAppend((x: Creation) => x.id == s.ids[j], s.created, [c]);
    assert Creations(s', s.ids[j]) == Creations(s, s.ids[j]) + (if j == i then [c] else []);
    assert Linked(s', s.ids[j]) == Linked(s, s.ids[j]);
  }

  lemma RecordKeepsInv(s: State, i: nat)
    requires Inv(s)
    ensures Inv(Step(s, Record(i)))
  {
    var s' := Step(s, Record(i));
    if s' != s && s.clean {
      StepKeepsApart(s, Record(i));
      var e := s.phases[i].made;
      assert OperationOk(s, i);
      forall j | 0 <= j < |s.ids|
        ensures OperationOk(s', j)
      {
        assert OperationOk(s, j);
        assert Creations(s', s.ids[j]) == Creations(s, s.ids[j]);
        if j != i {
          UnlinkedIsAlone(s, i, j);
          if Linked(s', s.ids[j]) {
            var e' :| e' in s'.links && LinkedBy(s', e', s.ids[j]);
            assert e' in s.links && LinkedBy(s, e', s.ids[j]);
          }
        }
      }
    }
  }

  lemma OtherLinkKeepsInv(s: State, e: External, id: Internal)
    requires Inv(s)
    ensures Inv(Step(s, OtherLink(e, id)))
  {
    var s' := Step(s, OtherLink(e, id));
    if s' != s && s'.clean {
      StepKeepsApart(s, OtherLink(e, id));
      forall j | 0 <= j < |s.ids|
        ensures OperationOk(s', j)
      {
        assert OperationOk(s, j);
        assert Creations(s', s.ids[j]) == Creations(s, s.ids[j]);
        if Linked(s', s.ids[j]) {
          var e' :| e' in s'.links && LinkedBy(s', e', s.ids[j]);
          assert e' in s.links && LinkedBy(s, e', s.ids[j]);
        }
      }
    }
  }

  lemma MissKeepsInv(s: State, i: nat)
    requires Inv(s)
    ensures Inv(Step(s, Miss(i)))
  {
    var s' := Step(s, Miss(i));
    if s' != s && s.clean {
      StepKeepsApart(s, Miss(i));
      forall j | 0 <= j < |s.ids|
        ensures OperationOk(s', j)
      {
        assert OperationOk(s, j);
        var cs := Creations(s, s.ids[j]);
        assert Creations(s', s.ids[j]) == cs;
        assert cs == [] || cs[0] in cs;
      }
    }
  }

  lemma OthersKeepInv(s: State, a: Action)
    requires Inv(s) && (a.Find? || a.Update? || a.Retry?)
    ensures Inv(Step(s, a))
  {
    var s' := Step(s, a);
    if s'.clean {
      StepKeepsApart(s, a);
      forall j | 0 <= j < |s.ids|
        ensures OperationOk(s', j)
      {
        assert OperationOk(s, j);
        assert Creations(s', s.ids[j]) == Creations(s, s.ids[j]);
        assert Linked(s', s.ids[j]) == Linked(s, s.ids[j]);
      }
      if a.Update? && s' != s {
        assert OperationOk(s, a.i);
      }
    }
  }

  lemma BuryKeepsInv(s: State, e: External)
    requires Inv(s)
    ensures Inv(Step(s, Bury(e)))
  {
    var s' := Step(s, Bury(e));
    if s' != s && s'.clean {
      StepKeepsApart(s, Bury(e));
      forall j | 0 <= j < |s.ids|
        ensures OperationOk(s', j)
      {
        BuryKeepsOperation(s, e, j);
      }
    }
  }

  lemma BuryKeepsOperation(s: State, e: External, j: nat)
    requires Inv(s) && Step(s, Bury(e)).clean && Step(s, Bury(e)) != s && j < |s.ids|
    ensures OperationOk(Step(s, Bury(e)), j)
  {
    var s', id := Step(s, Bury(e)), s.ids[j];
    assert OperationOk(s, j);
    assert Creations(s', id) == Creations(s, id);
    if Linked(s', id) {
      var x :| x in s'.links && LinkedBy(s', x, id);
      assert x in s.links && LinkedBy(s, x, id);
    } else if Linked(s, id) && Creations(s, id) != [] {
      StepKeepsLinked(s, Bury(e), id);
      assert Orphaned(s.(buried := s.buried + {e}), id) by {
        assert !Linked(s.(buried := s.buried + {e}), id);
      }
      assert false;
    }
  }

  lemma StepKeepsInv(s: State, a: Action)
    requires Inv(s)
    ensures Inv(Step(s, a))
  {
    match a
    case Create(i, e) => CreateKeepsInv(s, i, e);
    case Record(i) => RecordKeepsInv(s, i);
    case Miss(i) => MissKeepsInv(s, i);
    case OtherLink(e, id) => OtherLinkKeepsInv(s, e, id);
    case Bury(e) => BuryKeepsInv(s, e);
    case _ => OthersKeepInv(s, a);
  }

  lemma {:induction false} RunKeepsInv(s: State, steps: seq<Action>)
    requires Inv(s)
    ensures Inv(Run(s, steps))
    decreases |steps|
  {
    if steps != [] {
      StepKeepsInv(s, steps[0]);
      RunKeepsInv(Step(s, steps[0]), steps[1..]);
    }
  }

  lemma StartInv(s: State)
    requires ValidStart(s) && IdsApart(s)
    ensures Inv(s)
  {
  }

  // ----- what it means

  /**
   When no two operations are on one unlinked id: over any interleaving and any number of retries in
   which no attempt ends, and no other sync takes the new entity, between a remote create and
   its link, and in which no id loses its last link after a create, at most one remote entity is
   created per internal id; and every update goes to an entity that was linked to the id.
   */
  lemma CreatedAtMostOnce(s: State, steps: seq<Action>, id: Internal)
    requires ValidStart(s) && IdsApart(s) && Run(s, steps).clean
    ensures |Creations(Run(s, steps), id)| <= 1
    ensures forall c :: c in Run(s, steps).updated ==>
      c.made in Run(s, steps).links && Run(s, steps).links[c.made] == c.id
  {
    var t := Run(s, steps);
    StartInv(s);
    RunKeepsInv(s, steps);
    if id in s.ids {
      var i :| 0 <= i < |t.ids| && t.ids[i] == id;
      assert OperationOk(t, i);
    } else {
      FilterNone((c: Creation) => c.id == id, t.created);
    }
  }

  /** After a retry, an operation whose entity was created cannot miss, and finds that entity's link. */
  lemma CreatedThenUpdated(s: State, steps: seq<Action>, i: nat)
    requires ValidStart(s) && IdsApart(s) && Run(s, steps).clean
    requires i < |s.ids| && Run(s, steps).phases[i].Idle? && Creations(Run(s, steps), s.ids[i]) != []
    ensures var t := Run(s, steps);
      && Step(t, Miss(i)) == t
      && exists e :: Step(t, Find(i, e)).phases[i] == WillUpdate(e) && Creation(e, s.ids[i]) in t.created
  {
    var t := Run(s, steps);
    StartInv(s);
    RunKeepsInv(s, steps);
    assert OperationOk(t, i);
    var c := Creations(t, s.ids[i])[0];
    assert c in Creations(t, s.ids[i]);
    assert Step(t, Find(i, c.made)).phases[i] == WillUpdate(c.made);
  }

  // ----- the hypotheses are needed

  /** The external system never runs out of unused ids. */
  lemma UnusedIds(remote: set<External>) returns (e: External, f: External)
    ensures e !in remote && f !in remote && e != f
  {
    e := UnusedString(remote);
    f := UnusedString(remote + {e});
  }

  lemma TwoSteps(s: State, a: Action, b: Action)
    requires |s.phases| == |s.ids|
    ensures Run(s, [a, b]) == Step(Step(s, a), b)
  {
    assert [b][1..] == [] && Run(Step(s, a), [b]) == Step(Step(s, a), b);
    assert [a, b][1..] == [b];
  }

  lemma ThreeSteps(s: State, a: Action, b: Action, c: Action)
    requires |s.phases| == |s.ids|
    ensures Run(s, [a, b, c]) == Step(Step(Step(s, a), b), c)
  {
    TwoSteps(Step(s, a), b, c);
    assert [a, b, c][1..] == [b, c];
  }

  lemma FourSteps(s: State, a: Action, b: Action, c: Action, d: Action)
    requires |s.phases| == |s.ids|
    ensures Run(s, [a, b, c, d]) == Step(Step(Step(Step(s, a), b), c), d)
  {
    ThreeSteps(Step(s, a), b, c, d);
    assert [a, b, c, d][1..] == [b, c, d];
  }

  lemma OneMoreCreation(s: State, i: nat, e: External)
    requires |s.phases| == |s.ids| && i < |s.ids| && s.phases[i].WillCreate? && e !in s.remote
    ensures Creations(Step(s, Create(i, e)), s.ids[i]) == Creations(s, s.ids[i]) + [Creation(e, s.ids[i])]
  {
    FilterAppend((c: Creation) => c.id == s.ids[i], s.created, [Creation(e, s.ids[i])]);
  }

  /** Wherever two operations on one unlinked id start an attempt, both may miss the link and both create. */
  lemma SameIdCreatesTwice(s: State, i: nat, j: nat, e: External, f: External)
    requires |s.phases| == |s.ids| && i < j < |s.ids| && s.ids[i] == s.ids[j] && s.phases[i].Idle? && s.phases[j].Idle?
    requires !Linked(s, s.ids[i]) && e !in s.remote && f !in s.remote && e != f
    ensures var t := Run(s, [Miss(i), Miss(j), Create(i, e), Create(j, f)]);
      t.clean == s.clean && |Creations(t, s.ids[i])| == |Creations(s, s.ids[i])| + 2
  {
    FourSteps(s, Miss(i), Miss(j), Create(i, e), Create(j, f));
    var s1 := Step(s, Miss(i));
    assert Linked(s1, s.ids[j]) == Linked(s, s.ids[j]);
    var s2 := Step(s1, Miss(j));
    OneMoreCreation(s2, i, e);
    OneMoreCreation(Step(s2, Create(i, e)), j, f);
  }

  /**
   So the condition on the ids is exact: every run without interference creates at most once per
   id if and only if no two operations are on one unlinked id.
   */
  lemma AtMostOnceIff(s: State)
    requires ValidStart(s)
    ensures (forall steps, id :: Run(s, steps).clean ==> |Creations(Run(s, steps), id)| <= 1) <==> IdsApart(s)
  {
    if IdsApart(s) {
      forall steps, id | Run(s, steps).clean
        ensures |Creations(Run(s, steps), id)| <= 1
      {
        CreatedAtMostOnce(s, steps, id);
      }
    } else {
      var i, j :| 0 <= i < j < |s.ids| && s.ids[i] == s.ids[j] && !Linked(s, s.ids[i]);
      var e, f := UnusedIds(s.remote);
      SameIdCreatesTwice(s, i, j, e, f);
    }
  }

  /** Idle and unlinked, but created once before: the operation creates again. */
  lemma CreatesAgain(s: State, i: nat, e: External)
    requires |s.phases| == |s.ids| && i < |s.ids| && s.phases[i].Idle? && !Linked(s, s.ids[i]) && e !in s.remote
    ensures |Creations(Step(Step(s, Miss(i)), Create(i, e)), s.ids[i])| == |Creations(s, s.ids[i])| + 1
  {
    OneMoreCreation(Step(s, Miss(i)), i, e);
  }

  /**
   In every reachable state in which an operation has created its entity and not yet linked it,
   an attempt that ends there leads to a second create.
   */
  lemma RetryInWindowCreatesTwice(s: State, i: nat, e: External)
    requires Inv(s) && s.clean && i < |s.ids| && s.phases[i].Created? && e !in s.remote
    ensures |Creations(Run(s, [Retry, Miss(i), Create(i, e)]), s.ids[i])| == 2
  {
    ThreeSteps(s, Retry, Miss(i), Create(i, e));
    assert OperationOk(s, i);
    var s1 := Step(s, Retry);
    assert Linked(s1, s.ids[i]) == Linked(s, s.ids[i]);
    CreatesAgain(s1, i, e);
  }

  /**
   In every such state, another sync that records the new entity first, under an id of its own,
   makes the link write of the operation miss; once this operation has settled, a retry for any
   other reason creates again.
   */
  lemma TakenInWindowCreatesTwice(s: State, i: nat, other: Internal, e: External)
    requires Inv(s) && s.clean && i < |s.ids| && s.phases[i].Created? && other !in s.ids && e !in s.remote
    ensures var taken := Run(s, [OtherLink(s.phases[i].made, other), Record(i)]);
      && taken.phases[i].Settled? && !Linked(taken, s.ids[i])
      && |Creations(Run(taken, [Retry, Miss(i), Create(i, e)]), s.ids[i])| == 2
  {
    TwoSteps(s, OtherLink(s.phases[i].made, other), Record(i));
    var taken := TakenIsUnlinked(s, i, other);
    var again := Step(taken, Retry);
    ThreeSteps(taken, Retry, Miss(i), Create(i, e));
    assert again.links == taken.links && again.created == taken.created;
    CreatesAgain(again, i, e);
  }

  lemma TakenIsUnlinked(s: State, i: nat, other: Internal) returns (taken: State)
    requires Inv(s) && s.clean && i < |s.ids| && s.phases[i].Created? && other !in s.ids
    ensures taken == Step(Step(s, OtherLink(s.phases[i].made, other)), Record(i))
    ensures taken.phases[i].Settled? && !Linked(taken, s.ids[i]) && |Creations(taken, s.ids[i])| == 1
    ensures taken.remote == s.remote && |taken.phases| == |taken.ids| && taken.ids == s.ids
  {
    var made := s.phases[i].made;
    assert OperationOk(s, i);
    taken := Step(Step(s, OtherLink(made, other)), Record(i));
    assert taken.created == s.created;
    assert taken.links == s.links[made := other];
    forall x | x in taken.links
      ensures !LinkedBy(taken, x, s.ids[i])
    {
      assert x in s.links ==> !LinkedBy(s, x, s.ids[i]);
    }
  }

  /**
   In every such state, when the link of an entity that an operation created is buried, by a deletion,
   a merge or a detection, the operation creates another one in the next attempt.
   */
  lemma BuriedLinkCreatesTwice(s: State, i: nat, made: External, e: External)
    requires Inv(s) && s.clean && i < |s.ids| && LinkedBy(s, made, s.ids[i]) && Creations(s, s.ids[i]) != []
      && e !in s.remote
    ensures |Creations(Run(Step(s, Bury(made)), [Retry, Miss(i), Create(i, e)]), s.ids[i])| == 2
  {
    var id, s1 := s.ids[i], Step(s, Bury(made));
    assert OperationOk(s, i) && made in s.links;
    var c := Creations(s, id)[0];
    assert c in Creations(s, id) && c.made == made;
    ThreeSteps(s1, Retry, Miss(i), Create(i, e));
    var again := Step(s1, Retry);
    forall x | x in again.links
      ensures !LinkedBy(again, x, id)
    {
      assert x in s.links ==> (LinkedBy(s, x, id) ==> x == made);
    }
    assert Creations(again, id) == Creations(s, id);
    CreatesAgain(again, i, e);
  }

  /** And when the last link of an id with two operations is buried, both create. */
  lemma SharedIdBuriedCreatesTwice(s: State, i: nat, j: nat, made: External, e: External, f: External)
    requires |s.phases| == |s.ids| && i < j < |s.ids| && s.ids[i] == s.ids[j] && !Linked(Step(s, Bury(made)), s.ids[i])
    requires Creations(s, s.ids[i]) == [] && e !in s.remote && f !in s.remote && e != f
    ensures |Creations(Run(Step(s, Bury(made)), [Retry, Miss(i), Miss(j), Create(i, e), Create(j, f)]), s.ids[i])| == 2
  {
    var s1 := Step(s, Bury(made));
    var again, rest := Step(s1, Retry), [Miss(i), Miss(j), Create(i, e), Create(j, f)];
    assert Creations(again, s.ids[i]) == Creations(s, s.ids[i]);
    forall x | x in again.links
      ensures !LinkedBy(again, x, s.ids[i])
    {
      assert x in s1.links && !LinkedBy(s1, x, s.ids[i]);
    }
    SameIdCreatesTwice(again, i, j, e, f);
    assert [Retry, Miss(i), Miss(j), Create(i, e), Create(j, f)] == [Retry] + rest;
    assert ([Retry] + rest)[1..] == rest;
  }

  /** So interference is exactly what is excluded: each step that interferes can lead to a second create. */
  lemma InterferenceCreatesTwice(s: State, a: Action)
    requires Inv(s) && s.clean && !Step(s, a).clean
    ensures exists i, steps :: 0 <= i < |s.ids| && |Creations(Run(Step(s, a), steps), s.ids[i])| == 2
  {
    var e, f := UnusedIds(s.remote);
    match a
    case Retry =>
      var i :| 0 <= i < |s.phases| && s.phases[i].Created?;
      RetryInWindowCreatesTwice(s, i, e);
      ThreeSteps(s, Retry, Miss(i), Create(i, e));
      TwoSteps(Step(s, Retry), Miss(i), Create(i, e));
      assert |Creations(Run(Step(s, a), [Miss(i), Create(i, e)]), s.ids[i])| == 2;
    case OtherLink(made, other) =>
      var i :| 0 <= i < |s.phases| && s.phases[i] == Created(made);
      TakenInWindowCreatesTwice(s, i, other, e);
      TwoSteps(s, a, Record(i));
      var taken := Step(Step(s, a), Record(i));
      ThreeSteps(taken, Retry, Miss(i), Create(i, e));
      FourSteps(Step(s, a), Record(i), Retry, Miss(i), Create(i, e));
      assert |Creations(Run(Step(s, a), [Record(i), Retry, Miss(i), Create(i, e)]), s.ids[i])| == 2;
    case Bury(made) =>
      OrphaningCreatesTwice(s, made, e, f);
  }

  lemma OrphaningCreatesTwice(s: State, made: External, e: External, f: External)
    requires Inv(s) && s.clean && !Step(s, Bury(made)).clean && e !in s.remote && f !in s.remote && e != f
    ensures exists i, steps :: 0 <= i < |s.ids| && |Creations(Run(Step(s, Bury(made)), steps), s.ids[i])| == 2
  {
    var id := s.links[made];
    if Creations(s, id) != [] {
      var c := Creations(s, id)[0];
      assert c in Creations(s, id) && c in s.created;
      var i :| 0 <= i < |s.ids| && s.ids[i] == id;
      BuriedLinkCreatesTwice(s, i, made, e);
    } else {
      var i, j :| 0 <= i < j < |s.ids| && s.ids[i] == s.ids[j] == id;
      var buried := s.(buried := s.buried + {made});
      forall x | x in Step(s, Bury(made)).links
        ensures !LinkedBy(Step(s, Bury(made)), x, id)
      {
        assert x in buried.links && !LinkedBy(buried, x, id);
      }
      SharedIdBuriedCreatesTwice(s, i, j, made, e, f);
    }
  }

  /**
   The link written after a create carries the pushed internal id, unless the table already
   has a row for the new external id, which then keeps its entity; as the step Record says.
   */
  lemma RecordWritesLink(
    t: map<Tables.LinkKey, Tables.Link>, org: string, input: LinkTable.LinkInput, now: int, id: Internal)
    requires input.entityId == Some(id) && id != ""
    ensures LinkTable.LinkAfter(t, org, input, now).entityId ==
      if LinkTable.KeyOf(org, input) in t then t[LinkTable.KeyOf(org, input)].entityId else id
  {
  }
}
