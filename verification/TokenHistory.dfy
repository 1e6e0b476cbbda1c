/**
 Where the tokens of the protocol come from, and how far the table can be from the shared state:
 a second invariant of every run, which holds whether or not new tokens were lost.
 */
module TokenHistory {
  import opened TokenProtocol
  import opened Wrappers

  /** The state was loaded from the table the run began with, or issued by an answered refresh. */
  predicate Came(s: State, table0: map<RowKey, TokenRow>, t: TokenState) {
    || (CanLoad(table0, s.tokenKey, t.key) && t == TokenState(table0[t.key], t.key, s.tokenKey))
    || exists i :: 0 <= i < |s.calls| && s.calls[i].issued == t
  }

  predicate PhaseTraced(s: State, table0: map<RowKey, TokenRow>, p: Phase) {
    match p
    case Loaded(t) => Came(s, table0, t)
    case HasState(_, t) => Came(s, table0, t)
    case Rechecking(_, t) => Came(s, table0, t)
    case Saved(_, _, n, _) => Stored(s.table, n)
    case LeavingRefresh(_, CheckedAt(_, t)) => Came(s, table0, t)
    case Done(_, CheckedAt(_, t)) => Came(s, table0, t)
    case _ => true
  }

  /** The table holds the tokens, or what some refresh of exactly these tokens gave. */
  predicate AtMostOneAhead(s: State, t: TokenState) {
    Stored(s.table, t) || exists i :: 0 <= i < |s.calls| && s.calls[i].sent == t && Stored(s.table, s.calls[i].issued)
  }

  predicate SharedTraced(s: State, table0: map<RowKey, TokenRow>) {
    && (s.cache.None? ==> s.table == table0)
    && (forall r :: 0 <= r < |s.refs| ==> Came(s, table0, s.refs[r]))
    && (forall i :: 0 <= i < |s.calls| ==> s.calls[i].issued.key == s.calls[i].sent.key)
    && (s.cache.Some? && s.cache.value < |s.refs| ==> AtMostOneAhead(s, s.refs[s.cache.value]))
  }

  predicate Traced(s: State, table0: map<RowKey, TokenRow>) {
    && SharedTraced(s, table0)
    && forall f :: f in s.fibers ==> PhaseTraced(s, table0, s.fibers[f])
  }

  lemma InitTraced(tokenKey: string, now: int, table0: map<RowKey, TokenRow>)
    ensures Traced(Init(tokenKey, now, table0), table0)
  {
  }

  /** What came from somewhere still does after more calls. */
  lemma CameStays(s: State, s': State, table0: map<RowKey, TokenRow>, t: TokenState)
    requires s'.tokenKey == s.tokenKey && s.calls <= s'.calls && Came(s, table0, t)
    ensures Came(s', table0, t)
  {
    if i :| 0 <= i < |s.calls| && s.calls[i].issued == t {
      assert s'.calls[i] == s.calls[i];
    }
  }

  /** The other fibers stay traced as long as the tokens that one of them has saved stay in the table. */
  lemma OthersStayTraced(s: State, s': State, table0: map<RowKey, TokenRow>, f: Fiber)
    requires Traced(s, table0) && s'.tokenKey == s.tokenKey && s.calls <= s'.calls
    requires f in s'.fibers && s'.fibers == s.fibers[f := s'.fibers[f]]
    requires s'.table == s.table || forall g :: g in s.fibers && g != f ==> !s.fibers[g].Saved?
    requires PhaseTraced(s', table0, s'.fibers[f])
    ensures forall g :: g in s'.fibers ==> PhaseTraced(s', table0, s'.fibers[g])
  {
    forall g | g in s'.fibers && g != f
      ensures PhaseTraced(s', table0, s'.fibers[g])
    {
      match s.fibers[g]
      case Loaded(t) => CameStays(s, s', table0, t);
      case HasState(_, t) => CameStays(s, s', table0, t);
      case Rechecking(_, t) => CameStays(s, s', table0, t);
      case LeavingRefresh(_, CheckedAt(_, t)) => CameStays(s, s', table0, t);
      case Done(_, CheckedAt(_, t)) => CameStays(s, s', table0, t);
      case _ =>
    }
  }

  lemma RefsStayTraced(s: State, s': State, table0: map<RowKey, TokenRow>)
    requires SharedTraced(s, table0) && s'.tokenKey == s.tokenKey && s.calls <= s'.calls && s'.refs == s.refs
    ensures forall r :: 0 <= r < |s'.refs| ==> Came(s', table0, s'.refs[r])
  {
    forall r | 0 <= r < |s'.refs|
      ensures Came(s', table0, s'.refs[r])
    {
      CameStays(s, s', table0, s.refs[r]);
    }
  }

  /** A step that changes only phases and locks, and what is recorded of sendings. */
  predicate OnlyPhases(s: State, s': State, f: Fiber) {
    && s'.tokenKey == s.tokenKey && s'.table == s.table && s'.cache == s.cache && s'.refs == s.refs
      && s'.calls == s.calls
    && f in s'.fibers && s'.fibers == s.fibers[f := s'.fibers[f]]
  }

  lemma PhaseStepKeepsTraced(s: State, s': State, table0: map<RowKey, TokenRow>, f: Fiber)
    requires Traced(s, table0) && OnlyPhases(s, s', f) && PhaseTraced(s', table0, s'.fibers[f])
    ensures Traced(s', table0)
  {
    RefsStayTraced(s, s', table0);
    OthersStayTraced(s, s', table0, f);
    assert s.cache.Some? && s.cache.value < |s.refs| && AtMostOneAhead(s, s.refs[s.cache.value]) ==>
      AtMostOneAhead(s', s.refs[s.cache.value]);
  }

  lemma MovingKeepsTraced(s: State, table0: map<RowKey, TokenRow>, f: Fiber)
    requires Inv(s) && Traced(s, table0) && Moves(PhaseOf(s, f))
    ensures RefsExist(s) && Traced(AdvanceStep(s, f), table0)
  {
    EveryFiberIsOk(s, f);
    MovingOnlyMoves(s, f);
    var s' := AdvanceStep(s, f);
    if s' != s {
      MovedPhaseTraced(s, table0, f);
      PhaseStepKeepsTraced(s, s', table0, f);
    }
  }

  lemma MovedPhaseTraced(s: State, table0: map<RowKey, TokenRow>, f: Fiber)
    requires RefsExist(s) && Moves(PhaseOf(s, f)) && PhaseTraced(s, table0, PhaseOf(s, f))
    requires forall r :: 0 <= r < |s.refs| ==> Came(s, table0, s.refs[r])
    ensures PhaseTraced(AdvanceStep(s, f), table0, PhaseOf(AdvanceStep(s, f), f))
  {
    assert forall t :: Came(AdvanceStep(s, f), table0, t) <==> Came(s, table0, t);
  }

  lemma LoadKeepsTraced(s: State, table0: map<RowKey, TokenRow>, f: Fiber, key: RowKey)
    requires Inv(s) && Traced(s, table0)
    ensures RefsExist(s) && Traced(Step(s, Load(f, key)), table0)
  {
    EveryFiberIsOk(s, f);
    var s' := Step(s, Load(f, key));
    if s' != s {
      PhaseStepKeepsTraced(s, s', table0, f);
    }
  }

  lemma LoadedKeepsTraced(s: State, table0: map<RowKey, TokenRow>, f: Fiber)
    requires Inv(s) && Traced(s, table0) && PhaseOf(s, f).Loaded?
    ensures RefsExist(s) && Traced(AdvanceStep(s, f), table0)
  {
    EveryFiberIsOk(s, f);
    var s' := AdvanceStep(s, f);
    assert forall t :: Came(s', table0, t) <==> Came(s, table0, t);
    OthersStayTraced(s, s', table0, f);
  }

  lemma MadeRefKeepsTraced(s: State, table0: map<RowKey, TokenRow>, f: Fiber)
    requires Inv(s) && Traced(s, table0) && PhaseOf(s, f).MadeRef?
    ensures RefsExist(s) && Traced(AdvanceStep(s, f), table0)
  {
    EveryFiberIsOk(s, f);
    var s' := AdvanceStep(s, f);
    RefsStayTraced(s, s', table0);
    OthersStayTraced(s, s', table0, f);
  }

  /** Setting the Ref: the tokens it gets are in the table. */
  lemma SavedKeepsTraced(s: State, table0: map<RowKey, TokenRow>, f: Fiber)
    requires Inv(s) && Traced(s, table0) && PhaseOf(s, f).Saved?
    ensures RefsExist(s) && Traced(AdvanceStep(s, f), table0)
  {
    EveryFiberIsOk(s, f);
    var s' := AdvanceStep(s, f);
    var p := PhaseOf(s, f);
    assert s.calls[p.call].issued == p.minted;
    assert forall t :: Came(s', table0, t) <==> Came(s, table0, t);
    OthersStayTraced(s, s', table0, f);
  }

  lemma AnswerKeepsTraced(
    s: State, table0: map<RowKey, TokenRow>, f: Fiber, access: string, refresh: string, expiresIn: int)
    requires Inv(s) && Traced(s, table0)
    ensures RefsExist(s) && Traced(Step(s, Answer(f, access, refresh, expiresIn)), table0)
  {
    EveryFiberIsOk(s, f);
    var s' := Step(s, Answer(f, access, refresh, expiresIn));
    if s' != s {
      RefsStayTraced(s, s', table0);
      OthersStayTraced(s, s', table0, f);
      AheadStays(s, s');
    }
  }

  lemma AheadStays(s: State, s': State)
    requires s'.table == s.table && s.calls <= s'.calls
    ensures forall t :: AtMostOneAhead(s, t) ==> AtMostOneAhead(s', t)
  {
    forall t | AtMostOneAhead(s, t)
      ensures AtMostOneAhead(s', t)
    {
      if i :| 0 <= i < |s.calls| && s.calls[i].sent == t && Stored(s.table, s.calls[i].issued) {
        assert s'.calls[i] == s.calls[i];
      }
    }
  }

  /** Writing what a refresh of the shared tokens gave: the table is then one refresh ahead. */
  lemma SaveKeepsTraced(s: State, s': State, table0: map<RowKey, TokenRow>, f: Fiber)
    requires Inv(s) && Traced(s, table0) && PhaseOf(s, f).Minted?
    requires s'.tokenKey == s.tokenKey && s'.cache == s.cache && s'.refs == s.refs && s'.calls == s.calls
    requires s'.table == Save(s.table, PhaseOf(s, f).minted)
    requires f in s'.fibers && s'.fibers == s.fibers[f := s'.fibers[f]]
    requires s'.fibers[f].Failed?
      || s'.fibers[f] == Saved(PhaseOf(s, f).ref, PhaseOf(s, f).state, PhaseOf(s, f).minted, PhaseOf(s, f).call)
    ensures Traced(s', table0)
  {
    EveryFiberIsOk(s, f);
    var p := PhaseOf(s, f);
    assert s.calls[p.call].issued == p.minted && s.calls[p.call].sent == p.state;
    assert p.state.key in s.table;
    assert Stored(s'.table, p.minted);
    forall g | g in s.fibers && g != f
      ensures !s.fibers[g].Saved?
    {
      assert PhaseOk(s, g, s.fibers[g]);
    }
    RefsStayTraced(s, s', table0);
    OthersStayTraced(s, s', table0, f);
  }

  lemma LeavingKeepsTraced(s: State, s': State, table0: map<RowKey, TokenRow>, f: Fiber)
    requires Traced(s, table0) && OnlyPhases(s, s', f) && s'.fibers[f].Failed?
    ensures Traced(s', table0)
  {
    PhaseStepKeepsTraced(s, s', table0, f);
  }

  lemma AdvanceKeepsTraced(s: State, table0: map<RowKey, TokenRow>, f: Fiber)
    requires Inv(s) && Traced(s, table0)
    ensures RefsExist(s) && Traced(AdvanceStep(s, f), table0)
  {
    match PhaseOf(s, f)
    case Loaded(_) => LoadedKeepsTraced(s, table0, f);
    case MadeRef(_) => MadeRefKeepsTraced(s, table0, f);
    case Saved(_, _, _, _) => SavedKeepsTraced(s, table0, f);
    case p =>
      if Moves(p) {
        MovingKeepsTraced(s, table0, f);
      }
  }

  lemma TickKeepsTraced(s: State, table0: map<RowKey, TokenRow>, elapsed: nat)
    requires Inv(s) && Traced(s, table0)
    ensures RefsExist(s) && Traced(Step(s, Tick(elapsed)), table0)
  {
    var s' := Step(s, Tick(elapsed));
    assert forall t :: Came(s', table0, t) <==> Came(s, table0, t);
    assert forall t :: AtMostOneAhead(s', t) <==> AtMostOneAhead(s, t);
  }

  /** Every step of every fiber keeps the trace, failures and losses included. */
  lemma StepKeepsTraced(s: State, table0: map<RowKey, TokenRow>, a: Action)
    requires Inv(s) && Traced(s, table0)
    ensures RefsExist(s) && Traced(Step(s, a), table0)
  {
    EveryFiberIsOk(s, 0);
    match a
    case Tick(elapsed) => TickKeepsTraced(s, table0, elapsed);
    case Advance(f) => AdvanceKeepsTraced(s, table0, f);
    case Load(f, key) => LoadKeepsTraced(s, table0, f, key);
    case Answer(f, access, refresh, expiresIn) => AnswerKeepsTraced(s, table0, f, access, refresh, expiresIn);
    case SaveOk(f) => if Step(s, a) != s { SaveKeepsTraced(s, Step(s, a), table0, f); }
    case SaveFails(f, applied) => SaveFailsKeepsTraced(s, table0, f, applied);
    case _ => FailingKeepsTraced(s, table0, a);
  }

  lemma SaveFailsKeepsTraced(s: State, table0: map<RowKey, TokenRow>, f: Fiber, applied: bool)
    requires Inv(s) && Traced(s, table0)
    ensures RefsExist(s) && Traced(Step(s, SaveFails(f, applied)), table0)
  {
    EveryFiberIsOk(s, f);
    var s' := Step(s, SaveFails(f, applied));
    if s' != s {
      if applied {
        SaveKeepsTraced(s, s', table0, f);
      } else {
        LeavingKeepsTraced(s, s', table0, f);
      }
    }
  }

  lemma FailingKeepsTraced(s: State, table0: map<RowKey, TokenRow>, a: Action)
    requires Inv(s) && Traced(s, table0) && (a.Refuse? || a.LoseAnswer? || a.Stop?)
    ensures RefsExist(s) && Traced(Step(s, a), table0)
  {
    EveryFiberIsOk(s, a.f);
    if Step(s, a) != s {
      LeavingKeepsTraced(s, Step(s, a), table0, a.f);
    }
  }

  lemma {:induction false} RunKeepsTraced(s: State, table0: map<RowKey, TokenRow>, steps: seq<Action>, s': State)
    requires Inv(s) && Traced(s, table0) && Leads(s, steps, s')
    ensures Inv(s') && Traced(s', table0)
    decreases |steps|
  {
    if steps != [] {
      StepKeepsInv(s, steps[0]);
      StepKeepsTraced(s, table0, steps[0]);
      RunKeepsTraced(Step(s, steps[0]), table0, steps[1..], s');
    }
  }

  lemma ReachableTraced(s: State, tokenKey: string, now: int, table0: map<RowKey, TokenRow>, steps: seq<Action>)
    requires Reachable(s, tokenKey, now, table0, steps)
    ensures Inv(s) && Traced(s, table0)
  {
    InitInv(tokenKey, now, table0);
    InitTraced(tokenKey, now, table0);
    RunKeepsTraced(Init(tokenKey, now, table0), table0, steps, s);
  }

  lemma {:induction false} RunKeepsTokenKey(s: State, steps: seq<Action>, s': State)
    requires Leads(s, steps, s')
    ensures s'.tokenKey == s.tokenKey
    decreases |steps|
  {
    if steps != [] {
      RunKeepsTokenKey(Step(s, steps[0]), steps[1..], s');
    }
  }

  // ----- what it means

  /**
   The table is never behind the cache: at every reachable state it holds the Ref's tokens, or
   what one refresh of exactly these tokens gave. As long as no new tokens were lost, it holds
   the Ref's tokens whenever the refresh lock is free.
   */
  lemma TableIsNeverBehind(s: State, tokenKey: string, now: int, table0: map<RowKey, TokenRow>, steps: seq<Action>)
    requires Reachable(s, tokenKey, now, table0, steps) && s.cache.Some?
    ensures s.cache.value < |s.refs|
    ensures var t := s.refs[s.cache.value];
      && t.key in s.table
      && (s.table[t.key] == t.row
          || exists i :: 0 <= i < |s.calls| && s.calls[i].sent == t && s.calls[i].issued.row == s.table[t.key])
      && (!s.lost && s.refreshLock.None? ==> s.table[t.key] == t.row)
  {
    ReachableTraced(s, tokenKey, now, table0, steps);
  }

  /**
   Every token a fiber returns was minted by its own call, or belongs to a state that had a
   minute left when the fiber looked, and that was loaded from the table or issued by a refresh.
   */
  lemma ReturnedTokensAreGood(
    s: State, tokenKey: string, now: int, table0: map<RowKey, TokenRow>, steps: seq<Action>, f: Fiber)
    requires Reachable(s, tokenKey, now, table0, steps) && PhaseOf(s, f).Done?
    ensures match PhaseOf(s, f).origin
      case CheckedAt(at, t) =>
        && at + 60_000 <= t.row.createdAt + t.row.expiresIn * 1000
        && at <= s.now && PhaseOf(s, f).access == t.row.access
        && ((t.key in table0 && t.key.org == tokenKey && t.key.adapter == "pco"
             && t == TokenState(table0[t.key], t.key, tokenKey))
            || exists i :: 0 <= i < |s.calls| && s.calls[i].issued == t)
      case MintedByCall(call) =>
        && call < |s.calls| && s.calls[call].fiber == f
        && PhaseOf(s, f).access == s.calls[call].issued.row.access
  {
    ReachableTraced(s, tokenKey, now, table0, steps);
    RunKeepsTokenKey(Init(tokenKey, now, table0), steps, s);
    assert PhaseOk(s, f, s.fibers[f]);
  }
}
