/**
 Runs in which one refresh token is sent to the provider more than once: after a call that is
 refused, and, though the provider took the token, after a save that fails. From any state of the
 invariant where it can happen, and from the start, for any row.
 */
module TokenResends {
  import opened Strings
  import opened TokenProtocol
  import opened Wrappers

  lemma {:induction false} LeadsJoin(s: State, steps: seq<Action>, m: State, more: seq<Action>, s': State)
    requires Leads(s, steps, m) && Leads(m, more, s')
    ensures Leads(s, steps + more, s')
    decreases |steps|
  {
    if steps == [] {
      assert steps + more == more;
    } else {
      assert (steps + more)[1..] == steps[1..] + more;
      LeadsJoin(Step(s, steps[0]), steps[1..], m, more, s');
    }
  }

  lemma OneStepLeads(s: State, a: Action)
    requires RefsExist(s)
    ensures Leads(s, [a], Step(s, a))
  {
    assert [a][1..] == [];
  }

  /** One more step of a run, to a state that is given. */
  lemma Goes(s: State, steps: seq<Action>, m: State, a: Action, s': State)
    requires Leads(s, steps, m) && RefsExist(m) && Step(m, a) == s'
    ensures Leads(s, steps + [a], s')
  {
    OneStepLeads(m, a);
    LeadsJoin(s, steps, m, [a], s');
  }

  /** A fiber that waits for the free refresh lock, with an expired Ref, gets to call the provider. */
  lemma WaitingFiberCalls(s: State, g: Fiber) returns (steps: seq<Action>, s': State)
    requires RefsExist(s) && PhaseOf(s, g).WantRefresh? && s.refreshLock.None?
    requires PhaseOf(s, g).ref < |s.refs| && !Fresh(s.refs[PhaseOf(s, g).ref], s.now)
    ensures Leads(s, steps, s') && RefsExist(s')
    ensures s' == s.(fibers := s.fibers[g := Calling(PhaseOf(s, g).ref, s.refs[PhaseOf(s, g).ref], s.now)],
      refreshLock := Some(g))
  {
    var r, a := PhaseOf(s, g).ref, Advance(g);
    var s1 := s.(fibers := s.fibers[g := InRefresh(r)], refreshLock := Some(g));
    var s2 := s1.(fibers := s1.fibers[g := Rechecking(r, s.refs[r])]);
    s' := s2.(fibers := s2.fibers[g := Calling(r, s.refs[r], s.now)]);
    OneStepLeads(s, a);
    assert s1 == Step(s, a);
    Goes(s, [a], s1, a, s2);
    Goes(s, [a] + [a], s2, a, s');
    steps := [a] + [a] + [a];
    assert s' == s.(fibers := s.fibers[g := Calling(r, s.refs[r], s.now)], refreshLock := Some(g));
  }

  /** It gets an answer. */
  lemma WaitingFiberIsAnswered(s: State, g: Fiber, access: string, refresh: string, expiresIn: int)
    returns (steps: seq<Action>, s': State)
    requires RefsExist(s) && PhaseOf(s, g).WantRefresh? && s.refreshLock.None? && refresh !in s.known
    requires PhaseOf(s, g).ref < |s.refs| && !Fresh(s.refs[PhaseOf(s, g).ref], s.now)
    ensures Leads(s, steps, s')
    ensures s'.sent == s.sent + [Sending(s.refs[PhaseOf(s, g).ref].row.refresh, true)] && s'.lost == s.lost
  {
    var before, m := WaitingFiberCalls(s, g);
    var answer := Answer(g, access, refresh, expiresIn);
    s' := Step(m, answer);
    Goes(s, before, m, answer, s');
    steps := before + [answer];
  }

  /**
   When a save fails, the next fiber to get the refresh lock finds the old state in the Ref and
   sends its spent token again, for any state with less than a minute left.
   */
  lemma FailedSaveSpendsAgain(s: State, f: Fiber, g: Fiber, access: string, refresh: string, expiresIn: int)
    returns (steps: seq<Action>, s': State)
    requires Inv(s) && PhaseOf(s, f).Minted? && PhaseOf(s, g).WantRefresh? && refresh !in s.known
    requires !Fresh(PhaseOf(s, f).state, s.now)
    ensures Leads(s, steps, s')
    ensures Spent(s.sent, PhaseOf(s, f).state.row.refresh)
    ensures s'.sent == s.sent + [Sending(PhaseOf(s, f).state.row.refresh, true)]
  {
    EveryFiberIsOk(s, f);
    EveryFiberIsOk(s, g);
    assert s.calls[PhaseOf(s, f).call].sent == PhaseOf(s, f).state;
    SaveFailsKeepsInv(s, f, false);
    var s1 := Step(s, SaveFails(f, false));
    EveryFiberIsOk(s1, g);
    OneStepLeads(s, SaveFails(f, false));
    var more;
    more, s' := WaitingFiberIsAnswered(s1, g, access, refresh, expiresIn);
    steps := [SaveFails(f, false)] + more;
    LeadsJoin(s, [SaveFails(f, false)], s1, more, s');
  }

  /** When a call is refused, the token stays good, and the next fiber sends it again; nothing is lost by it. */
  lemma RefusedCallSendsAgain(s: State, f: Fiber, g: Fiber, access: string, refresh: string, expiresIn: int)
    returns (steps: seq<Action>, s': State)
    requires Inv(s) && PhaseOf(s, f).Calling? && PhaseOf(s, g).WantRefresh? && refresh !in s.known
    requires !Fresh(PhaseOf(s, f).state, s.now)
    ensures Leads(s, steps, s') && s'.lost == s.lost
    ensures s'.sent == s.sent
      + [Sending(PhaseOf(s, f).state.row.refresh, false), Sending(PhaseOf(s, f).state.row.refresh, true)]
  {
    var s1 := RefusedWhileWaiting(s, f, g);
    OneStepLeads(s, Refuse(f));
    var more;
    more, s' := WaitingFiberIsAnswered(s1, g, access, refresh, expiresIn);
    steps := [Refuse(f)] + more;
    LeadsJoin(s, [Refuse(f)], s1, more, s');
  }

  lemma RefusedWhileWaiting(s: State, f: Fiber, g: Fiber) returns (s': State)
    requires Inv(s) && PhaseOf(s, f).Calling? && PhaseOf(s, g).WantRefresh?
    ensures RefsExist(s) && s' == Step(s, Refuse(f)) && RefsExist(s')
    ensures s'.refreshLock.None? && s'.known == s.known && s'.now == s.now && s'.lost == s.lost && s'.refs == s.refs
    ensures s'.sent == s.sent + [Sending(PhaseOf(s, f).state.row.refresh, false)]
    ensures PhaseOf(s', g) == PhaseOf(s, g) && PhaseOf(s, g).ref < |s.refs|
      && s.refs[PhaseOf(s, g).ref] == PhaseOf(s, f).state
  {
    EveryFiberIsOk(s, f);
    EveryFiberIsOk(s, g);
    s' := Step(s, Refuse(f));
  }

  /** The state when the provider has answered, and the state when the answer is saved. */
  function Answered(s: State, f: Fiber, access: string, refresh: string, expiresIn: int): (s': State)
    requires PhaseOf(s, f).Calling?
  {
    var p := PhaseOf(s, f);
    var n := TokenState(TokenRow(access, refresh, s.now, expiresIn), p.state.key, p.state.tokenKey);
    s.(fibers := s.fibers[f := Minted(p.ref, p.state, n, |s.calls|)],
       sent := s.sent + [Sending(p.state.row.refresh, true)],
       calls := s.calls + [Call(f, p.state, p.checked, n)], known := s.known + {refresh})
  }

  lemma Answers(s: State, f: Fiber, access: string, refresh: string, expiresIn: int)
    requires Inv(s) && PhaseOf(s, f).Calling? && refresh !in s.known
    ensures RefsExist(s) && Step(s, Answer(f, access, refresh, expiresIn)) == Answered(s, f, access, refresh, expiresIn)
    ensures Inv(Answered(s, f, access, refresh, expiresIn))
  {
    AnswerKeepsInv(s, f, access, refresh, expiresIn);
  }

  lemma Saves(s: State, f: Fiber)
    requires Inv(s) && PhaseOf(s, f).Minted?
    ensures RefsExist(s) && Inv(Step(s, SaveOk(f)))
    ensures var p := PhaseOf(s, f);
      Step(s, SaveOk(f)) == s.(
        fibers := s.fibers[f := Saved(p.ref, p.state, p.minted, p.call)],
        table := if p.minted.key in s.table then s.table[p.minted.key := p.minted.row] else s.table)
  {
    SaveOkKeepsInv(s, f);
  }

  lemma AnswerAndSave(s: State, f: Fiber, access: string, refresh: string, expiresIn: int) returns (s': State)
    requires Inv(s) && PhaseOf(s, f).Calling? && refresh !in s.known
    ensures Inv(s') && Leads(s, [Answer(f, access, refresh, expiresIn)] + [SaveOk(f)], s')
    ensures var t, row := PhaseOf(s, f).state, TokenRow(access, refresh, s.now, expiresIn);
      s' == Answered(s, f, access, refresh, expiresIn).(
        fibers := s.fibers[f := Saved(PhaseOf(s, f).ref, t, TokenState(row, t.key, t.tokenKey), |s.calls|)],
        table := if t.key in s.table then s.table[t.key := row] else s.table)
  {
    var answer := Answer(f, access, refresh, expiresIn);
    var s1 := Answered(s, f, access, refresh, expiresIn);
    Answers(s, f, access, refresh, expiresIn);
    Saves(s1, f);
    s' := Step(s1, SaveOk(f));
    OneStepLeads(s, answer);
    Goes(s, [answer], s1, SaveOk(f), s');
  }

  lemma SetsRef(s: State, f: Fiber)
    requires RefsExist(s) && PhaseOf(s, f).Saved?
    ensures PhaseOf(s, f).ref < |s.refs|
    ensures var p := PhaseOf(s, f);
      Step(s, Advance(f)) == s.(
        fibers := s.fibers[f := LeavingRefresh(p.minted.row.access, MintedByCall(p.call))],
        refs := s.refs[p.ref := p.minted])
  {
  }

  lemma Releases(s: State, f: Fiber)
    requires RefsExist(s) && PhaseOf(s, f).LeavingRefresh?
    ensures Step(s, Advance(f)) ==
      s.(fibers := s.fibers[f := Done(PhaseOf(s, f).access, PhaseOf(s, f).origin)], refreshLock := None)
  {
  }

  lemma SetAndRelease(s: State, f: Fiber) returns (s': State)
    requires Inv(s) && PhaseOf(s, f).Saved?
    ensures Inv(s') && Leads(s, [Advance(f)] + [Advance(f)], s') && PhaseOf(s, f).ref < |s.refs|
    ensures s' == s.(
      fibers := s.fibers[f := Done(PhaseOf(s, f).minted.row.access, MintedByCall(PhaseOf(s, f).call))],
      refs := s.refs[PhaseOf(s, f).ref := PhaseOf(s, f).minted], refreshLock := None)
  {
    var p := PhaseOf(s, f);
    EveryFiberIsOk(s, f);
    SavedKeepsInv(s, f);
    var s1 := s.(fibers := s.fibers[f := LeavingRefresh(p.minted.row.access, MintedByCall(p.call))],
                 refs := s.refs[p.ref := p.minted]);
    SetsRef(s, f);
    EveryFiberIsOk(s1, f);
    AdvanceKeepsInv(s1, f);
    s' := Step(s1, Advance(f));
    Releases(s1, f);
    assert s1.fibers[f := Done(p.minted.row.access, MintedByCall(p.call))]
      == s.fibers[f := Done(p.minted.row.access, MintedByCall(p.call))];
    OneStepLeads(s, Advance(f));
    Goes(s, [Advance(f)], s1, Advance(f), s');
  }

  lemma AnswerSaveRelease(s: State, f: Fiber, access: string, refresh: string, expiresIn: int) returns (s': State)
    requires Inv(s) && PhaseOf(s, f).Calling? && refresh !in s.known
    ensures Leads(s, ([Answer(f, access, refresh, expiresIn)] + [SaveOk(f)]) + ([Advance(f)] + [Advance(f)]), s')
    ensures var p, row := PhaseOf(s, f), TokenRow(access, refresh, s.now, expiresIn);
      && p.ref < |s.refs|
      && s' == s.(
           fibers := s'.fibers, calls := s'.calls, known := s'.known, refreshLock := None,
           sent := s.sent + [Sending(p.state.row.refresh, true)],
           refs := s.refs[p.ref := TokenState(row, p.state.key, p.state.tokenKey)],
           table := if p.state.key in s.table then s.table[p.state.key := row] else s.table)
      && PhaseOf(s', f).Done? && PhaseOf(s', f).access == access
  {
    var s2 := AnswerAndSave(s, f, access, refresh, expiresIn);
    s' := SetAndRelease(s2, f);
    LeadsJoin(s, [Answer(f, access, refresh, expiresIn)] + [SaveOk(f)], s2, [Advance(f)] + [Advance(f)], s');
  }

  /**
   A refresh that goes through: the call sends the refresh token of the state it read, and what the
   provider answers, dated by the clock, replaces the row and the Ref, and nothing else in the table;
   the fiber returns the new access token and the lock is free.
   */
  lemma RefreshGoesThrough(s: State, f: Fiber, access: string, refresh: string, expiresIn: int)
    returns (steps: seq<Action>, s': State)
    requires Inv(s) && PhaseOf(s, f).Calling? && refresh !in s.known
    ensures steps == [Answer(f, access, refresh, expiresIn), SaveOk(f), Advance(f), Advance(f)] && Leads(s, steps, s')
    ensures var r, t, row := PhaseOf(s, f).ref, PhaseOf(s, f).state, TokenRow(access, refresh, s.now, expiresIn);
      && r < |s.refs| && t == s.refs[r]
      && PhaseOf(s', f).Done? && PhaseOf(s', f).access == access && s'.refreshLock.None?
      && s'.sent == s.sent + [Sending(t.row.refresh, true)]
      && s'.table == (if t.key in s.table then s.table[t.key := row] else s.table)
      && s'.refs == s.refs[r := TokenState(row, t.key, t.tokenKey)]
      && s'.cache == s.cache && s'.loadLock == s.loadLock && s'.lost == s.lost
  {
    assert PhaseOf(s, f).state == s.refs[PhaseOf(s, f).ref] && PhaseOf(s, f).ref < |s.refs| by {
      RefresherHasRef(s, f);
      EveryFiberIsOk(s, f);
    }
    s' := AnswerSaveRelease(s, f, access, refresh, expiresIn);
    steps := ([Answer(f, access, refresh, expiresIn)] + [SaveOk(f)]) + ([Advance(f)] + [Advance(f)]);
  }

  // ----- every step that can lead to it

  /** A fiber that reads expired tokens comes to wait for the refresh lock. */
  lemma ComesToWait(s: State, f: Fiber, r: Ref) returns (steps: seq<Action>)
    requires RefsExist(s) && PhaseOf(s, f) == HasRef(r) && r < |s.refs| && !Fresh(s.refs[r], s.now)
    ensures Leads(s, steps, s.(fibers := s.fibers[f := WantRefresh(r)]))
  {
    var a := Advance(f);
    var s1 := s.(fibers := s.fibers[f := HasState(r, s.refs[r])]);
    OneStepLeads(s, a);
    assert s1 == Step(s, a);
    assert s.(fibers := s.fibers[f := WantRefresh(r)]) == s1.(fibers := s1.fibers[f := WantRefresh(r)]);
    Goes(s, [a], s1, a, s.(fibers := s.fibers[f := WantRefresh(r)]));
    steps := [a] + [a];
  }

  lemma {:induction false} NewFiber(fibers: set<Fiber>) returns (g: Fiber)
    ensures forall f :: f in fibers ==> f < g
  {
    if fibers == {} {
      g := 0;
    } else {
      var f :| f in fibers;
      var h := NewFiber(fibers - {f});
      g := if f < h then h else f + 1;
      assert forall x :: x in fibers ==> x == f || x in fibers - {f};
    }
  }

  /** A new fiber that finds a Ref in the cache, once its tokens have expired, comes to wait to refresh them. */
  lemma NewFiberWaits(s: State, g: Fiber) returns (steps: seq<Action>, s': State)
    requires RefsExist(s) && s.cache.Some? && s.cache.value < |s.refs| && g !in s.fibers
    ensures Leads(s, steps, s') && RefsExist(s')
    ensures s' == s.(now := s'.now, fibers := s.fibers[g := WantRefresh(s.cache.value)])
    ensures !Fresh(s.refs[s.cache.value], s'.now)
  {
    var r := s.cache.value;
    var tick, enter := Tick(Outlasts(s.refs[r], s.now)), Advance(g);
    var s1 := s.(now := s.now + tick.elapsed);
    var s2 := s1.(fibers := s.fibers[g := HasRef(r)]);
    OneStepLeads(s, tick);
    Goes(s, [tick], s1, enter, s2);
    var more := ComesToWait(s2, g, r);
    s' := s1.(fibers := s.fibers[g := WantRefresh(r)]);
    assert s' == s2.(fibers := s2.fibers[g := WantRefresh(r)]);
    LeadsJoin(s, [tick] + [enter], s2, more, s');
    steps := [tick] + [enter] + more;
  }

  /** How long to wait for the tokens to have less than a minute left. */
  function Outlasts(t: TokenState, now: int): (elapsed: nat)
    ensures !Fresh(t, now + elapsed)
  {
    var left := t.row.createdAt + t.row.expiresIn * 1000 - MARGIN - now;
    if left < 0 then 0 else left + 1
  }

  /** Whenever nobody refreshes, the tokens of the Ref can be sent next, by a fiber that comes later. */
  lemma RefIsSent(s: State) returns (steps: seq<Action>, s': State)
    requires Inv(s) && s.cache.Some? && s.refreshLock.None?
    ensures s.cache.value < |s.refs|
    ensures Leads(s, steps, s') && s'.lost == s.lost
    ensures s'.sent == s.sent + [Sending(s.refs[s.cache.value].row.refresh, true)]
  {
    var g := NewFiber(s.fibers.Keys);
    EveryFiberIsOk(s, g);
    var refresh := UnusedString(s.known);
    var before, s1 := NewFiberWaits(s, g);
    var after;
    after, s' := WaitingFiberIsAnswered(s1, g, "", refresh, 0);
    LeadsJoin(s, before, s1, after, s');
    steps := before + after;
  }

  /** Two sendings of one token, the first of which the provider took. */
  ghost predicate SentAgain(sent: seq<Sending>, token: string) {
    exists i, j :: 0 <= i < j < |sent| && sent[i].token == sent[j].token == token && sent[i].accepted
  }

  /** A fiber that calls or has new tokens works on the Ref, and holds the refresh lock. */
  lemma RefresherHasRef(s: State, f: Fiber)
    requires Inv(s) && (PhaseOf(s, f).Calling? || HasNewTokens(PhaseOf(s, f)))
    ensures s.cache.Some? && s.cache.value < |s.refs| && s.refs[s.cache.value] == PhaseOf(s, f).state
    ensures s.refreshLock == Some(f)
    ensures HasNewTokens(PhaseOf(s, f)) ==> Spent(s.sent, PhaseOf(s, f).state.row.refresh)
  {
    EveryFiberIsOk(s, f);
    if HasNewTokens(PhaseOf(s, f)) {
      assert s.calls[PhaseOf(s, f).call].sent == PhaseOf(s, f).state;
    }
  }

  lemma WhatLoses(s: State, a: Action)
    requires RefsExist(s) && !s.lost && Step(s, a).lost
    ensures a.LoseAnswer? || a.SaveFails? || a.Stop?
    ensures if a.LoseAnswer? then PhaseOf(s, a.f).Calling? else HasNewTokens(PhaseOf(s, a.f))
    ensures var s1 := Step(s, a);
      && s1.cache == s.cache && s1.refs == s.refs && s1.refreshLock.None?
      && s1.sent == s.sent + if a.LoseAnswer? then [Sending(PhaseOf(s, a.f).state.row.refresh, true)] else []
  {
  }

  /** What a loss leaves: nobody refreshes, and the Ref still holds the spent tokens. */
  lemma LossLeavesSpentRef(s: State, a: Action)
    requires Inv(s) && RefsExist(s) && !s.lost && Step(s, a).lost
    ensures var s1 := Step(s, a);
      s1.cache.Some? && s1.cache.value < |s1.refs| && s1.refreshLock.None?
        && Spent(s1.sent, s1.refs[s1.cache.value].row.refresh)
  {
    WhatLoses(s, a);
    RefresherHasRef(s, a.f);
    if a.LoseAnswer? {
      assert Step(s, a).sent[|s.sent|] == Sending(PhaseOf(s, a.f).state.row.refresh, true);
    }
  }

  /**
   So what may not be lost is exact: from every state, whichever step it is that loses new tokens, an
   answer that does not arrive, a save that fails, or an interruption before or after the save, there
   is a run on from it in which a refresh token that the provider took is sent to it again.
   */
  lemma LossLeadsToResend(s: State, a: Action) returns (steps: seq<Action>, s': State, token: string)
    requires Inv(s) && RefsExist(s) && !s.lost && Step(s, a).lost
    ensures Leads(Step(s, a), steps, s') && SentAgain(s'.sent, token)
  {
    var s1 := Step(s, a);
    StepKeepsInv(s, a);
    LossLeavesSpentRef(s, a);
    token := s1.refs[s1.cache.value].row.refresh;
    steps, s' := RefIsSent(s1);
    var i :| 0 <= i < |s1.sent| && s1.sent[i].token == token && s1.sent[i].accepted;
    assert s'.sent[i] == s1.sent[i] && s'.sent[|s1.sent|].token == token;
  }

  /** And after every refused call, the same token can be sent again, with nothing lost. */
  lemma RefusalLeadsToResend(s: State, f: Fiber) returns (steps: seq<Action>, s': State)
    requires Inv(s) && PhaseOf(s, f).Calling?
    ensures RefsExist(s) && Leads(Step(s, Refuse(f)), steps, s') && s'.lost == s.lost
    ensures var token := PhaseOf(s, f).state.row.refresh;
      s'.sent == s.sent + [Sending(token, false), Sending(token, true)]
  {
    EveryFiberIsOk(s, f);
    StepKeepsInv(s, Refuse(f));
    steps, s' := RefIsSent(Step(s, Refuse(f)));
  }

  // ----- from the start

  /** The first fiber takes the load lock and reads the table. */
  lemma FirstFiberLoads(tokenKey: string, now: int, table: map<RowKey, TokenRow>, f: Fiber, key: RowKey)
    returns (steps: seq<Action>, s: State)
    requires CanLoad(table, tokenKey, key)
    ensures Reachable(s, tokenKey, now, table, steps)
    ensures s == Init(tokenKey, now, table).(loadLock := Some(f),
      fibers := map[f := Loaded(TokenState(table[key], key, tokenKey))])
  {
    var s0, a := Init(tokenKey, now, table), Advance(f);
    var s1 := s0.(fibers := map[f := WantLoad]);
    var s2 := s1.(fibers := map[f := InLoad], loadLock := Some(f));
    var s3 := s2.(fibers := map[f := Loading]);
    s := s3.(fibers := map[f := Loaded(TokenState(table[key], key, tokenKey))]);
    Goes(s0, [], s0, a, s1);
    Goes(s0, [] + [a], s1, a, s2);
    Goes(s0, [] + [a] + [a], s2, a, s3);
    Goes(s0, [] + [a] + [a] + [a], s3, Load(f, key), s);
    steps := [] + [a] + [a] + [a] + [Load(f, key)];
  }

  /** The key is loaded into the Ref, and nobody does anything with it yet. */
  function LoadedState(tokenKey: string, now: int, table: map<RowKey, TokenRow>, f: Fiber, key: RowKey): (s: State)
    requires key in table
  {
    Init(tokenKey, now, table).(
      cache := Some(0), refs := [TokenState(table[key], key, tokenKey)], published := [0],
      fibers := map[f := HasRef(0)])
  }

  lemma FirstFiberPublishes(tokenKey: string, now: int, table: map<RowKey, TokenRow>, f: Fiber, key: RowKey)
    returns (steps: seq<Action>)
    requires CanLoad(table, tokenKey, key)
    ensures Reachable(LoadedState(tokenKey, now, table, f, key), tokenKey, now, table, steps)
  {
    var s0, a := Init(tokenKey, now, table), Advance(f);
    var before, s1 := FirstFiberLoads(tokenKey, now, table, f, key);
    var s2 := s1.(fibers := map[f := MadeRef(0)], refs := [TokenState(table[key], key, tokenKey)]);
    var s3 := s2.(fibers := map[f := LeavingLoad(0)], cache := Some(0), published := [0]);
    Goes(s0, before, s1, a, s2);
    Goes(s0, before + [a], s2, a, s3);
    Goes(s0, before + [a] + [a], s3, a, LoadedState(tokenKey, now, table, f, key));
    steps := before + [a] + [a] + [a];
  }

  /** Two fibers wait to refresh the tokens of the Ref. */
  function TwoWaiting(tokenKey: string, now: int, table: map<RowKey, TokenRow>, f: Fiber, g: Fiber, key: RowKey)
    : (s: State)
    requires key in table
  {
    LoadedState(tokenKey, now, table, f, key).(fibers := map[f := WantRefresh(0), g := WantRefresh(0)])
  }

  lemma TwoComeToWait(tokenKey: string, now: int, table: map<RowKey, TokenRow>, f: Fiber, g: Fiber, key: RowKey)
    returns (steps: seq<Action>)
    requires f != g && CanLoad(table, tokenKey, key) && !Fresh(TokenState(table[key], key, tokenKey), now)
    ensures Reachable(TwoWaiting(tokenKey, now, table, f, g, key), tokenKey, now, table, steps)
  {
    var s0, s1 := Init(tokenKey, now, table), LoadedState(tokenKey, now, table, f, key);
    steps := FirstFiberPublishes(tokenKey, now, table, f, key);
    var more := ComesToWait(s1, f, 0);
    var s2 := s1.(fibers := map[f := WantRefresh(0)]);
    assert s2 == s1.(fibers := s1.fibers[f := WantRefresh(0)]);
    LeadsJoin(s0, steps, s1, more, s2);
    steps := steps + more;
    var s3 := s2.(fibers := map[f := WantRefresh(0), g := HasRef(0)]);
    Goes(s0, steps, s2, Advance(g), s3);
    steps := steps + [Advance(g)];
    more := ComesToWait(s3, g, 0);
    var s4 := TwoWaiting(tokenKey, now, table, f, g, key);
    assert s4 == s3.(fibers := s3.fibers[g := WantRefresh(0)]);
    LeadsJoin(s0, steps, s3, more, s4);
    steps := steps + more;
  }

  /** One of them is calling the provider. */
  lemma TwoWaitOneCalls(tokenKey: string, now: int, table: map<RowKey, TokenRow>, f: Fiber, g: Fiber, key: RowKey)
    returns (steps: seq<Action>, s: State)
    requires f != g && CanLoad(table, tokenKey, key) && !Fresh(TokenState(table[key], key, tokenKey), now)
    ensures Reachable(s, tokenKey, now, table, steps)
    ensures PhaseOf(s, f) == Calling(0, TokenState(table[key], key, tokenKey), now) && PhaseOf(s, g) == WantRefresh(0)
    ensures s.sent == [] && s.known == Init(tokenKey, now, table).known && s.now == now && !s.lost
  {
    var before := TwoComeToWait(tokenKey, now, table, f, g, key);
    var s1 := TwoWaiting(tokenKey, now, table, f, g, key);
    ReachableInv(s1, tokenKey, now, table, before);
    var calls;
    calls, s := WaitingFiberCalls(s1, f);
    LeadsJoin(Init(tokenKey, now, table), before, s1, calls, s);
    steps := before + calls;
  }

  /** The provider has answered it. */
  lemma TwoWaitOneMinted(
    tokenKey: string, now: int, table: map<RowKey, TokenRow>, f: Fiber, g: Fiber, key: RowKey, access: string,
    refresh: string, expiresIn: int)
    returns (steps: seq<Action>, s: State)
    requires f != g && CanLoad(table, tokenKey, key) && !Fresh(TokenState(table[key], key, tokenKey), now)
    requires forall k :: k in table ==> table[k].refresh != refresh
    ensures Reachable(s, tokenKey, now, table, steps)
    ensures PhaseOf(s, f).Minted? && PhaseOf(s, f).state == TokenState(table[key], key, tokenKey)
      && PhaseOf(s, g) == WantRefresh(0)
    ensures s.sent == [Sending(table[key].refresh, true)] && s.known == Init(tokenKey, now, table).known + {refresh}
      && s.now == now
  {
    var before, s1 := TwoWaitOneCalls(tokenKey, now, table, f, g, key);
    ReachableInv(s1, tokenKey, now, table, before);
    EveryFiberIsOk(s1, f);
    var answer := Answer(f, access, refresh, expiresIn);
    s := Step(s1, answer);
    Goes(Init(tokenKey, now, table), before, s1, answer, s);
    steps := before + [answer];
  }

  /**
   Whatever row is loaded, once it has less than a minute left: two fibers that see it, a save
   that fails, and the refresh token that the provider took is sent to it a second time.
   */
  lemma SpentTokenIsSentAgain(
    tokenKey: string, now: int, table: map<RowKey, TokenRow>, f: Fiber, g: Fiber, key: RowKey, access: string,
    first: string, second: string, expiresIn: int)
    returns (steps: seq<Action>, s: State)
    requires f != g && CanLoad(table, tokenKey, key) && !Fresh(TokenState(table[key], key, tokenKey), now)
    requires first != second && forall k :: k in table ==> table[k].refresh != first && table[k].refresh != second
    ensures Reachable(s, tokenKey, now, table, steps)
    ensures s.sent == [Sending(table[key].refresh, true), Sending(table[key].refresh, true)]
  {
    var before, s2 := TwoWaitOneMinted(tokenKey, now, table, f, g, key, access, first, expiresIn);
    ReachableInv(s2, tokenKey, now, table, before);
    var after;
    after, s := FailedSaveSpendsAgain(s2, f, g, access, second, expiresIn);
    steps := before + after;
    LeadsJoin(Init(tokenKey, now, table), before, s2, after, s);
  }

  /** And with a call that is refused instead, the token is sent again though nothing was lost. */
  lemma RefusedTokenIsSentAgain(
    tokenKey: string, now: int, table: map<RowKey, TokenRow>, f: Fiber, g: Fiber, key: RowKey, access: string,
    refresh: string, expiresIn: int)
    returns (steps: seq<Action>, s: State)
    requires f != g && CanLoad(table, tokenKey, key) && !Fresh(TokenState(table[key], key, tokenKey), now)
    requires forall k :: k in table ==> table[k].refresh != refresh
    ensures Reachable(s, tokenKey, now, table, steps) && !s.lost
    ensures s.sent == [Sending(table[key].refresh, false), Sending(table[key].refresh, true)]
  {
    var s0 := Init(tokenKey, now, table);
    var before, s1 := TwoWaitOneCalls(tokenKey, now, table, f, g, key);
    ReachableInv(s1, tokenKey, now, table, before);
    var after;
    after, s := RefusedCallSendsAgain(s1, f, g, access, refresh, expiresIn);
    steps := before + after;
    LeadsJoin(s0, before, s1, after, s);
  }
}
