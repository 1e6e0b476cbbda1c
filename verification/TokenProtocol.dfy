/**
 Access to the provider's tokens by any number of fibers of one TokenAuth: a double-checked
 load under one lock and a double-checked refresh under another, over a row of the token table.
 A state is a value, every read, acquisition, remote call, write and release is a step, and a
 run interleaves the steps of the fibers in any order. The refresh is the grant of section 6
 of RFC 6749, with a provider that rotates refresh tokens.
 */
module TokenProtocol {
  import opened Wrappers

  // ----- the token table

  datatype RowKey = RowKey(user: string, org: string, adapter: string)
  datatype TokenRow = TokenRow(access: string, refresh: string, createdAt: int, expiresIn: int)

  /** A token state: the tokens, and the row they were loaded from. */
  datatype TokenState = TokenState(row: TokenRow, key: RowKey, tokenKey: string)

  const ADAPTER := "pco"
  const MARGIN := 60_000

  /** loadTokenState may give any of the rows of the org for the adapter. */
  predicate CanLoad(table: map<RowKey, TokenRow>, tokenKey: string, key: RowKey) {
    key in table && key.org == tokenKey && key.adapter == ADAPTER
  }

  /** saveTokenState updates the row with the state's identity, if there is one. */
  function Save(table: map<RowKey, TokenRow>, t: TokenState): (table': map<RowKey, TokenRow>) {
    if t.key in table then table[t.key := t.row] else table
  }

  predicate Stored(table: map<RowKey, TokenRow>, t: TokenState) {
    t.key in table && table[t.key] == t.row
  }

  /** At least a minute is left. */
  predicate Fresh(t: TokenState, now: int) {
    t.row.createdAt + t.row.expiresIn * 1000 - MARGIN >= now
  }

  // ----- fibers

  type Fiber = nat
  type Ref = nat

  /** How a fiber came by the token it returns. */
  datatype Origin = CheckedAt(now: int, state: TokenState) | MintedByCall(call: nat)

  datatype Phase =
    | Start
    | WantLoad                                            // missed the cache, waits for the load lock
    | InLoad                                              // has the load lock, reads the cache again
    | Loading                                             // missed again, reads the table
    | Loaded(state: TokenState)                           // makes a Ref
    | MadeRef(ref: Ref)                                   // puts it in the cache
    | LeavingLoad(ref: Ref)                               // releases the load lock
    | HasRef(ref: Ref)                                    // reads the Ref
    | HasState(ref: Ref, state: TokenState)               // reads the clock
    | WantRefresh(ref: Ref)                               // expired, waits for the refresh lock
    | InRefresh(ref: Ref)                                 // has the refresh lock, reads the Ref again
    | Rechecking(ref: Ref, state: TokenState)             // reads the clock again
    | Calling(ref: Ref, state: TokenState, checked: int)  // still expired, the call is under way
    | Minted(ref: Ref, state: TokenState, minted: TokenState, call: nat)  // has new tokens, saves them
    | Saved(ref: Ref, state: TokenState, minted: TokenState, call: nat)   // saved, sets the Ref
    | LeavingRefresh(access: string, origin: Origin)      // releases the refresh lock
    | Done(access: string, origin: Origin)
    | Failed

  predicate HoldsLoad(p: Phase) {
    p.InLoad? || p.Loading? || p.Loaded? || p.MadeRef? || p.LeavingLoad?
  }

  predicate HoldsRefresh(p: Phase) {
    p.InRefresh? || p.Rechecking? || p.Calling? || p.Minted? || p.Saved? || p.LeavingRefresh?
  }

  /** The shared Ref the fiber works with. */
  function RefOf(p: Phase): (r: Option<Ref>) {
    match p
    case LeavingLoad(r) => Some(r)
    case HasRef(r) => Some(r)
    case HasState(r, _) => Some(r)
    case WantRefresh(r) => Some(r)
    case InRefresh(r) => Some(r)
    case Rechecking(r, _) => Some(r)
    case Calling(r, _, _) => Some(r)
    case Minted(r, _, _, _) => Some(r)
    case Saved(r, _, _, _) => Some(r)
    case _ => None
  }

  // ----- states and steps

  /** One sending of a refresh token, and whether the provider took it. */
  datatype Sending = Sending(token: string, accepted: bool)

  /** One answered refresh: who asked, the state it refreshed, when that was found expired, what it gave. */
  datatype Call = Call(fiber: Fiber, sent: TokenState, checked: int, issued: TokenState)

  datatype State = State(
    tokenKey: string,
    now: int,
    table: map<RowKey, TokenRow>,
    cache: Option<Ref>,
    refs: seq<TokenState>,
    loadLock: Option<Fiber>,
    refreshLock: Option<Fiber>,
    fibers: map<Fiber, Phase>,
    published: seq<Ref>,      // every Ref ever put in the cache
    sent: seq<Sending>,       // every refresh token sent to the provider
    calls: seq<Call>,         // every refresh that was answered
    known: set<string>,       // every refresh token ever seen
    lost: bool)               // some new tokens were lost between provider, table and Ref

  function Init(tokenKey: string, now: int, table: map<RowKey, TokenRow>): (s: State) {
    State(tokenKey, now, table, None, [], None, None, map[], [], [], [], set k | k in table :: table[k].refresh, false)
  }

  datatype Action =
    | Tick(elapsed: nat)
    | Advance(f: Fiber)                                   // a step with no outcome of its own
    | Load(f: Fiber, key: RowKey)                         // the table gives this row
    | Answer(f: Fiber, access: string, refresh: string, expiresIn: int)  // the provider answers
    | Refuse(f: Fiber)                                    // the call fails and the token stays good
    | LoseAnswer(f: Fiber)                                // the token is taken but no answer arrives
    | SaveOk(f: Fiber)
    | SaveFails(f: Fiber, applied: bool)
    | Stop(f: Fiber)                                      // any other failure, or interruption

  function PhaseOf(s: State, f: Fiber): (p: Phase) {
    if f in s.fibers then s.fibers[f] else Start
  }

  predicate RefsExist(s: State) {
    forall f :: f in s.fibers && RefOf(s.fibers[f]).Some? ==> RefOf(s.fibers[f]).value < |s.refs|
  }

  function Go(s: State, f: Fiber, p: Phase): (s': State) {
    s.(fibers := s.fibers[f := p])
  }

  /** The fiber fails; withPermits gives back the lock it holds. */
  function Fail(s: State, f: Fiber): (s': State) {
    var p := PhaseOf(s, f);
    Go(s, f, Failed).(
      loadLock := if HoldsLoad(p) then None else s.loadLock,
      refreshLock := if HoldsRefresh(p) then None else s.refreshLock)
  }

  function AdvanceStep(s: State, f: Fiber): (s': State)
    requires RefsExist(s)
  {
    match PhaseOf(s, f)
    case Start => Go(s, f, if s.cache.Some? then HasRef(s.cache.value) else WantLoad)
    case WantLoad => if s.loadLock.None? then Go(s, f, InLoad).(loadLock := Some(f)) else s
    case InLoad => Go(s, f, if s.cache.Some? then LeavingLoad(s.cache.value) else Loading)
    case Loaded(t) => Go(s, f, MadeRef(|s.refs|)).(refs := s.refs + [t])
    case MadeRef(r) => Go(s, f, LeavingLoad(r)).(cache := Some(r), published := s.published + [r])
    case LeavingLoad(r) => Go(s, f, HasRef(r)).(loadLock := None)
    case HasRef(r) => Go(s, f, HasState(r, s.refs[r]))
    case HasState(r, t) => Go(s, f, if Fresh(t, s.now) then Done(t.row.access, CheckedAt(s.now, t)) else WantRefresh(r))
    case WantRefresh(r) => if s.refreshLock.None? then Go(s, f, InRefresh(r)).(refreshLock := Some(f)) else s
    case InRefresh(r) => Go(s, f, Rechecking(r, s.refs[r]))
    case Rechecking(r, t) =>
      Go(s, f, if Fresh(t, s.now) then LeavingRefresh(t.row.access, CheckedAt(s.now, t)) else Calling(r, t, s.now))
    case Saved(r, t, n, call) =>
      Go(s, f, LeavingRefresh(n.row.access, MintedByCall(call))).(refs := s.refs[r := n])
    case LeavingRefresh(a, o) => Go(s, f, Done(a, o)).(refreshLock := None)
    case _ => s
  }

  function Step(s: State, a: Action): (s': State)
    requires RefsExist(s)
  {
    match a
    case Tick(elapsed) => s.(now := s.now + elapsed)
    case Advance(f) => AdvanceStep(s, f)
    case Load(f, key) =>
      if PhaseOf(s, f).Loading? && CanLoad(s.table, s.tokenKey, key)
      then Go(s, f, Loaded(TokenState(s.table[key], key, s.tokenKey))) else s
    case Answer(f, access, refresh, expiresIn) =>
      (match PhaseOf(s, f)
       case Calling(r, t, checked) =>
         // a rotating provider never issues a refresh token it issued before
         if refresh in s.known then s
         else
           var n := t.(row := TokenRow(access, refresh, s.now, expiresIn));
           Go(s, f, Minted(r, t, n, |s.calls|)).(
             sent := s.sent + [Sending(t.row.refresh, true)],
             calls := s.calls + [Call(f, t, checked, n)],
             known := s.known + {refresh})
       case _ => s)
    case Refuse(f) =>
      (match PhaseOf(s, f)
       case Calling(r, t, _) => Fail(s, f).(sent := s.sent + [Sending(t.row.refresh, false)])
       case _ => s)
    case LoseAnswer(f) =>
      (match PhaseOf(s, f)
       case Calling(r, t, _) => Fail(s, f).(sent := s.sent + [Sending(t.row.refresh, true)], lost := true)
       case _ => s)
    case SaveOk(f) =>
      (match PhaseOf(s, f)
       case Minted(r, t, n, call) => Go(s, f, Saved(r, t, n, call)).(table := Save(s.table, n))
       case _ => s)
    case SaveFails(f, applied) =>
      (match PhaseOf(s, f)
       case Minted(r, t, n, _) => Fail(s, f).(table := if applied then Save(s.table, n) else s.table, lost := true)
       case _ => s)
    case Stop(f) =>
      var p := PhaseOf(s, f);
      if p.Done? || p.Failed? || p.Calling? then s
      else Fail(s, f).(lost := s.lost || p.Minted? || p.Saved?)
  }

  // ----- the invariant

  /** The last answered call refreshed t into n, whose refresh token was never sent. */
  predicate JustMinted(s: State, f: Fiber, t: TokenState, n: TokenState, call: nat) {
    && |s.calls| == call + 1
    && s.calls[call].fiber == f && s.calls[call].sent == t && s.calls[call].issued == n
    && n.key == t.key && n.row.refresh in s.known
    && (forall i :: 0 <= i < |s.sent| ==> s.sent[i].token != n.row.refresh)
  }

  /** What a fiber returns: tokens with a minute left when it looked, or new ones of its own call. */
  predicate OriginOk(s: State, f: Fiber, access: string, o: Origin) {
    match o
    case CheckedAt(now, t) => now <= s.now && Fresh(t, now) && access == t.row.access
    case MintedByCall(call) => call < |s.calls| && s.calls[call].fiber == f && access == s.calls[call].issued.row.access
  }

  /**
   What holds of a fiber in a phase: a loading fiber has what the table holds, a refreshing
   one works on what the Ref holds, and a returning one has a good token.
   */
  predicate PhaseFacts(s: State, f: Fiber, p: Phase) {
    match p
    case Loading => s.cache.None?
    case Loaded(t) => s.cache.None? && Stored(s.table, t) && t.row.refresh in s.known
    case MadeRef(r) => s.cache.None? && r < |s.refs| && Stored(s.table, s.refs[r])
    case Rechecking(r, t) => r < |s.refs| && t == s.refs[r]
    case Calling(r, t, checked) => r < |s.refs| && t == s.refs[r] && !Fresh(t, checked)
    case Minted(r, t, n, call) => r < |s.refs| && t == s.refs[r] && JustMinted(s, f, t, n, call)
    case Saved(r, t, n, call) => r < |s.refs| && t == s.refs[r] && JustMinted(s, f, t, n, call)
    case LeavingRefresh(access, o) => OriginOk(s, f, access, o)
    case Done(access, o) => OriginOk(s, f, access, o)
    case _ => true
  }

  /** The fiber has the locks its phase says, and any shared Ref it works with is the cached one. */
  predicate PhaseOk(s: State, f: Fiber, p: Phase) {
    && (HoldsLoad(p) <==> s.loadLock == Some(f))
    && (HoldsRefresh(p) <==> s.refreshLock == Some(f))
    && (RefOf(p).Some? ==> RefOf(p) == s.cache)
    && PhaseFacts(s, f, p)
  }

  predicate AllPhasesOk(s: State) {
    && (forall f :: f in s.fibers ==> PhaseOk(s, f, s.fibers[f]))
    && (s.loadLock.Some? ==> s.loadLock.value in s.fibers)
    && (s.refreshLock.Some? ==> s.refreshLock.value in s.fibers)
  }

  /** Only the cached Ref was ever published, and nobody refreshes before there is one. */
  predicate CacheOk(s: State) {
    && s.published == (if s.cache.Some? then [s.cache.value] else [])
    && (s.cache.Some? ==> s.cache.value < |s.refs|)
    && (s.cache.None? ==> s.sent == [] && s.calls == [])
  }

  /** Every refresh token anywhere is one that was seen. */
  predicate TokensKnown(s: State) {
    && (forall k :: k in s.table ==> s.table[k].refresh in s.known)
    && (forall i :: 0 <= i < |s.refs| ==> s.refs[i].row.refresh in s.known)
    && (forall i :: 0 <= i < |s.sent| ==> s.sent[i].token in s.known)
  }

  /** The provider took the token. */
  predicate Spent(sent: seq<Sending>, token: string) {
    exists i :: 0 <= i < |sent| && sent[i].token == token && sent[i].accepted
  }

  /** Each refresh was due, its token was taken, and it starts from what the one before gave. */
  predicate Chain(s: State) {
    && (forall i :: 0 <= i < |s.calls| ==>
      !Fresh(s.calls[i].sent, s.calls[i].checked) && Spent(s.sent, s.calls[i].sent.row.refresh))
    && (!s.lost ==> forall i :: 0 < i < |s.calls| ==> s.calls[i].sent == s.calls[i - 1].issued)
  }

  /** A refresh token that the provider took is never sent again, unless something was lost. */
  predicate NoneSentAgain(s: State) {
    !s.lost ==> forall i, j :: 0 <= i < j < |s.sent| && s.sent[i].accepted ==> s.sent[j].token != s.sent[i].token
  }

  /** The phase of the fiber that has the refresh lock. */
  function Refresher(s: State): (p: Phase) {
    if s.refreshLock.Some? then PhaseOf(s, s.refreshLock.value) else Start
  }

  /**
   The table against the shared state, as long as nothing was lost: they are equal, or the
   refreshing fiber has saved its new tokens and not yet set the Ref.
   */
  predicate Current(s: State) {
    !s.lost && s.cache.Some? && s.cache.value < |s.refs| ==>
      var t := s.refs[s.cache.value];
      match Refresher(s)
      case Minted(_, _, _, _) => Stored(s.table, t)
      case Saved(_, _, n, _) => Stored(s.table, n)
      case _ =>
        && Stored(s.table, t) && !Spent(s.sent, t.row.refresh)
        && (s.calls != [] ==> s.calls[|s.calls| - 1].issued == t)
  }

  predicate Inv(s: State) {
    AllPhasesOk(s) && CacheOk(s) && TokensKnown(s) && Chain(s) && NoneSentAgain(s) && Current(s)
  }

  lemma InitInv(tokenKey: string, now: int, table: map<RowKey, TokenRow>)
    ensures Inv(Init(tokenKey, now, table))
  {
  }

  /** Only the fiber's phase and its locks differ. */
  predicate Moved(s: State, f: Fiber, s': State) {
    && s' == s.(fibers := s'.fibers, loadLock := s'.loadLock, refreshLock := s'.refreshLock)
    && f in s'.fibers && s'.fibers == s.fibers[f := s'.fibers[f]]
    && s'.loadLock in {s.loadLock, Some(f), None} && s'.refreshLock in {s.refreshLock, Some(f), None}
  }

  /** The fiber left the lock alone, took it, or gave it back. */
  predicate Passed(before: Option<Fiber>, after: Option<Fiber>, f: Fiber) {
    after == before || (before.None? && after == Some(f)) || (before == Some(f) && after.None?)
  }

  predicate HasNewTokens(p: Phase) {
    p.Minted? || p.Saved?
  }

  /** A step that only moves a fiber keeps the invariant when the fiber's new phase is in order. */
  lemma MoveKeepsInv(s: State, f: Fiber, s': State)
    requires Inv(s) && Moved(s, f, s') && !HasNewTokens(PhaseOf(s, f))
    requires !HasNewTokens(s'.fibers[f])
    requires PhaseOk(s', f, s'.fibers[f])
    requires Passed(s.loadLock, s'.loadLock, f) && Passed(s.refreshLock, s'.refreshLock, f)
    ensures Inv(s')
  {
    forall g | g in s'.fibers
      ensures PhaseOk(s', g, s'.fibers[g])
    {
      if g != f {
        assert PhaseOk(s, g, s.fibers[g]);
      }
    }
    MoveKeepsCurrent(s, f, s');
  }

  lemma MoveKeepsCurrent(s: State, f: Fiber, s': State)
    requires AllPhasesOk(s) && Current(s) && Moved(s, f, s')
    requires !HasNewTokens(PhaseOf(s, f)) && !HasNewTokens(s'.fibers[f])
    requires Passed(s.refreshLock, s'.refreshLock, f)
    ensures Current(s')
  {
  }

  /** Phases in which a step only moves the fiber on. */
  predicate Moves(p: Phase) {
    || p.Start? || p.WantLoad? || p.InLoad? || p.LeavingLoad? || p.HasRef? || p.HasState?
    || p.WantRefresh? || p.InRefresh? || p.Rechecking? || p.LeavingRefresh?
  }

  /** What the invariant says of one fiber, started or not. */
  predicate OwnOk(s: State, f: Fiber) {
    PhaseOk(s, f, PhaseOf(s, f))
  }

  lemma EveryFiberIsOk(s: State, f: Fiber)
    requires AllPhasesOk(s) && CacheOk(s)
    ensures OwnOk(s, f) && RefsExist(s)
  {
  }

  lemma MovingOnlyMoves(s: State, f: Fiber)
    requires RefsExist(s) && Moves(PhaseOf(s, f))
    ensures AdvanceStep(s, f) == s || (Moved(s, f, AdvanceStep(s, f)) && !HasNewTokens(PhaseOf(AdvanceStep(s, f), f)))
  {
  }

  predicate LocksOk(s: State, f: Fiber) {
    (HoldsLoad(PhaseOf(s, f)) <==> s.loadLock == Some(f)) && (HoldsRefresh(PhaseOf(s, f)) <==> s.refreshLock == Some(f))
  }

  /** The fiber's locks go with its phase, and nobody else's change. */
  lemma MovingKeepsLocks(s: State, f: Fiber)
    requires LocksOk(s, f) && RefsExist(s) && Moves(PhaseOf(s, f))
    ensures var s' := AdvanceStep(s, f);
      LocksOk(s', f) && Passed(s.loadLock, s'.loadLock, f) && Passed(s.refreshLock, s'.refreshLock, f)
  {
  }

  lemma MovedHasItsFacts(s: State, f: Fiber)
    requires OwnOk(s, f) && RefsExist(s) && CacheOk(s) && Moves(PhaseOf(s, f))
    ensures var s' := AdvanceStep(s, f);
      (RefOf(PhaseOf(s', f)).Some? ==> RefOf(PhaseOf(s', f)) == s'.cache) && PhaseFacts(s', f, PhaseOf(s', f))
  {
  }

  lemma MovingKeepsInv(s: State, f: Fiber)
    requires Inv(s) && Moves(PhaseOf(s, f))
    ensures RefsExist(s) && Inv(AdvanceStep(s, f))
  {
    EveryFiberIsOk(s, f);
    MovingOnlyMoves(s, f);
    MovingKeepsLocks(s, f);
    MovedHasItsFacts(s, f);
    var s' := AdvanceStep(s, f);
    if s' != s {
      MoveKeepsInv(s, f, s');
    }
  }

  lemma LoadKeepsInv(s: State, f: Fiber, key: RowKey)
    requires Inv(s)
    ensures RefsExist(s) && Inv(Step(s, Load(f, key)))
  {
  }

  lemma LoadedKeepsInv(s: State, f: Fiber)
    requires Inv(s) && PhaseOf(s, f).Loaded?
    ensures RefsExist(s) && Inv(AdvanceStep(s, f))
  {
  }

  lemma MadeRefKeepsInv(s: State, f: Fiber)
    requires Inv(s) && PhaseOf(s, f).MadeRef?
    ensures RefsExist(s) && Inv(AdvanceStep(s, f))
  {
  }

  /** Setting the Ref to the saved tokens: the shared state catches up with the table. */
  lemma SavedKeepsInv(s: State, f: Fiber)
    requires Inv(s) && PhaseOf(s, f).Saved?
    ensures RefsExist(s) && Inv(AdvanceStep(s, f))
  {
    EveryFiberIsOk(s, f);
    SavedKeepsPhases(s, f);
    SavedKeepsTokens(s, f);
  }

  lemma SavedKeepsPhases(s: State, f: Fiber)
    requires AllPhasesOk(s) && CacheOk(s) && RefsExist(s) && PhaseOf(s, f).Saved?
    ensures AllPhasesOk(AdvanceStep(s, f)) && CacheOk(AdvanceStep(s, f))
  {
    var s' := AdvanceStep(s, f);
    forall g | g in s'.fibers
      ensures PhaseOk(s', g, s'.fibers[g])
    {
      assert PhaseOk(s, g, s.fibers[g]) && PhaseOk(s, f, s.fibers[f]);
    }
  }

  lemma SavedKeepsTokens(s: State, f: Fiber)
    requires Inv(s) && RefsExist(s) && PhaseOf(s, f).Saved?
    ensures var s' := AdvanceStep(s, f);
      TokensKnown(s') && Chain(s') && NoneSentAgain(s') && Current(s')
  {
    EveryFiberIsOk(s, f);
    SavedMakesCurrent(s, f);
  }

  lemma SavedMakesCurrent(s: State, f: Fiber)
    requires OwnOk(s, f) && RefsExist(s) && CacheOk(s) && Current(s) && PhaseOf(s, f).Saved?
    ensures Current(AdvanceStep(s, f))
  {
    assert Refresher(s) == PhaseOf(s, f);
    assert Refresher(AdvanceStep(s, f)).LeavingRefresh?;
  }

  lemma AnswerKeepsInv(s: State, f: Fiber, access: string, refresh: string, expiresIn: int)
    requires Inv(s)
    ensures RefsExist(s) && Inv(Step(s, Answer(f, access, refresh, expiresIn)))
  {
    if PhaseOf(s, f).Calling? && refresh !in s.known {
      AnswerKeepsPhases(s, f, access, refresh, expiresIn);
      AnswerKeepsChain(s, f, access, refresh, expiresIn);
      AnswerKeepsCurrent(s, f, access, refresh, expiresIn);
    }
  }

  lemma AnswerKeepsPhases(s: State, f: Fiber, access: string, refresh: string, expiresIn: int)
    requires Inv(s) && PhaseOf(s, f).Calling? && refresh !in s.known
    ensures RefsExist(s) && AllPhasesOk(Step(s, Answer(f, access, refresh, expiresIn)))
  {
  }

  lemma AnswerKeepsChain(s: State, f: Fiber, access: string, refresh: string, expiresIn: int)
    requires Inv(s) && PhaseOf(s, f).Calling? && refresh !in s.known
    ensures RefsExist(s) && Chain(Step(s, Answer(f, access, refresh, expiresIn)))
  {
    var s' := Step(s, Answer(f, access, refresh, expiresIn));
    var x := Sending(s.fibers[f].state.row.refresh, true);
    assert PhaseOk(s, f, s.fibers[f]);
    SendingKeepsChain(s, x);
    assert s'.sent == s.sent + [x] && s'.sent[|s.sent|] == x;
    assert !s.lost ==> !HasNewTokens(Refresher(s));
  }

  lemma AnswerKeepsCurrent(s: State, f: Fiber, access: string, refresh: string, expiresIn: int)
    requires Inv(s) && PhaseOf(s, f).Calling? && refresh !in s.known
    ensures RefsExist(s)
    ensures var s' := Step(s, Answer(f, access, refresh, expiresIn));
      CacheOk(s') && TokensKnown(s') && NoneSentAgain(s') && Current(s')
  {
  }

  lemma SendingKeepsChain(s: State, x: Sending)
    requires Chain(s)
    ensures Chain(s.(sent := s.sent + [x]))
  {
    forall i | 0 <= i < |s.calls|
      ensures Spent(s.sent + [x], s.calls[i].sent.row.refresh)
    {
      var j :| 0 <= j < |s.sent| && s.sent[j].token == s.calls[i].sent.row.refresh && s.sent[j].accepted;
      assert (s.sent + [x])[j] == s.sent[j];
    }
  }

  /**
   Recording one more sending of the Ref's token keeps what was said of the sendings, if what the
   provider takes counts as lost.
   */
  lemma SendingKeepsInv(s: State, token: string, accepted: bool)
    requires Inv(s) && token in s.known && (s.lost || !Spent(s.sent, token)) && s.cache.Some?
    requires !HasNewTokens(Refresher(s))
    ensures Inv(s.(sent := s.sent + [Sending(token, accepted)], lost := s.lost || accepted))
  {
    var x := Sending(token, accepted);
    var s' := s.(sent := s.sent + [x], lost := s.lost || accepted);
    SendingKeepsChain(s, x);
    forall g | g in s'.fibers
      ensures PhaseOk(s', g, s'.fibers[g])
    {
      assert PhaseOk(s, g, s.fibers[g]);
    }
    assert Refresher(s') == Refresher(s);
  }

  /** A call that fails: the fiber leaves, and the token it sent is recorded. */
  lemma FailedCallKeepsInv(s: State, f: Fiber, accepted: bool)
    requires Inv(s) && PhaseOf(s, f).Calling?
    ensures RefsExist(s)
    ensures Inv(Fail(s, f).(
      sent := s.sent + [Sending(PhaseOf(s, f).state.row.refresh, accepted)], lost := s.lost || accepted))
  {
    EveryFiberIsOk(s, f);
    var token := PhaseOf(s, f).state.row.refresh;
    StoppingOnlyMoves(s, f);
    MoveKeepsInv(s, f, Fail(s, f));
    SendingKeepsInv(Fail(s, f), token, accepted);
  }

  lemma SaveOkKeepsPhases(s: State, f: Fiber)
    requires AllPhasesOk(s) && CacheOk(s) && RefsExist(s) && PhaseOf(s, f).Minted?
    ensures AllPhasesOk(Step(s, SaveOk(f))) && CacheOk(Step(s, SaveOk(f)))
  {
    var s' := Step(s, SaveOk(f));
    forall g | g in s'.fibers
      ensures PhaseOk(s', g, s'.fibers[g])
    {
      assert PhaseOk(s, g, s.fibers[g]) && PhaseOk(s, f, s.fibers[f]);
    }
  }

  lemma SaveOkKeepsTokens(s: State, f: Fiber)
    requires Inv(s) && RefsExist(s) && PhaseOf(s, f).Minted?
    ensures var s' := Step(s, SaveOk(f));
      TokensKnown(s') && Chain(s') && NoneSentAgain(s') && Current(s')
  {
    EveryFiberIsOk(s, f);
  }

  lemma SaveOkKeepsInv(s: State, f: Fiber)
    requires Inv(s)
    ensures RefsExist(s) && Inv(Step(s, SaveOk(f)))
  {
    EveryFiberIsOk(s, f);
    if PhaseOf(s, f).Minted? {
      SaveOkKeepsPhases(s, f);
      SaveOkKeepsTokens(s, f);
    }
  }

  /** Losing new tokens on the way: from then on nothing is claimed of the shared state. */
  lemma LosingKeepsInv(s: State, f: Fiber, table: map<RowKey, TokenRow>)
    requires Inv(s) && HasNewTokens(PhaseOf(s, f))
    requires forall k :: k in table ==> table[k].refresh in s.known
    ensures Inv(Fail(s, f).(table := table, lost := true))
  {
  }

  lemma SaveFailsKeepsInv(s: State, f: Fiber, applied: bool)
    requires Inv(s)
    ensures RefsExist(s) && Inv(Step(s, SaveFails(f, applied)))
  {
    var p := PhaseOf(s, f);
    if p.Minted? {
      assert PhaseOk(s, f, s.fibers[f]);
      LosingKeepsInv(s, f, if applied then Save(s.table, p.minted) else s.table);
    }
  }

  lemma StoppingOnlyMoves(s: State, f: Fiber)
    requires OwnOk(s, f) && !HasNewTokens(PhaseOf(s, f))
    ensures var s' := Fail(s, f);
      && Moved(s, f, s') && PhaseOk(s', f, Failed)
      && Passed(s.loadLock, s'.loadLock, f) && Passed(s.refreshLock, s'.refreshLock, f)
  {
  }

  lemma StopKeepsInv(s: State, f: Fiber)
    requires Inv(s)
    ensures RefsExist(s) && Inv(Step(s, Stop(f)))
  {
    EveryFiberIsOk(s, f);
    var p := PhaseOf(s, f);
    if HasNewTokens(p) {
      LosingKeepsInv(s, f, s.table);
    } else if !p.Done? && !p.Failed? && !p.Calling? {
      StoppingOnlyMoves(s, f);
      MoveKeepsInv(s, f, Fail(s, f));
      assert Step(s, Stop(f)) == Fail(s, f);
    }
  }

  lemma TickKeepsInv(s: State, elapsed: nat)
    requires Inv(s)
    ensures RefsExist(s) && Inv(Step(s, Tick(elapsed)))
  {
    var s' := Step(s, Tick(elapsed));
    forall g | g in s'.fibers
      ensures PhaseOk(s', g, s'.fibers[g])
    {
      assert PhaseOk(s, g, s.fibers[g]);
    }
    assert Refresher(s') == Refresher(s);
  }

  lemma AdvanceKeepsInv(s: State, f: Fiber)
    requires Inv(s)
    ensures RefsExist(s) && Inv(AdvanceStep(s, f))
  {
    match PhaseOf(s, f)
    case Loaded(_) => LoadedKeepsInv(s, f);
    case MadeRef(_) => MadeRefKeepsInv(s, f);
    case Saved(_, _, _, _) => SavedKeepsInv(s, f);
    case p =>
      if Moves(p) {
        MovingKeepsInv(s, f);
      }
  }

  /** Every step of every fiber keeps the invariant. */
  lemma StepKeepsInv(s: State, a: Action)
    requires Inv(s)
    ensures RefsExist(s) && Inv(Step(s, a))
  {
    match a
    case Tick(elapsed) => TickKeepsInv(s, elapsed);
    case Advance(f) => AdvanceKeepsInv(s, f);
    case Load(f, key) => LoadKeepsInv(s, f, key);
    case Answer(f, access, refresh, expiresIn) => AnswerKeepsInv(s, f, access, refresh, expiresIn);
    case Refuse(f) => if PhaseOf(s, f).Calling? { FailedCallKeepsInv(s, f, false); }
    case LoseAnswer(f) => if PhaseOf(s, f).Calling? { FailedCallKeepsInv(s, f, true); }
    case SaveOk(f) => SaveOkKeepsInv(s, f);
    case SaveFails(f, applied) => SaveFailsKeepsInv(s, f, applied);
    case Stop(f) => StopKeepsInv(s, f);
  }

  // ----- runs

  /** The steps, one after the other, take s to s'. */
  predicate Leads(s: State, steps: seq<Action>, s': State)
    decreases |steps|
  {
    if steps == [] then s == s'
    else RefsExist(s) && Leads(Step(s, steps[0]), steps[1..], s')
  }

  predicate Reachable(s: State, tokenKey: string, now: int, table: map<RowKey, TokenRow>, steps: seq<Action>) {
    Leads(Init(tokenKey, now, table), steps, s)
  }

  lemma {:induction false} RunKeepsInv(s: State, steps: seq<Action>, s': State)
    requires Inv(s) && Leads(s, steps, s')
    ensures Inv(s')
    decreases |steps|
  {
    if steps != [] {
      StepKeepsInv(s, steps[0]);
      RunKeepsInv(Step(s, steps[0]), steps[1..], s');
    }
  }

  lemma ReachableInv(s: State, tokenKey: string, now: int, table: map<RowKey, TokenRow>, steps: seq<Action>)
    requires Reachable(s, tokenKey, now, table, steps)
    ensures Inv(s)
  {
    InitInv(tokenKey, now, table);
    RunKeepsInv(Init(tokenKey, now, table), steps, s);
  }

  // ----- what it means

  /** The key is loaded into at most one shared Ref, and every fiber works with that one. */
  lemma OneSharedRef(s: State, tokenKey: string, now: int, table: map<RowKey, TokenRow>, steps: seq<Action>)
    requires Reachable(s, tokenKey, now, table, steps)
    ensures |s.published| <= 1
    ensures forall f, g :: f in s.fibers && g in s.fibers && RefOf(s.fibers[f]).Some? && RefOf(s.fibers[g]).Some? ==>
      RefOf(s.fibers[f]) == RefOf(s.fibers[g]) == s.cache
  {
    ReachableInv(s, tokenKey, now, table, steps);
  }

  /**
   As long as no new tokens are lost between the provider, the table and the Ref, a refresh
   token is sent again only if the provider did not take it before; so a state is refreshed at
   most once, however many fibers saw it expired.
   */
  lemma NoTokenIsSpentTwice(s: State, tokenKey: string, now: int, table: map<RowKey, TokenRow>, steps: seq<Action>)
    requires Reachable(s, tokenKey, now, table, steps) && !s.lost
    ensures forall i, j :: 0 <= i < j < |s.sent| && s.sent[i].token == s.sent[j].token ==> !s.sent[i].accepted
  {
    ReachableInv(s, tokenKey, now, table, steps);
  }

  /** When besides no call is refused, no refresh token is sent twice at all. */
  lemma NoTokenIsSentTwice(s: State, tokenKey: string, now: int, table: map<RowKey, TokenRow>, steps: seq<Action>)
    requires Reachable(s, tokenKey, now, table, steps) && !s.lost
    requires forall i :: 0 <= i < |s.sent| ==> s.sent[i].accepted
    ensures forall i, j :: 0 <= i < j < |s.sent| ==> s.sent[i].token != s.sent[j].token
  {
    ReachableInv(s, tokenKey, now, table, steps);
  }

  /**
   When a fiber is done with looking at the clock: it returns the token it read exactly when that has
   a minute left, before taking the lock and, if not, again under it.
   */
  lemma ReturnsInTime(s: State, f: Fiber)
    requires RefsExist(s) && (PhaseOf(s, f).HasState? || PhaseOf(s, f).Rechecking?)
    ensures var p, t := PhaseOf(Step(s, Advance(f)), f), PhaseOf(s, f).state;
      var inTime := s.now + 60_000 <= t.row.createdAt + t.row.expiresIn * 1000;
      && (PhaseOf(s, f).HasState? ==>
           p == if inTime then Done(t.row.access, CheckedAt(s.now, t)) else WantRefresh(PhaseOf(s, f).ref))
      && (PhaseOf(s, f).Rechecking? ==>
           p == if inTime then LeavingRefresh(t.row.access, CheckedAt(s.now, t))
             else Calling(PhaseOf(s, f).ref, t, s.now))
  {
  }

  /**
   The refreshes form a chain: each starts from the tokens the one before gave, and only once
   those had less than a minute left. Tokens that outlive the margin are never refreshed.
   */
  lemma RefreshesFormAChain(s: State, tokenKey: string, now: int, table: map<RowKey, TokenRow>, steps: seq<Action>)
    requires Reachable(s, tokenKey, now, table, steps) && !s.lost
    ensures forall i :: 0 < i < |s.calls| ==> s.calls[i].sent == s.calls[i - 1].issued
    ensures forall i :: 0 <= i < |s.calls| ==>
      s.calls[i].checked + 60_000 > s.calls[i].sent.row.createdAt + s.calls[i].sent.row.expiresIn * 1000
  {
    ReachableInv(s, tokenKey, now, table, steps);
  }
}
