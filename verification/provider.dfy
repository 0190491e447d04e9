/** The OAuth token lifecycle (src/anafpy/auth/provider.py): many tasks of one process
    share a lock and a store; refresh tokens rotate (section 6 of RFC 6749).

    Between two awaits a task runs alone, so each event below is one await-free stretch
    of code. Other processes may log in or out at any moment. */
module OAuthTokens {
  import opened Wrappers

  datatype TokenSet = TokenSet(access: nat, refresh: nat, accessExpiresAt: real, refreshExpiresAt: real)

  const LEEWAY := 300.0

  predicate AccessExpired(t: TokenSet, now: real) {
    now >= t.accessExpiresAt - LEEWAY
  }

  predicate RefreshExpired(t: TokenSet, now: real) {
    now >= t.refreshExpiresAt
  }

  // ---- The provider's await-free segments ----------------------------------------------

  /** How a locked operation goes on after loading the store: it raises, answers, or
      posts the loaded set's refresh token and keeps the lock while it waits. */
  datatype Segment = Raises | Answers(access: nat) | Posts(tokens: TokenSet)

  function RefreshSegment(tokens: TokenSet, now: real): Segment {
    if RefreshExpired(tokens, now) then Raises else Posts(tokens)
  }

  function AccessSegment(store: Option<TokenSet>, now: real): Segment {
    match store
    case None => Raises
    case Some(t) => if AccessExpired(t, now) then RefreshSegment(t, now) else Answers(t.access)
  }

  function ForceSegment(store: Option<TokenSet>, stale: Option<nat>, now: real): Segment {
    match store
    case None => Raises
    case Some(t) => if stale.Some? && t.access != stale.value then Answers(t.access) else RefreshSegment(t, now)
  }

  class TokenStore {
    var tokens: Option<TokenSet>
  }

  class TokenProvider {
    const store: TokenStore
    var locked: bool

    constructor (store: TokenStore)
      ensures this.store == store && !locked
    {
      this.store, locked := store, false;
    }

    /** `access_token` up to its first await past the lock. */
    method AccessToken(now: real) returns (next: Segment)
      requires !locked
      modifies this
      ensures next == AccessSegment(store.tokens, now)
      ensures locked <==> next.Posts?
    {
      var loaded := store.tokens;
      if loaded.None? {
        return Raises;
      }
      if !AccessExpired(loaded.value, now) {
        return Answers(loaded.value.access);
      }
      next := BeginRefresh(loaded.value, now);
    }

    /** `force_refresh` up to its first await past the lock. */
    method ForceRefresh(stale: Option<nat>, now: real) returns (next: Segment)
      requires !locked
      modifies this
      ensures next == ForceSegment(store.tokens, stale, now)
      ensures locked <==> next.Posts?
    {
      var loaded := store.tokens;
      if loaded.None? {
        return Raises;
      }
      if stale.Some? && loaded.value.access != stale.value {
        return Answers(loaded.value.access);
      }
      next := BeginRefresh(loaded.value, now);
    }

    method BeginRefresh(tokens: TokenSet, now: real) returns (next: Segment)
      requires !locked
      modifies this
      ensures next == RefreshSegment(tokens, now)
      ensures locked <==> next.Posts?
    {
      if RefreshExpired(tokens, now) {
        return Raises;
      }
      locked := true;
      return Posts(tokens);
    }

    /** `_refresh` after the endpoint answered: the new set is saved whatever the store
        holds by now, and the lock is released. */
    method FinishRefresh(granted: Option<TokenSet>)
      requires locked
      modifies this, store
      ensures !locked
      ensures store.tokens == if granted.Some? then granted else old(store.tokens)
    {
      if granted.Some? {
        store.tokens := granted;
      }
      locked := false;
    }
  }

  // ---- Interleaved requests --------------------------------------------------------------

  /** Where one authenticated request is. `Rotating` holds the lock; `retry` says it is
      the 401 leg. */
  datatype Phase =
    | WantsToken
    | Rotating(from: TokenSet, retry: bool)
    | FirstSent(token: nat)
    | Rejected(stale: nat)
    | SecondSent(token: nat, stale: nat)
    | Done
    | Failed

  /** The calls to the token endpoint and their outcomes, in order. */
  datatype Call = Post(tokens: TokenSet) | Won(tokens: TokenSet) | Lost(tokens: TokenSet)

  datatype State = State(
    now: real,
    store: Option<TokenSet>,
    lock: Option<nat>,
    tasks: map<nat, Phase>,
    calls: seq<Call>,
    seen: set<TokenSet>,
    foreign: bool)

  datatype Event =
    | Tick(to: real)
    | Start(task: nat)
    | EnterAccess(task: nat)
    | EnterForce(task: nat)
    | Granted(task: nat, tokens: TokenSet)
    | Denied(task: nat)
    | Reply(task: nat, unauthorized: bool)
    | ForeignLogin(tokens: TokenSet)
    | ForeignLogout

  function Enter(s: State, task: nat, next: Segment, retry: bool, answered: Phase): State {
    match next
    case Raises => s.(tasks := s.tasks[task := Failed])
    case Answers(_) => s.(tasks := s.tasks[task := answered])
    case Posts(t) => s.(lock := Some(task), tasks := s.tasks[task := Rotating(t, retry)], calls := s.calls + [Post(t)])
  }

  /** One event; an event that is not enabled changes nothing. */
  function Next(s: State, e: Event): State {
    match e
    case Tick(to) => if to > s.now then s.(now := to) else s
    case Start(task) => if task in s.tasks then s else s.(tasks := s.tasks[task := WantsToken])
    case EnterAccess(task) =>
      if task !in s.tasks || !s.tasks[task].WantsToken? || s.lock.Some? then s else
      var next := AccessSegment(s.store, s.now);
      Enter(s, task, next, false, if next.Answers? then FirstSent(next.access) else Failed)
    case EnterForce(task) =>
      if task !in s.tasks || !s.tasks[task].Rejected? || s.lock.Some? then s else
      var stale := s.tasks[task].stale;
      var next := ForceSegment(s.store, Some(stale), s.now);
      Enter(s, task, next, true, if next.Answers? then SecondSent(next.access, stale) else Failed)
    case Granted(task, tokens) =>
      if task !in s.tasks || !s.tasks[task].Rotating? then s else
      var from := s.tasks[task].from;
      s.(store := Some(tokens), lock := None, calls := s.calls + [Won(from)], seen := s.seen + {tokens},
         tasks := s.tasks[task := if s.tasks[task].retry then SecondSent(tokens.access, from.access) else FirstSent(tokens.access)])
    case Denied(task) =>
      if task !in s.tasks || !s.tasks[task].Rotating? then s else
      s.(lock := None, calls := s.calls + [Lost(s.tasks[task].from)], tasks := s.tasks[task := Failed])
    case Reply(task, unauthorized) =>
      if task !in s.tasks then s else
      (match s.tasks[task]
       case FirstSent(token) => s.(tasks := s.tasks[task := if unauthorized then Rejected(token) else Done])
       case SecondSent(_, _) => s.(tasks := s.tasks[task := Done])
       case _ => s)
    case ForeignLogin(tokens) => s.(store := Some(tokens), seen := s.seen + {tokens}, foreign := true)
    case ForeignLogout => s.(store := None, foreign := true)
  }

  function Run(s: State, events: seq<Event>): State
    decreases |events|
  {
    if events == [] then s else Run(Next(s, events[0]), events[1..])
  }

  predicate Distinct(a: TokenSet, b: TokenSet) {
    a.access != b.access && a.refresh != b.refresh
  }

  /** The endpoint and logins always hand out secrets never seen before. */
  predicate FreshSecrets(s: State, e: Event) {
    e.Granted? || e.ForeignLogin? ==> forall t | t in s.seen :: Distinct(t, e.tokens)
  }

  predicate FreshRun(s: State, events: seq<Event>)
    decreases |events|
  {
    events != [] ==> FreshSecrets(s, events[0]) && FreshRun(Next(s, events[0]), events[1..])
  }

  predicate Initial(s: State) {
    && s.lock == None && s.tasks == map[] && s.calls == [] && !s.foreign
    && s.seen == if s.store.Some? then {s.store.value} else {}
  }

  // ---- What every step keeps ---------------------------------------------------------------

  function Pending(s: State, t: TokenSet): nat {
    if s.lock.Some? && s.lock.value in s.tasks && s.tasks[s.lock.value].Rotating? && s.tasks[s.lock.value].from == t then 1 else 0
  }

  ghost predicate NoPostAfterWin(calls: seq<Call>) {
    forall i, j :: 0 <= i < j < |calls| && calls[i].Won? && calls[j].Post? ==> calls[i].tokens.refresh != calls[j].tokens.refresh
  }

  /** Access token `a` was rotated away by this process. */
  ghost predicate RotatedAway(s: State, a: nat) {
    exists t :: t in s.seen && t.access == a && Won(t) in s.calls
  }

  /** `a` is the stored access token, or was rotated away (or another process interfered). */
  ghost predicate Accounted(s: State, a: nat) {
    s.foreign || (s.store.Some? && s.store.value.access == a) || RotatedAway(s, a)
  }

  ghost predicate PhaseInv(s: State, p: Phase) {
    match p
    case Rotating(from, _) => from in s.seen && Won(from) !in s.calls && (s.foreign || s.store == Some(from))
    case FirstSent(token) => Accounted(s, token)
    case Rejected(stale) => Accounted(s, stale)
    case SecondSent(token, stale) => token != stale && Accounted(s, token) && (s.foreign || RotatedAway(s, stale))
    case _ => true
  }

  /** Exactly the task that is rotating holds the lock. */
  ghost predicate LockInv(s: State) {
    && (forall t | t in s.tasks :: s.tasks[t].Rotating? <==> s.lock == Some(t))
    && (s.lock.Some? ==> s.lock.value in s.tasks)
  }

  /** Two sets never share a secret, and the stored one was not rotated away. */
  ghost predicate SetsInv(s: State) {
    && (forall x, y | x in s.seen && y in s.seen :: x.access == y.access || x.refresh == y.refresh ==> x == y)
    && (s.store.Some? ==> s.store.value in s.seen && Won(s.store.value) !in s.calls)
    && (forall c | c in s.calls :: c.tokens in s.seen)
  }

  ghost predicate PhasesInv(s: State) {
    forall t | t in s.tasks :: PhaseInv(s, s.tasks[t])
  }

  /** Every post is won, lost or in flight; no set is won twice or posted after a win. */
  ghost predicate CallsInv(s: State) {
    && NoPostAfterWin(s.calls)
    && (forall t: TokenSet :: multiset(s.calls)[Won(t)] <= 1)
    && (forall t: TokenSet :: multiset(s.calls)[Post(t)] == multiset(s.calls)[Won(t)] + multiset(s.calls)[Lost(t)] + Pending(s, t))
  }

  ghost predicate Inv(s: State) {
    LockInv(s) && SetsInv(s) && PhasesInv(s) && CallsInv(s)
  }

  /** One more call keeps the books, if it posts what was never won or settles the post
      in flight. */
  lemma CallsAppend(s: State, s': State, c: Call)
    requires CallsInv(s) && s'.calls == s.calls + [c]
    requires forall t: TokenSet :: Pending(s', t) + (if c == Won(t) || c == Lost(t) then 1 else 0)
                                   == Pending(s, t) + (if c == Post(t) then 1 else 0)
    requires c.Post? ==> forall d | d in s.calls :: d.Won? ==> d.tokens.refresh != c.tokens.refresh
    requires c.Won? ==> c !in s.calls
    ensures CallsInv(s')
  {
    assert multiset(s'.calls) == multiset(s.calls) + multiset{c};
    assert forall i | 0 <= i < |s.calls| :: s.calls[i] in s.calls;
  }

  /** A task changes to a phase that holds no lock, and nothing else moves. */
  lemma InvMove(s: State, task: nat, p: Phase)
    requires Inv(s) && !p.Rotating? && PhaseInv(s, p)
    requires task in s.tasks ==> !s.tasks[task].Rotating?
    ensures Inv(s.(tasks := s.tasks[task := p]))
  {
    var s' := s.(tasks := s.tasks[task := p]);
    forall t | t in s'.tasks ensures PhaseInv(s', s'.tasks[t]) {
      assert PhaseInv(s, s'.tasks[t]);
    }
    assert forall t: TokenSet :: Pending(s', t) == Pending(s, t);
  }

  lemma InvPost(s: State, task: nat, t: TokenSet, retry: bool)
    requires Inv(s) && task in s.tasks && s.lock == None && s.store == Some(t)
    ensures Inv(Enter(s, task, Posts(t), retry, Failed))
  {
    var s' := Enter(s, task, Posts(t), retry, Failed);
    assert CallsInv(s') by {
      CallsAppend(s, s', Post(t));
    }
    assert PhasesInv(s') by {
      forall k | k in s'.tasks ensures PhaseInv(s', s'.tasks[k]) {
        if k != task {
          assert PhaseInv(s, s.tasks[k]);
        }
      }
    }
  }

  lemma InvGranted(s: State, task: nat, tokens: TokenSet)
    requires Inv(s) && FreshSecrets(s, Granted(task, tokens))
    requires task in s.tasks && s.tasks[task].Rotating?
    ensures Inv(Next(s, Granted(task, tokens)))
  {
    var s' := Next(s, Granted(task, tokens));
    var from := s.tasks[task].from;
    assert PhaseInv(s, s.tasks[task]);
    assert CallsInv(s') by {
      CallsAppend(s, s', Won(from));
    }
    assert PhasesInv(s') by {
      AccountedAfterGrant(s, task, tokens);
      forall k | k in s'.tasks ensures PhaseInv(s', s'.tasks[k]) {
        if k != task {
          assert PhaseInv(s, s.tasks[k]);
        }
      }
    }
  }

  lemma AccountedAfterGrant(s: State, task: nat, tokens: TokenSet)
    requires Inv(s) && task in s.tasks && s.tasks[task].Rotating?
    ensures forall a :: RotatedAway(s, a) ==> RotatedAway(Next(s, Granted(task, tokens)), a)
    ensures forall a :: Accounted(s, a) ==> Accounted(Next(s, Granted(task, tokens)), a)
    ensures RotatedAway(Next(s, Granted(task, tokens)), s.tasks[task].from.access)
  {
  }

  lemma InvDenied(s: State, task: nat)
    requires Inv(s) && task in s.tasks && s.tasks[task].Rotating?
    ensures Inv(Next(s, Denied(task)))
  {
    var s' := Next(s, Denied(task));
    assert PhaseInv(s, s.tasks[task]);
    assert CallsInv(s') by {
      CallsAppend(s, s', Lost(s.tasks[task].from));
    }
    assert PhasesInv(s') by {
      forall k | k in s'.tasks ensures PhaseInv(s', s'.tasks[k]) {
        if k != task {
          assert PhaseInv(s, s.tasks[k]);
        }
      }
    }
  }

  lemma InvForeign(s: State, e: Event)
    requires Inv(s) && FreshSecrets(s, e) && (e.ForeignLogin? || e.ForeignLogout?)
    ensures Inv(Next(s, e))
  {
    var s' := Next(s, e);
    forall k | k in s'.tasks ensures PhaseInv(s', s'.tasks[k]) {
      assert PhaseInv(s, s.tasks[k]);
    }
    assert forall u: TokenSet :: Pending(s', u) == Pending(s, u);
  }

  lemma InvNext(s: State, e: Event)
    requires Inv(s) && FreshSecrets(s, e)
    ensures Inv(Next(s, e))
  {
    match e
    case Tick(to) =>
      var s' := Next(s, e);
      assert forall k | k in s.tasks :: PhaseInv(s, s.tasks[k]) ==> PhaseInv(s', s.tasks[k]);
      assert forall u: TokenSet :: Pending(s', u) == Pending(s, u);
    case Start(task) =>
      if task !in s.tasks {
        InvMove(s, task, WantsToken);
      }
    case EnterAccess(task) =>
      if task in s.tasks && s.tasks[task].WantsToken? && s.lock.None? {
        InvEnter(s, task, AccessSegment(s.store, s.now), false);
      }
    case EnterForce(task) =>
      if task in s.tasks && s.tasks[task].Rejected? && s.lock.None? {
        InvEnter(s, task, ForceSegment(s.store, Some(s.tasks[task].stale), s.now), true);
      }
    case Granted(task, tokens) =>
      if task in s.tasks && s.tasks[task].Rotating? {
        InvGranted(s, task, tokens);
      }
    case Denied(task) =>
      if task in s.tasks && s.tasks[task].Rotating? {
        InvDenied(s, task);
      }
    case Reply(task, unauthorized) =>
      if task in s.tasks && s.tasks[task].FirstSent? {
        assert PhaseInv(s, s.tasks[task]);
        InvMove(s, task, if unauthorized then Rejected(s.tasks[task].token) else Done);
      } else if task in s.tasks && s.tasks[task].SecondSent? {
        InvMove(s, task, Done);
      }
    case ForeignLogin(_) => InvForeign(s, e);
    case ForeignLogout => InvForeign(s, e);
  }

  lemma InvEnter(s: State, task: nat, next: Segment, retry: bool)
    requires Inv(s) && task in s.tasks && s.lock == None
    requires if retry then s.tasks[task].Rejected? && next == ForceSegment(s.store, Some(s.tasks[task].stale), s.now)
             else s.tasks[task].WantsToken? && next == AccessSegment(s.store, s.now)
    ensures Inv(Enter(s, task, next, retry,
                      if !next.Answers? then Failed
                      else if retry then SecondSent(next.access, s.tasks[task].stale) else FirstSent(next.access)))
  {
    assert PhaseInv(s, s.tasks[task]);
    match next
    case Raises => InvMove(s, task, Failed);
    case Answers(a) => InvMove(s, task, if retry then SecondSent(a, s.tasks[task].stale) else FirstSent(a));
    case Posts(t) => InvPost(s, task, t, retry);
  }

  lemma {:induction false} InvRun(s: State, events: seq<Event>)
    requires Inv(s) && FreshRun(s, events)
    ensures Inv(Run(s, events))
    decreases |events|
  {
    if events == [] {
    } else {
      InvNext(s, events[0]);
      InvRun(Next(s, events[0]), events[1..]);
    }
  }

  lemma InvInitial(s: State)
    requires Initial(s)
    ensures Inv(s)
  {
  }

  lemma PendingNotWon(s: State, t: TokenSet)
    requires Inv(s)
    ensures Pending(s, t) == 1 ==> Won(t) !in s.calls
  {
  }

  // ---- The guarantees ------------------------------------------------------------------------

  /** In every run, whatever other processes' logins and logouts do: a refresh token is
      never posted after it was successfully exchanged, is exchanged at most once, and
      is posted at most once more than the endpoint refused it. */
  lemma SpentTokensStaySpent(s: State, events: seq<Event>)
    requires Initial(s) && FreshRun(s, events)
    ensures var calls := Run(s, events).calls;
            && NoPostAfterWin(calls)
            && forall t: TokenSet :: multiset(calls)[Won(t)] <= 1 && multiset(calls)[Post(t)] <= 1 + multiset(calls)[Lost(t)]
  {
    InvInitial(s);
    InvRun(s, events);
    var end := Run(s, events);
    forall t: TokenSet ensures multiset(end.calls)[Post(t)] <= 1 + multiset(end.calls)[Lost(t)] {
      PendingNotWon(end, t);
    }
  }

  /** A wave of 401s costs one rotation: however many requests were rejected on access
      token `stale`, once one of them is retrying, the retry carries another token, and no
      set with that token was exchanged twice or posted more than once beyond refusals.
      When no other process interfered, `stale` belongs to one set, exchanged exactly once. */
  lemma OneRotationPerWave(s: State, events: seq<Event>, task: nat)
    requires Initial(s) && FreshRun(s, events)
    requires var end := Run(s, events); task in end.tasks && end.tasks[task].SecondSent?
    ensures var end := Run(s, events);
            && end.tasks[task].token != end.tasks[task].stale
            && (forall t: TokenSet | t.access == end.tasks[task].stale ::
                  multiset(end.calls)[Won(t)] <= 1 && multiset(end.calls)[Post(t)] <= 1 + multiset(end.calls)[Lost(t)])
            && (!end.foreign ==> RotatedOnce(end, end.tasks[task].stale))
  {
    InvInitial(s);
    InvRun(s, events);
    SpentTokensStaySpent(s, events);
    var end := Run(s, events);
    assert PhaseInv(end, end.tasks[task]);
    if !end.foreign {
      var t :| t in end.seen && t.access == end.tasks[task].stale && Won(t) in end.calls;
      assert multiset(end.calls)[Won(t)] == 1;
      PendingNotWon(end, t);
    }
  }

  /** One set ever had access token `a`; it was exchanged once, and every other post of it
      was refused. */
  ghost predicate RotatedOnce(s: State, a: nat) {
    exists t :: t in s.seen && t.access == a && multiset(s.calls)[Won(t)] == 1
                && (forall u | u in s.seen && u.access == a :: u == t)
                && multiset(s.calls)[Post(t)] == 1 + multiset(s.calls)[Lost(t)]
  }

  /** The rest of the wave is free: once `stale` was rotated away, every other task
      rejected on it gets the stored token and posts nothing. */
  lemma LaterRejectionsAreFree(s: State, events: seq<Event>, task: nat)
    requires Initial(s) && FreshRun(s, events)
    requires var end := Run(s, events);
             && task in end.tasks && end.tasks[task].Rejected? && RotatedAway(end, end.tasks[task].stale)
             && end.lock.None? && end.store.Some?
    ensures var end := Run(s, events);
            var next := Next(end, EnterForce(task));
            && next.calls == end.calls && next.store == end.store && next.lock.None?
            && next.tasks[task] == SecondSent(end.store.value.access, end.tasks[task].stale)
            && end.store.value.access != end.tasks[task].stale
  {
    InvInitial(s);
    InvRun(s, events);
  }

  /** The token a task was just handed. */
  function Handed(p: Phase): Option<nat> {
    match p
    case FirstSent(token) => Some(token)
    case SecondSent(token, _) => Some(token)
    case _ => None
  }

  lemma {:induction false} RunSnoc(s: State, events: seq<Event>, e: Event)
    ensures Run(s, events + [e]) == Next(Run(s, events), e)
    ensures FreshRun(s, events + [e]) <==> FreshRun(s, events) && FreshSecrets(Run(s, events), e)
    decreases |events|
  {
    var all := events + [e];
    if events == [] {
      assert all[1..] == [];
    } else {
      assert all[0] == events[0] && all[1..] == events[1..] + [e];
      RunSnoc(Next(s, events[0]), events[1..], e);
    }
  }

  /** The stored token, of a set that was not rotated away. */
  ghost predicate IsStored(s: State, token: nat) {
    s.store.Some? && token == s.store.value.access && Won(s.store.value) !in s.calls
  }

  /** How `task` may come by `token` in state `s`. */
  ghost predicate HandsOut(s: State, e: Event, task: nat, token: nat) {
    match e
    case Granted(t, tokens) => t == task && token == tokens.access
    case EnterAccess(t) => t == task && IsStored(s, token) && s.now + 300.0 < s.store.value.accessExpiresAt
    case EnterForce(t) => t == task && t in s.tasks && s.tasks[t].Rejected? && IsStored(s, token) && token != s.tasks[t].stale
    case _ => false
  }

  /** Every token handed out in a run is one just granted; or the stored one, of a set never
      rotated away, which a first request gets only with more than the leeway left, and a
      rejected one only if it is not the one rejected. (A rejected request is not asked
      whether the stored token has expired.) */
  lemma EveryTokenHandedOut(s: State, events: seq<Event>, e: Event, task: nat)
    requires Initial(s) && FreshRun(s, events + [e])
    requires var before, after := Run(s, events), Run(s, events + [e]);
             task in after.tasks && Handed(after.tasks[task]).Some? && !(task in before.tasks && before.tasks[task] == after.tasks[task])
    ensures HandsOut(Run(s, events), e, task, Handed(Run(s, events + [e]).tasks[task]).value)
  {
    RunSnoc(s, events, e);
    InvInitial(s);
    InvRun(s, events);
    HandedOutStep(Run(s, events), e, task);
  }

  lemma HandedOutStep(s: State, e: Event, task: nat)
    requires SetsInv(s)
    requires var after := Next(s, e);
             task in after.tasks && Handed(after.tasks[task]).Some? && !(task in s.tasks && s.tasks[task] == after.tasks[task])
    ensures HandsOut(s, e, task, Handed(Next(s, e).tasks[task]).value)
  {
  }

  /** What an exchange needs in state `s`: no more than the leeway left for a first request,
      the very token that was rejected for another. */
  ghost predicate Needed(s: State, e: Event) {
    s.store.Some? && s.now < s.store.value.refreshExpiresAt &&
    match e
    case EnterAccess(t) => s.now + 300.0 >= s.store.value.accessExpiresAt
    case EnterForce(t) => t in s.tasks && s.tasks[t] == Rejected(s.store.value.access)
    case _ => false
  }

  /** Every exchange in a run is of the stored set, and needed. */
  lemma EveryExchangeNeeded(s: State, events: seq<Event>, e: Event)
    requires Initial(s) && FreshRun(s, events + [e])
    requires |Run(s, events + [e]).calls| > |Run(s, events).calls| && !e.Granted? && !e.Denied?
    ensures var before, after := Run(s, events), Run(s, events + [e]);
            Needed(before, e) && after.calls == before.calls + [Post(before.store.value)]
  {
    RunSnoc(s, events, e);
  }

  /** A first request with the lock free, in any run: it posts exactly when the stored token
      has at most five minutes left and can be refreshed, answers exactly when it has more,
      and fails otherwise. */
  lemma FirstRequestServed(s: State, events: seq<Event>, task: nat)
    requires Initial(s) && FreshRun(s, events)
    requires var end := Run(s, events); end.lock.None? && task in end.tasks && end.tasks[task].WantsToken?
    ensures Run(s, events + [EnterAccess(task)]) == Next(Run(s, events), EnterAccess(task))
    ensures var end, next := Run(s, events), Next(Run(s, events), EnterAccess(task));
            var expired := end.store.Some? && end.now + 300.0 >= end.store.value.accessExpiresAt;
            var dead := end.store.Some? && end.now >= end.store.value.refreshExpiresAt;
            && task in next.tasks
            && (next.tasks[task].Rotating? <==> expired && !dead)
            && (next.tasks[task].Rotating? ==>
                  next.calls == end.calls + [Post(end.store.value)] && next.lock == Some(task) && next.tasks[task] == Rotating(end.store.value, false))
            && (next.tasks[task].FirstSent? <==> end.store.Some? && !expired)
            && (next.tasks[task].FirstSent? ==> next.tasks[task].token == end.store.value.access && next.calls == end.calls && next.lock.None?)
            && (next.tasks[task].Failed? <==> end.store.None? || (expired && dead))
  {
    RunSnoc(s, events, EnterAccess(task));
  }

  /** A request answered 401, with the lock free, in any run: it posts the stored refresh
      token exactly when the stored access token is the rejected one and can be refreshed;
      it retries with the stored one exactly when that is another; it fails otherwise. */
  lemma RejectedRequestServed(s: State, events: seq<Event>, task: nat)
    requires Initial(s) && FreshRun(s, events)
    requires var end := Run(s, events); end.lock.None? && task in end.tasks && end.tasks[task].Rejected?
    ensures Run(s, events + [EnterForce(task)]) == Next(Run(s, events), EnterForce(task))
    ensures var end, next := Run(s, events), Next(Run(s, events), EnterForce(task));
            var stale := end.tasks[task].stale;
            var same := end.store.Some? && end.store.value.access == stale;
            var dead := end.store.Some? && end.now >= end.store.value.refreshExpiresAt;
            && task in next.tasks
            && (next.tasks[task].Rotating? <==> same && !dead)
            && (next.tasks[task].Rotating? ==>
                  next.calls == end.calls + [Post(end.store.value)] && next.lock == Some(task) && next.tasks[task] == Rotating(end.store.value, true))
            && (next.tasks[task].SecondSent? <==> end.store.Some? && !same)
            && (next.tasks[task].SecondSent? ==> next.tasks[task] == SecondSent(end.store.value.access, stale) && next.calls == end.calls && next.lock.None?)
            && (next.tasks[task].Failed? <==> end.store.None? || (same && dead))
  {
    RunSnoc(s, events, EnterForce(task));
  }

  /** How an exchange ends: a grant is stored and carried by the request, a refusal fails
      it; either way the lock is free. */
  lemma ExchangeEnds(s: State, task: nat, granted: TokenSet)
    requires task in s.tasks && s.tasks[task].Rotating?
    ensures var from, won, lost := s.tasks[task].from, Next(s, Granted(task, granted)), Next(s, Denied(task));
            && won.store == Some(granted) && won.lock.None? && won.calls == s.calls + [Won(from)]
            && won.tasks[task] == (if s.tasks[task].retry then SecondSent(granted.access, from.access) else FirstSent(granted.access))
            && lost.store == s.store && lost.lock.None? && lost.calls == s.calls + [Lost(from)] && lost.tasks[task] == Failed
  {
  }

  /** What an answer does: a 401 to the first request rejects its token, any other answer and
      any answer to the second ends the request; and who starts wants a token. */
  lemma AnswersHandled(s: State, task: nat, unauthorized: bool)
    ensures task !in s.tasks ==> Next(s, Start(task)).tasks == s.tasks[task := WantsToken]
    ensures task in s.tasks && s.tasks[task].FirstSent? ==>
              Next(s, Reply(task, unauthorized)).tasks[task] == if unauthorized then Rejected(s.tasks[task].token) else Done
    ensures task in s.tasks && s.tasks[task].SecondSent? ==> Next(s, Reply(task, unauthorized)).tasks[task] == Done
    ensures var next := Next(s, Reply(task, unauthorized)); next.store == s.store && next.calls == s.calls && next.lock == s.lock
  {
  }

  /** The events by which a wave of rejected tasks is served when its first exchange is
      granted: each other task enters after it. */
  function WaveEvents(tasks: seq<nat>, granted: TokenSet): seq<Event>
    requires tasks != []
  {
    [EnterForce(tasks[0]), Granted(tasks[0], granted)] + Retries(tasks[1..])
  }

  function Retries(tasks: seq<nat>): seq<Event> {
    seq(|tasks|, i requires 0 <= i < |tasks| => EnterForce(tasks[i]))
  }

  ghost predicate AllRejected(s: State, tasks: seq<nat>, stale: nat) {
    && (forall i | 0 <= i < |tasks| :: tasks[i] in s.tasks && s.tasks[tasks[i]] == Rejected(stale))
    && forall i, j | 0 <= i < j < |tasks| :: tasks[i] != tasks[j]
  }

  ghost predicate AllRetried(s: State, tasks: seq<nat>, token: nat, stale: nat) {
    forall i | 0 <= i < |tasks| :: tasks[i] in s.tasks && s.tasks[tasks[i]] == SecondSent(token, stale)
  }

  /** A wave of any size: with the rejected token stored and refreshable, one exchange
      serves every task, and each retries with the new token. */
  lemma WaveIsServed(s: State, tasks: seq<nat>, stale: nat, granted: TokenSet)
    requires tasks != [] && AllRejected(s, tasks, stale) && s.lock.None?
    requires s.store.Some? && s.store.value.access == stale && s.now < s.store.value.refreshExpiresAt && granted.access != stale
    ensures var end := Run(s, WaveEvents(tasks, granted));
            && AllRetried(end, tasks, granted.access, stale) && end.store == Some(granted)
            && end.calls == s.calls + [Post(s.store.value), Won(s.store.value)]
  {
    var first, rest := tasks[0], tasks[1..];
    var posted := Next(s, EnterForce(first));
    var won := Next(posted, Granted(first, granted));
    var events := WaveEvents(tasks, granted);
    assert events[0] == EnterForce(first) && events[1..][0] == Granted(first, granted) && events[1..][1..] == Retries(rest);
    assert Run(s, events) == Run(won, Retries(rest));
    assert AllRejected(won, rest, stale);
    RetriesServed(won, rest, granted.access, stale);
    var end := Run(s, events);
    forall i | 0 <= i < |tasks| ensures tasks[i] in end.tasks && end.tasks[tasks[i]] == SecondSent(granted.access, stale) {
      if i == 0 {
        assert first !in rest;
      } else {
        assert tasks[i] == rest[i - 1];
      }
    }
  }

  lemma {:induction false} RetriesServed(s: State, tasks: seq<nat>, token: nat, stale: nat)
    requires AllRejected(s, tasks, stale) && s.lock.None? && s.store.Some? && s.store.value.access == token != stale
    ensures var end := Run(s, Retries(tasks));
            && AllRetried(end, tasks, token, stale) && end.store == s.store && end.calls == s.calls
            && forall t | t in s.tasks && t !in tasks :: t in end.tasks && end.tasks[t] == s.tasks[t]
    decreases |tasks|
  {
    if tasks == [] {
    } else {
      var first, rest := tasks[0], tasks[1..];
      var s' := Next(s, EnterForce(first));
      assert Retries(tasks)[0] == EnterForce(first) && Retries(tasks)[1..] == Retries(rest);
      assert AllRejected(s', rest, stale);
      RetriesServed(s', rest, token, stale);
      var end := Run(s, Retries(tasks));
      assert first !in rest;
      assert forall i | 0 < i < |tasks| :: tasks[i] == rest[i - 1];
    }
  }

  /** How far a request is: a phase it has left never comes back. */
  function Rank(p: Phase): nat {
    match p
    case WantsToken => 0
    case Rotating(_, retry) => if retry then 4 else 1
    case FirstSent(_) => 2
    case Rejected(_) => 3
    case SecondSent(_, _) => 5
    case Done => 6
    case Failed => 6
  }

  /** A single refresh and retry: whatever happens, a request only moves on, so it is
      refreshed at most once before its first answer and at most once after a 401, and it
      is sent at most twice. */
  lemma RequestsMoveOn(s: State, e: Event, task: nat)
    requires task in s.tasks
    ensures var s' := Next(s, e);
            task in s'.tasks && (s'.tasks[task] == s.tasks[task] || Rank(s.tasks[task]) < Rank(s'.tasks[task]))
            && s.now <= s'.now && (e.Tick? && s.now <= e.to ==> s'.now == e.to)
  {
  }

  /** At most one exchange is in flight, and its holder alone has the lock. */
  lemma OneExchangeAtATime(s: State, events: seq<Event>, a: nat, b: nat)
    requires Initial(s) && FreshRun(s, events)
    requires var end := Run(s, events);
             a in end.tasks && b in end.tasks && end.tasks[a].Rotating? && end.tasks[b].Rotating?
    ensures a == b
  {
    InvInitial(s);
    InvRun(s, events);
  }

  // ---- A login made by another process -----------------------------------------------------

  predicate NoForeign(events: seq<Event>) {
    forall i | 0 <= i < |events| :: !events[i].ForeignLogin? && !events[i].ForeignLogout?
  }

  /** The exchange `task` is in is granted, rather than refused or still out. */
  predicate IsGranted(events: seq<Event>, task: nat)
    decreases |events|
  {
    events != [] &&
    if events[0].Granted? && events[0].task == task then true
    else if events[0].Denied? && events[0].task == task then false
    else IsGranted(events[1..], task)
  }

  ghost predicate ExchangesOnly(s: State, login: TokenSet) {
    forall t | t in s.tasks && s.tasks[t].Rotating? :: s.tasks[t].from == login
  }

  ghost predicate ExchangesOthers(s: State, login: TokenSet) {
    forall t | t in s.tasks && s.tasks[t].Rotating? :: s.tasks[t].from != login
  }

  /** The login was exchanged itself, or it is stored and any exchange out is of it. */
  ghost predicate Honoured(s: State, login: TokenSet) {
    Won(login) in s.calls || (s.store == Some(login) && ExchangesOnly(s, login))
  }

  /** The login is gone without having been exchanged. */
  ghost predicate Vanished(s: State, login: TokenSet) {
    s.store != Some(login) && Won(login) !in s.calls
  }

  /** The login is stored while `holder` exchanges an older set. */
  ghost predicate AtRisk(s: State, login: TokenSet, holder: nat) {
    s.store == Some(login) && Won(login) !in s.calls && s.lock == Some(holder) && ExchangesOthers(s, login)
  }

  predicate Finishes(s: State, e: Event) {
    e.Granted? && e.task in s.tasks && s.tasks[e.task].Rotating?
  }

  /** How a step of this process moves the store, the wins and the exchanges out. */
  lemma LocalStep(s: State, e: Event)
    requires !e.ForeignLogin? && !e.ForeignLogout?
    ensures var s' := Next(s, e);
            && s.seen <= s'.seen
            && (forall c | c in s.calls :: c in s'.calls)
            && (forall t: TokenSet | Won(t) in s'.calls :: Won(t) in s.calls || (Finishes(s, e) && t == s.tasks[e.task].from))
            && s'.store == (if Finishes(s, e) then Some(e.tokens) else s.store)
            && (Finishes(s, e) ==> Won(s.tasks[e.task].from) in s'.calls)
            && (forall t | t in s'.tasks && s'.tasks[t].Rotating? ::
                  (t in s.tasks && s.tasks[t].Rotating? && s.tasks[t].from == s'.tasks[t].from) || s.store == Some(s'.tasks[t].from))
  {
    if Finishes(s, e) {
      assert Next(s, e).calls[|s.calls|] == Won(s.tasks[e.task].from);
    }
  }

  lemma HonouredStep(s: State, e: Event, login: TokenSet)
    requires FreshSecrets(s, e) && !e.ForeignLogin? && !e.ForeignLogout?
    requires Honoured(s, login)
    ensures Honoured(Next(s, e), login)
  {
    LocalStep(s, e);
  }

  lemma VanishedStep(s: State, e: Event, login: TokenSet)
    requires FreshSecrets(s, e) && !e.ForeignLogin? && !e.ForeignLogout?
    requires Vanished(s, login) && login in s.seen && ExchangesOthers(s, login)
    ensures var s' := Next(s, e); Vanished(s', login) && login in s'.seen && ExchangesOthers(s', login)
  {
    LocalStep(s, e);
  }

  lemma AtRiskStep(s: State, e: Event, login: TokenSet, holder: nat)
    requires Inv(s) && FreshSecrets(s, e) && !e.ForeignLogin? && !e.ForeignLogout?
    requires AtRisk(s, login, holder) && login in s.seen
    ensures var s' := Next(s, e);
            && login in s'.seen
            && if e.Granted? && e.task == holder then Vanished(s', login) && ExchangesOthers(s', login)
               else if e.Denied? && e.task == holder then Honoured(s', login)
               else AtRisk(s', login, holder)
  {
  }

  lemma {:induction false} HonouredRun(s: State, events: seq<Event>, login: TokenSet)
    requires Inv(s) && FreshRun(s, events) && NoForeign(events) && Honoured(s, login)
    ensures Honoured(Run(s, events), login)
    decreases |events|
  {
    if events == [] {
    } else {
      InvNext(s, events[0]);
      HonouredStep(s, events[0], login);
      HonouredRun(Next(s, events[0]), events[1..], login);
    }
  }

  lemma {:induction false} VanishedRun(s: State, events: seq<Event>, login: TokenSet)
    requires Inv(s) && FreshRun(s, events) && NoForeign(events)
    requires Vanished(s, login) && login in s.seen && ExchangesOthers(s, login)
    ensures Vanished(Run(s, events), login)
    decreases |events|
  {
    if events == [] {
    } else {
      InvNext(s, events[0]);
      VanishedStep(s, events[0], login);
      VanishedRun(Next(s, events[0]), events[1..], login);
    }
  }

  lemma {:induction false} AtRiskRun(s: State, events: seq<Event>, login: TokenSet, holder: nat)
    requires Inv(s) && FreshRun(s, events) && NoForeign(events)
    requires AtRisk(s, login, holder) && login in s.seen
    ensures Vanished(Run(s, events), login) <==> IsGranted(events, holder)
    decreases |events|
  {
    if events == [] {
    } else {
      var e, s', rest := events[0], Next(s, events[0]), events[1..];
      InvNext(s, e);
      AtRiskStep(s, e, login, holder);
      if e.Granted? && e.task == holder {
        VanishedRun(s', rest, login);
      } else if e.Denied? && e.task == holder {
        HonouredRun(s', rest, login);
      } else {
        AtRiskRun(s', rest, login, holder);
      }
    }
  }

  /** Why the guarantees stop at the process boundary, exactly: a login made by another
      process vanishes, without ever being exchanged, if and only if an exchange was in
      flight when it was made and that exchange is granted, because the save is
      unconditional. */
  lemma ConcurrentLoginIsLost(s: State, login: TokenSet, events: seq<Event>)
    requires Inv(s) && FreshRun(s, [ForeignLogin(login)] + events) && NoForeign(events)
    ensures Vanished(Run(s, [ForeignLogin(login)] + events), login) <==> s.lock.Some? && IsGranted(events, s.lock.value)
  {
    var all, s' := [ForeignLogin(login)] + events, Next(s, ForeignLogin(login));
    assert all[0] == ForeignLogin(login) && all[1..] == events;
    InvNext(s, ForeignLogin(login));
    assert Won(login) !in s.calls by {
      assert forall c | c in s.calls :: c.tokens in s.seen;
    }
    if s.lock.None? {
      HonouredRun(s', events, login);
    } else {
      assert ExchangesOthers(s', login) by {
        assert forall t | t in s.tasks :: PhaseInv(s, s.tasks[t]);
      }
      AtRiskRun(s', events, login, s.lock.value);
    }
  }

  /** With nothing stored and no exchange in flight, only a login stores anything. */
  lemma {:induction false} LoggedOutRun(s: State, events: seq<Event>)
    requires Inv(s) && FreshRun(s, events) && NoForeign(events) && s.store.None? && s.lock.None?
    ensures Run(s, events).store.None?
    decreases |events|
  {
    if events == [] {
    } else {
      InvNext(s, events[0]);
      LoggedOutRun(Next(s, events[0]), events[1..]);
    }
  }

  lemma {:induction false} StoredRun(s: State, events: seq<Event>)
    requires Inv(s) && FreshRun(s, events) && NoForeign(events) && s.store.Some?
    ensures Run(s, events).store.Some?
    decreases |events|
  {
    if events == [] {
    } else {
      InvNext(s, events[0]);
      StoredRun(Next(s, events[0]), events[1..]);
    }
  }

  lemma LogoutStep(s: State, e: Event, holder: nat)
    requires LockInv(s) && !e.ForeignLogin? && !e.ForeignLogout? && s.store.None? && s.lock == Some(holder)
    ensures var s' := Next(s, e);
            if e.Granted? && e.task == holder then s'.store.Some?
            else s'.store.None? && s'.lock == if e.Denied? && e.task == holder then None else Some(holder)
  {
  }

  lemma {:induction false} LogoutRun(s: State, events: seq<Event>, holder: nat)
    requires Inv(s) && FreshRun(s, events) && NoForeign(events) && s.store.None? && s.lock == Some(holder)
    ensures Run(s, events).store.Some? <==> IsGranted(events, holder)
    decreases |events|
  {
    if events == [] {
    } else {
      var e, s', rest := events[0], Next(s, events[0]), events[1..];
      InvNext(s, e);
      LogoutStep(s, e, holder);
      if e.Granted? && e.task == holder {
        StoredRun(s', rest);
      } else if e.Denied? && e.task == holder {
        LoggedOutRun(s', rest);
      } else {
        LogoutRun(s', rest, holder);
      }
    }
  }

  /** A logout made by another process is undone if and only if an exchange was in flight
      when it was made and that exchange is granted. */
  lemma LogoutUndoneExactly(s: State, events: seq<Event>)
    requires Inv(s) && FreshRun(s, [ForeignLogout] + events) && NoForeign(events)
    ensures Run(s, [ForeignLogout] + events).store.Some? <==> s.lock.Some? && IsGranted(events, s.lock.value)
  {
    var all, s' := [ForeignLogout] + events, Next(s, ForeignLogout);
    assert all[0] == ForeignLogout && all[1..] == events;
    InvNext(s, ForeignLogout);
    if s.lock.None? {
      LoggedOutRun(s', events);
    } else {
      LogoutRun(s', events, s.lock.value);
    }
  }

  /** Concretely: a refresh is out, a login is saved, the refresh is granted; the login is
      gone and was never used. */
  lemma LoginOverwritten(first: TokenSet, login: TokenSet, granted: TokenSet) returns (s: State, events: seq<Event>)
    requires first.accessExpiresAt <= 0.0 < first.refreshExpiresAt
    requires Distinct(first, login) && Distinct(login, granted) && Distinct(first, granted)
    ensures Initial(s) && FreshRun(s, events)
    ensures events == [Start(0), EnterAccess(0), ForeignLogin(login), Granted(0, granted)]
    ensures var end := Run(s, events); end.store == Some(granted) && end.calls == [Post(first), Won(first)] && Vanished(end, login)
  {
    s := State(0.0, Some(first), None, map[], [], {first}, false);
    events := [Start(0), EnterAccess(0), ForeignLogin(login), Granted(0, granted)];
    var s1 := Next(s, events[0]);
    var s2 := Next(s1, events[1]);
    assert s2.calls == [Post(first)];
    var s3 := Next(s2, events[2]);
    assert s3.seen == {first, login};
    var s4 := Next(s3, events[3]);
    assert s4.calls == [Post(first), Won(first)];
    RunFrom(s3, events, 3);
    RunFrom(s2, events, 2);
    RunFrom(s1, events, 1);
    RunFrom(s, events, 0);
    assert events[0..] == events;
  }

  /** ... or a logout is, and the old session's refresh stores a new one. */
  lemma LogoutUndone(first: TokenSet, granted: TokenSet) returns (s: State, events: seq<Event>)
    requires first.accessExpiresAt <= 0.0 < first.refreshExpiresAt && Distinct(first, granted)
    ensures Initial(s) && FreshRun(s, events)
    ensures events == [Start(0), EnterAccess(0), ForeignLogout, Granted(0, granted)]
    ensures Run(s, events).store == Some(granted)
  {
    s := State(0.0, Some(first), None, map[], [], {first}, false);
    events := [Start(0), EnterAccess(0), ForeignLogout, Granted(0, granted)];
    var s1 := Next(s, events[0]);
    var s2 := Next(s1, events[1]);
    var s3 := Next(s2, events[2]);
    assert events[0..] == events;
    RunFrom(s3, events, 3);
    RunFrom(s2, events, 2);
    RunFrom(s1, events, 1);
    RunFrom(s, events, 0);
  }

  lemma RunFrom(s: State, events: seq<Event>, i: nat)
    requires i < |events|
    ensures var s' := Next(s, events[i]);
            && Run(s, events[i..]) == Run(s', events[i + 1..])
            && (FreshRun(s, events[i..]) <==> FreshSecrets(s, events[i]) && FreshRun(s', events[i + 1..]))
  {
  }
}
