/** The SPV cookie session (src/anafpy/spv/auth.py): a compare-and-save on a store that
    other processes log in to and out of, and a bounded walk over redirects. */
module SpvSession {
  import opened Wrappers

  type Cookies = map<string, string>

  datatype Session = Session(cookies: Cookies, establishedAt: int)

  // ---- The provider ------------------------------------------------------------------

  /** What the store holds after `rotated(cookies, seen=seen)`. */
  function AfterRotation(store: Option<Session>, cookies: Cookies, seen: Cookies): Option<Session> {
    if store.Some? && store.value.cookies == seen then Some(Session(cookies, store.value.establishedAt)) else store
  }

  class SessionStore {
    var session: Option<Session>
  }

  /** The login handshake: not configured, failing, or minting a session. */
  datatype Bootstrapper = NoBootstrapper | HandshakeFails | Mints(session: Session)

  datatype LoginError = NotConfigured | HandshakeFailed

  class SpvSessionProvider {
    const store: SessionStore

    constructor (store: SessionStore)
      ensures this.store == store
    {
      this.store := store;
    }

    /** `None` stands for the not-authenticated error. */
    method CurrentCookies() returns (cookies: Option<Cookies>)
      ensures cookies == if store.session.Some? then Some(store.session.value.cookies) else None
    {
      var session := store.session;
      if session.None? {
        return None;
      }
      return Some(session.value.cookies);
    }

    method Rotated(cookies: Cookies, seen: Cookies)
      modifies store
      ensures store.session == AfterRotation(old(store.session), cookies, seen)
    {
      var current := store.session;
      if current.None? || current.value.cookies != seen {
        return;
      }
      if current.value.cookies == cookies {
        return;
      }
      store.session := Some(Session(cookies, current.value.establishedAt));
    }

    /** `login`: without a bootstrapper it raises, and a handshake that fails changes
        nothing; a new session replaces whatever is stored. */
    method Login(bootstrapper: Bootstrapper) returns (result: Result<Session, LoginError>)
      modifies store
      ensures match bootstrapper
              case NoBootstrapper => result == Err(NotConfigured) && store.session == old(store.session)
              case HandshakeFails => result == Err(HandshakeFailed) && store.session == old(store.session)
              case Mints(session) => result == Ok(session) && store.session == Some(session)
    {
      match bootstrapper {
        case NoBootstrapper => result := Err(NotConfigured);
        case HandshakeFails => result := Err(HandshakeFailed);
        case Mints(session) =>
          store.session := Some(session);
          result := Ok(session);
      }
    }
  }

  // ---- The redirect walk -----------------------------------------------------------------

  const HOST := "webserviced.anaf.ro"
  const REVALIDATION_PATH := "/my.policy_nonce"
  const LOGIN_WALL_PATHS := ["/my.policy", "/vdesk/"]
  const MAX_REDIRECT_HOPS := 8

  datatype Url = Url(netloc: string, path: string)

  /** A response: whether it redirects (and where), and the cookies it sets or expires. */
  datatype Response = Response(redirect: Option<Url>, setCookies: Cookies, expired: set<string>)

  datatype Fault = OffHost | LoginWall | TooManyHops

  function Extract(jar: Cookies, r: Response): Cookies {
    (jar - r.expired) + r.setCookies
  }

  /** The jar after folding in the first `n` responses. */
  function Jar(initial: Cookies, responses: seq<Response>, n: nat): Cookies
    requires n <= |responses|
  {
    if n == 0 then initial else Extract(Jar(initial, responses, n - 1), responses[n - 1])
  }

  predicate IsLoginWall(u: Url) {
    (LOGIN_WALL_PATHS[0] <= u.path || LOGIN_WALL_PATHS[1] <= u.path) && !(REVALIDATION_PATH <= u.path)
  }

  /** Why a redirect is not followed, in the order the code asks. */
  function Refusal(u: Url): Option<Fault> {
    if u.netloc != HOST then Some(OffHost) else if IsLoginWall(u) then Some(LoginWall) else None
  }

  /** Which redirects are refused, and why: another host; the login pages of the SPV host,
      but not the page that only revalidates the session. */
  lemma RefusalExactly(u: Url)
    ensures Refusal(u) == Some(OffHost) <==> u.netloc != "webserviced.anaf.ro"
    ensures u.netloc == "webserviced.anaf.ro" ==>
              (Refusal(u) == Some(LoginWall) <==>
                 ("/my.policy" <= u.path && !("/my.policy_nonce" <= u.path)) || "/vdesk/" <= u.path)
    ensures Refusal(u) != Some(TooManyHops)
    ensures u.netloc == "webserviced.anaf.ro" && "/my.policy_nonce" <= u.path ==> Refusal(u) == None
  {
    if "/vdesk/" <= u.path {
      assert u.path[1] == "/vdesk/"[1] == 'v';
      assert !("/my.policy_nonce" <= u.path);
    }
  }

  /** What the jar holds after `n` responses: of each name, what the last response that set
      it gave, unless a later one expired it; and what it held at first, if none did either. */
  lemma {:induction false} JarExactly(initial: Cookies, responses: seq<Response>, n: nat, name: string)
    requires n <= |responses|
    ensures var jar := Jar(initial, responses, n);
            && (forall k | 0 <= k < n && name in responses[k].setCookies
                           && (forall j | k < j < n :: name !in responses[j].setCookies && name !in responses[j].expired) ::
                  name in jar && jar[name] == responses[k].setCookies[name])
            && (forall k | 0 <= k < n && name in responses[k].expired && name !in responses[k].setCookies
                           && (forall j | k < j < n :: name !in responses[j].setCookies) ::
                  name !in jar)
            && ((forall k | 0 <= k < n :: name !in responses[k].setCookies && name !in responses[k].expired) ==>
                  (name in jar <==> name in initial) && (name in initial ==> jar[name] == initial[name]))
  {
    if n == 0 {
    } else {
      JarExactly(initial, responses, n - 1, name);
    }
  }

  predicate Follows(r: Response) {
    r.redirect.Some? && Refusal(r.redirect.value) == None
  }

  /** One request: where it goes and the cookies it carries. */
  datatype Sent = Sent(url: Url, cookies: Cookies)

  /** The requests of a walk: the first to the target with the stored cookies, and each
      later one where the followed redirect before it pointed, with the jar so far. */
  ghost predicate Trail(requests: seq<Sent>, target: Url, initial: Cookies, responses: seq<Response>) {
    && 0 < |requests| <= |responses|
    && requests[0] == Sent(target, initial)
    && (forall i | 0 <= i < |requests| - 1 :: Follows(responses[i]))
    && (forall i | 1 <= i < |requests| :: requests[i] == Sent(responses[i - 1].redirect.value, Jar(initial, responses, i)))
  }

  lemma TrailGrows(requests: seq<Sent>, target: Url, initial: Cookies, responses: seq<Response>)
    requires Trail(requests, target, initial, responses) && |requests| < |responses|
    requires Follows(responses[|requests| - 1])
    ensures var n := |requests|;
            Trail(requests + [Sent(responses[n - 1].redirect.value, Jar(initial, responses, n))], target, initial, responses)
  {
  }

  /** The walk comes to rest at response `k`. */
  predicate Settles(responses: seq<Response>, k: nat) {
    k < |responses| && responses[k].redirect.None? && forall i | 0 <= i < k :: Follows(responses[i])
  }

  /** What the first response that is not followed (or the eighth) decides. */
  lemma FirstNotFollowed(responses: seq<Response>, h: nat)
    requires h <= MAX_REDIRECT_HOPS < |responses|
    requires forall i | 0 <= i < h :: Follows(responses[i])
    requires h < MAX_REDIRECT_HOPS ==> !Follows(responses[h])
    ensures (exists k: nat :: k < MAX_REDIRECT_HOPS && Settles(responses, k)) <==>
            h < MAX_REDIRECT_HOPS && Settles(responses, h)
    ensures (forall i | 0 <= i < MAX_REDIRECT_HOPS :: Follows(responses[i])) <==> h == MAX_REDIRECT_HOPS
  {
  }

  /** The flow: the server's `responses` arrive in order, one per request. Returns the
      requests sent, and the final jar or the fault. */
  method Walk(target: Url, initial: Cookies, responses: seq<Response>)
    returns (requests: seq<Sent>, outcome: Result<Cookies, Fault>)
    requires target.netloc == HOST
    requires |responses| >= MAX_REDIRECT_HOPS + 1
    // At most nine requests, all to the SPV host, each carrying the jar folded so far.
    ensures 1 <= |requests| <= 9
    ensures Trail(requests, target, initial, responses)
    // Normal return needs a non-redirect among the first eight responses, reached by
    // redirects that were all followed; the jar then holds every response's cookies.
    ensures outcome.Ok? <==> exists k: nat :: k < 8 && Settles(responses, k)
    ensures outcome.Ok? ==> Settles(responses, |requests| - 1) && outcome.value == Jar(initial, responses, |requests|)
    ensures outcome == Err(TooManyHops) <==> forall i | 0 <= i < 8 :: Follows(responses[i])
    ensures outcome.Err? && outcome.error != TooManyHops ==>
              var last := responses[|requests| - 1];
              last.redirect.Some? && Refusal(last.redirect.value) == Some(outcome.error)
  {
    var jar := initial;
    requests := [Sent(target, initial)];
    var response := responses[0];
    var hop := 0;
    while hop < MAX_REDIRECT_HOPS
      invariant 0 <= hop <= MAX_REDIRECT_HOPS
      invariant |requests| == hop + 1 && Trail(requests, target, initial, responses)
      invariant response == responses[hop]
      invariant jar == Jar(initial, responses, hop)
      invariant forall i | 0 <= i < hop :: Follows(responses[i])
    {
      if !Follows(response) {
        FirstNotFollowed(responses, hop);
      }
      if response.redirect.None? {
        return requests, Ok(Extract(jar, response));
      }
      jar := Extract(jar, response);
      var location := response.redirect.value;
      if location.netloc != HOST {
        return requests, Err(OffHost);
      }
      if IsLoginWall(location) {
        return requests, Err(LoginWall);
      }
      TrailGrows(requests, target, initial, responses);
      requests := requests + [Sent(location, jar)];
      hop := hop + 1;
      response := responses[hop];
    }
    FirstNotFollowed(responses, hop);
    return requests, Err(TooManyHops);
  }

  // ---- Interleaved requests, rotations, logins and logouts ------------------------------------

  /** A request between reading the store and offering its rotation back. `login` is the
      login its cookies descend from (ghost bookkeeping, as is `lineage` below). */
  datatype State = State(
    store: Option<Session>,
    inFlight: map<nat, Cookies>,
    lineage: map<Cookies, nat>,
    logins: nat)

  datatype Event =
    | Begin(task: nat)
    | Rotate(task: nat, cookies: Cookies)
    | Login(session: Session)
    | Logout

  function Next(s: State, e: Event): State {
    match e
    case Begin(task) =>
      if s.store.None? then s else s.(inFlight := s.inFlight[task := s.store.value.cookies])
    case Rotate(task, cookies) =>
      if task !in s.inFlight then s else
      var seen := s.inFlight[task];
      s.(store := AfterRotation(s.store, cookies, seen),
         inFlight := s.inFlight - {task},
         lineage := if seen in s.lineage then s.lineage[cookies := s.lineage[seen]] else s.lineage)
    case Login(session) =>
      s.(store := Some(session), lineage := s.lineage[session.cookies := s.logins], logins := s.logins + 1)
    case Logout => s.(store := None)
  }

  function Run(s: State, events: seq<Event>): State
    decreases |events|
  {
    if events == [] then s else Run(Next(s, events[0]), events[1..])
  }

  /** The server's part: a login mints a cookie set nobody has seen, and a rotation never
      hands out a set of another login. Sets may repeat within one login. */
  predicate ServerKeepsLoginsApart(s: State, e: Event) {
    match e
    case Login(session) => session.cookies !in s.lineage
    case Rotate(task, cookies) =>
      task in s.inFlight && s.inFlight[task] in s.lineage && cookies in s.lineage ==>
        s.lineage[cookies] == s.lineage[s.inFlight[task]]
    case _ => true
  }

  predicate WellServed(s: State, events: seq<Event>)
    decreases |events|
  {
    events != [] ==> ServerKeepsLoginsApart(s, events[0]) && WellServed(Next(s, events[0]), events[1..])
  }

  predicate Inv(s: State) {
    && (s.store.Some? ==> s.store.value.cookies in s.lineage)
    && (forall t | t in s.inFlight :: s.inFlight[t] in s.lineage)
    && (forall c | c in s.lineage :: s.lineage[c] < s.logins)
  }

  /** The login the stored session descends from. */
  function Generation(s: State): Option<nat> {
    if s.store.Some? && s.store.value.cookies in s.lineage then Some(s.lineage[s.store.value.cookies]) else None
  }

  lemma InvStep(s: State, e: Event)
    requires Inv(s) && ServerKeepsLoginsApart(s, e)
    ensures Inv(Next(s, e))
    ensures forall c | c in s.lineage :: c in Next(s, e).lineage && Next(s, e).lineage[c] == s.lineage[c]
  {
  }

  /** Rotations never change which login the store belongs to: a request that started
      from an older session, however late it lands, changes nothing. */
  lemma RotationKeepsGeneration(s: State, task: nat, cookies: Cookies)
    requires Inv(s) && ServerKeepsLoginsApart(s, Rotate(task, cookies))
    ensures var s' := Next(s, Rotate(task, cookies));
            && Generation(s') == Generation(s)
            && (task in s.inFlight && s.store.Some? && s.lineage[s.inFlight[task]] != s.lineage[s.store.value.cookies] ==> s'.store == s.store)
            && (s.store.None? ==> s'.store.None?)
            && (s.store.Some? ==> s'.store.Some? && s'.store.value.establishedAt == s.store.value.establishedAt)
  {
  }

  /** Over any interleaving the session's lineage never goes backwards, and it moves
      forward only by a login: without one, what is stored at the end is the same login. */
  lemma {:induction false} LineageNeverGoesBack(s: State, events: seq<Event>)
    requires Inv(s) && WellServed(s, events)
    ensures var end := Run(s, events);
            && Inv(end)
            && (Generation(s).Some? && Generation(end).Some? ==> Generation(s).value <= Generation(end).value)
            && (Generation(end).Some? ==> Generation(end) == Generation(s) || s.logins <= Generation(end).value)
            && ((forall i | 0 <= i < |events| :: !events[i].Login?) ==> Generation(end).None? || Generation(end) == Generation(s))
    decreases |events|
  {
    if events == [] {
    } else {
      var e, s' := events[0], Next(s, events[0]);
      InvStep(s, e);
      if e.Rotate? {
        RotationKeepsGeneration(s, e.task, e.cookies);
      }
      LineageNeverGoesBack(s', events[1..]);
      assert (forall i | 0 <= i < |events| :: !events[i].Login?) ==> forall i | 0 <= i < |events[1..]| :: !events[1..][i].Login? by {
        assert forall i | 0 <= i < |events[1..]| :: events[1..][i] == events[i + 1];
      }
    }
  }

  // ---- Two rotations from one seen set ----------------------------------------------------------

  predicate Holds(s: State, seen: Cookies) {
    s.store.Some? && s.store.value.cookies == seen
  }

  /** Along the run nobody is handed the cookie set `seen` who did not already start from
      it: logins mint other sets, and rotations move on. */
  predicate NotIssuedAgain(s: State, events: seq<Event>, seen: Cookies)
    decreases |events|
  {
    events != [] ==>
      && (events[0].Login? ==> events[0].session.cookies != seen)
      && (events[0].Rotate? && events[0].task in s.inFlight && events[0].cookies == seen ==> s.inFlight[events[0].task] == seen)
      && NotIssuedAgain(Next(s, events[0]), events[1..], seen)
  }

  lemma {:induction false} StaysAway(s: State, events: seq<Event>, seen: Cookies)
    requires !Holds(s, seen) && NotIssuedAgain(s, events, seen)
    ensures !Holds(Run(s, events), seen)
    decreases |events|
  {
    if events == [] {
    } else {
      StaysAway(Next(s, events[0]), events[1..], seen);
    }
  }

  /** Requests `a` and `b` started from the same set and `a` rotated first, kept or not.
      When `b` lands, after any further events, its set is dropped. */
  lemma OnlyFirstRotationKept(s: State, a: nat, rotated: Cookies, events: seq<Event>, b: nat, cookies: Cookies)
    requires a in s.inFlight && rotated != s.inFlight[a]
    requires var end := Run(Next(s, Rotate(a, rotated)), events); b in end.inFlight && end.inFlight[b] == s.inFlight[a]
    requires NotIssuedAgain(Next(s, Rotate(a, rotated)), events, s.inFlight[a])
    ensures var end := Run(Next(s, Rotate(a, rotated)), events);
            Next(end, Rotate(b, cookies)).store == end.store
  {
    StaysAway(Next(s, Rotate(a, rotated)), events, s.inFlight[a]);
  }

  /** `e` replaces the stored cookies: a login, a logout, or a rotation that is kept. */
  predicate Replaces(s: State, e: Event) {
    match e
    case Begin(_) => false
    case Rotate(task, cookies) => task in s.inFlight && Holds(s, s.inFlight[task]) && cookies != s.inFlight[task]
    case Login(_) => true
    case Logout => true
  }

  predicate Undisturbed(s: State, events: seq<Event>)
    decreases |events|
  {
    events != [] ==> !Replaces(s, events[0]) && Undisturbed(Next(s, events[0]), events[1..])
  }

  lemma {:induction false} HoldsUndisturbed(s: State, events: seq<Event>, seen: Cookies)
    requires Holds(s, seen) && NotIssuedAgain(s, events, seen)
    ensures Holds(Run(s, events), seen) <==> Undisturbed(s, events)
    decreases |events|
  {
    if events == [] {
    } else {
      var s' := Next(s, events[0]);
      if Replaces(s, events[0]) {
        assert !Holds(s', seen);
        StaysAway(s', events[1..], seen);
      } else {
        HoldsUndisturbed(s', events[1..], seen);
      }
    }
  }

  /** A request carries the stored cookies; a login replaces the session, a logout drops it. */
  lemma EventsExactly(s: State, task: nat, session: Session)
    ensures s.store.Some? ==> Next(s, Begin(task)) == s.(inFlight := s.inFlight[task := s.store.value.cookies])
    ensures s.store.None? ==> Next(s, Begin(task)) == s
    ensures Next(s, Login(session)).store == Some(session) && Next(s, Logout).store == None
    ensures Next(s, Login(session)).inFlight == s.inFlight && Next(s, Logout).inFlight == s.inFlight
  {
  }

  /** Over any interleaving between a request's start and its rotation: the rotation is
      kept if and only if no login, logout or other kept rotation came in between. */
  lemma KeptExactly(s: State, task: nat, events: seq<Event>, cookies: Cookies)
    requires s.store.Some? && cookies != s.store.value.cookies
    requires NotIssuedAgain(Next(s, Begin(task)), events, s.store.value.cookies)
    requires var end := Run(Next(s, Begin(task)), events); task in end.inFlight && end.inFlight[task] == s.store.value.cookies
    ensures var end := Run(Next(s, Begin(task)), events);
            && (Next(end, Rotate(task, cookies)).store != end.store <==> Undisturbed(Next(s, Begin(task)), events))
            && (Next(end, Rotate(task, cookies)).store != end.store ==>
                  end.store.Some? && Next(end, Rotate(task, cookies)).store == Some(Session(cookies, end.store.value.establishedAt)))
  {
    HoldsUndisturbed(Next(s, Begin(task)), events, s.store.value.cookies);
  }
}
