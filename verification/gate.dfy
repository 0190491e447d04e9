/** The two-step filing gate (src/anafpy/mcp/gate.py): prepare, human approval, submit.

    SHA-256 is modelled as injective (a digest is its input) and HS256 as unforgeable
    (a token is its claims record, labelled with the key that signed it). Strings are
    their UTF-8 bytes. The clock is a real number of epoch seconds. */
module Gate {
  import opened Wrappers

  type Byte = x: int | 0 <= x < 256
  type Bytes = seq<Byte>
  type Key = nat

  datatype Digest = Sha256(preimage: Bytes)
  datatype Claims = Claims(kind: Bytes, digest: Digest, exp: int)
  /** A token is a string; `spelling` tells apart the strings (if there are several) that
      decode to the same claims. */
  datatype Token = Jwt(key: Key, claims: Claims, spelling: nat) | Opaque(text: Bytes)

  /** What a human approves: the operation, its context (the CIF) and the exact bytes. */
  datatype Filing = Filing(kind: Bytes, context: Bytes, payload: Bytes)

  datatype ConfirmationError = Malformed | Expired | WrongKind | Mismatch

  // ---- Token primitives ------------------------------------------------------------

  function DigestInput(f: Filing): Bytes {
    f.kind + [0] + f.context + [0] + f.payload
  }

  predicate NulFree(f: Filing) {
    0 !in f.kind && 0 !in f.context
  }

  /** `int(x)` of a float: truncation toward zero. */
  function Truncate(x: real): int {
    if x >= 0.0 then x.Floor else -((-x).Floor)
  }

  function IssueToken(key: Key, f: Filing, now: real, ttl: real): Token {
    Jwt(key, Claims(f.kind, Sha256(DigestInput(f)), Truncate(now + ttl)), 0)
  }

  function VerifyToken(key: Key, token: Token, f: Filing, now: real): Result<int, ConfirmationError> {
    if token.Opaque? || token.key != key then Err(Malformed)
    else if token.claims.exp as real <= now then Err(Expired)
    else if token.claims.kind != f.kind then Err(WrongKind)
    else if token.claims.digest != Sha256(DigestInput(f)) then Err(Mismatch)
    else Ok(token.claims.exp)
  }

  /** Splitting at the first NUL recovers the part before it. */
  lemma FirstNul(a: Bytes, x: Bytes, b: Bytes, y: Bytes)
    requires 0 !in a && 0 !in b
    requires a + [0] + x == b + [0] + y
    ensures a == b && x == y
  {
    var s := a + [0] + x;
    assert s == b + [0] + y;
    assert s[|a|] == 0 && s[|b|] == 0;
    assert forall k | 0 <= k < |a| :: s[k] == a[k] && a[k] in a;
    assert forall k | 0 <= k < |b| :: s[k] == b[k] && b[k] in b;
    assert a == s[..|a|] && b == s[..|b|];
    assert x == s[|a| + 1..] && y == s[|b| + 1..];
  }

  /** No two submissions with NUL-free kind and context share a digest input. */
  lemma DigestInputInjective(f: Filing, g: Filing)
    requires NulFree(f) && NulFree(g)
    ensures DigestInput(f) == DigestInput(g) <==> f == g
  {
    if DigestInput(f) == DigestInput(g) {
      KindThenTail(f);
      KindThenTail(g);
      FirstNul(f.kind, Tail(f), g.kind, Tail(g));
      FirstNul(f.context, f.payload, g.context, g.payload);
    }
  }

  /** What the digest input holds after the kind. */
  function Tail(f: Filing): Bytes {
    f.context + [0] + f.payload
  }

  lemma KindThenTail(f: Filing)
    ensures DigestInput(f) == f.kind + [0] + Tail(f)
    ensures DigestInput(f)[|f.kind| + 1..] == Tail(f)
  {
  }

  /** Both sides of one separator are NUL-free exactly if it is the only NUL. */
  lemma OnlyNul(a: Bytes, b: Bytes)
    ensures multiset(a + [0] + b)[0] == 1 <==> 0 !in a && 0 !in b
  {
  }

  lemma SplitAtNul(s: Bytes) returns (a: Bytes, b: Bytes)
    requires 0 in s
    ensures s == a + [0] + b
  {
    var i :| 0 <= i < |s| && s[i] == 0;
    a, b := s[..i], s[i + 1..];
  }

  /** A submission without any NUL is alone with its digest input. */
  lemma NulFreeDigest(f: Filing, g: Filing)
    requires 0 !in f.kind && 0 !in f.context && 0 !in f.payload && DigestInput(g) == DigestInput(f)
    ensures g == f
  {
    CountNuls(f);
    CountNuls(g);
    assert 0 in g.kind ==> multiset(g.kind)[0] > 0;
    assert 0 in g.context ==> multiset(g.context)[0] > 0;
    DigestInputInjective(f, g);
  }

  lemma CountNuls(f: Filing)
    ensures multiset(DigestInput(f))[0] == multiset(f.kind)[0] + multiset(f.context)[0] + multiset(f.payload)[0] + 2
  {
  }

  /** One with a NUL is not. */
  lemma NulDigestShared(f: Filing) returns (g: Filing)
    requires 0 in f.kind || 0 in f.context || 0 in f.payload
    ensures DigestInput(g) == DigestInput(f) && g != f
  {
    if 0 in f.kind {
      var a, b := SplitAtNul(f.kind);
      g := Filing(a, b + [0] + f.context, f.payload);
      assert |g.kind| < |f.kind|;
    } else if 0 in f.context {
      var a, b := SplitAtNul(f.context);
      g := Filing(f.kind, a, b + [0] + f.payload);
      assert |g.context| < |f.context|;
    } else {
      var a, b := SplitAtNul(f.payload);
      g := Filing(f.kind, f.context + [0] + a, b);
      assert |g.context| > |f.context|;
    }
  }

  /** The digest pins a submission down exactly when none of its three parts has a NUL. */
  lemma DigestBindsExactly(f: Filing)
    ensures (forall g :: DigestInput(g) == DigestInput(f) ==> g == f) <==>
            0 !in f.kind && 0 !in f.context && 0 !in f.payload
  {
    if 0 in f.kind || 0 in f.context || 0 in f.payload {
      var g := NulDigestShared(f);
    } else {
      forall g | DigestInput(g) == DigestInput(f) ensures g == f {
        NulFreeDigest(f, g);
      }
    }
  }

  /** What a token can tell apart: the kind is a claim of its own, the rest is digested. */
  predicate SameApproval(f: Filing, g: Filing) {
    f.kind == g.kind && Tail(f) == Tail(g)
  }

  /** An issued token verifies, strictly before its truncated expiry, for exactly the
      submissions it cannot tell from the one it was issued for. */
  lemma IssuedTokenVerifies(key: Key, f: Filing, at: real, ttl: real, g: Filing, now: real)
    ensures VerifyToken(key, IssueToken(key, f, at, ttl), g, now).Ok? <==>
            SameApproval(f, g) && now < Truncate(at + ttl) as real
  {
    KindThenTail(f);
    KindThenTail(g);
  }

  /** A submission of a tool: its context is a fixed prefix ("cif=", "filename=") and a
      value that is not empty. */
  predicate Buildable(prefix: Bytes, f: Filing) {
    prefix <= f.context && |f.context| > |prefix|
  }

  /** No NUL after the value's first byte, nor in the document. */
  predicate Binding(prefix: Bytes, f: Filing)
    requires Buildable(prefix, f)
  {
    0 !in f.context[|prefix| + 1..] && 0 !in f.payload
  }

  /** Among the submissions a tool can build, an approval names one exactly when it is
      `Binding`. */
  lemma ApprovalBindsExactly(prefix: Bytes, f: Filing)
    requires Buildable(prefix, f)
    ensures (forall g | Buildable(prefix, g) && SameApproval(f, g) :: g == f) <==> Binding(prefix, f)
  {
    var n := |prefix| + 1;
    if !Binding(prefix, f) {
      var g := Confusable(prefix, f);
      assert Buildable(prefix, g) && SameApproval(f, g) && g != f;
    } else {
      forall g | Buildable(prefix, g) && SameApproval(f, g) ensures g == f {
        var a, b := f.context[n..], g.context[n..];
        assert f.context == f.context[..n] + a && g.context == g.context[..n] + b;
        assert Tail(f)[..n] == f.context[..n] && Tail(g)[..n] == g.context[..n];
        assert Tail(f)[n..] == a + [0] + f.payload && Tail(g)[n..] == b + [0] + g.payload;
        OnlyNul(a, f.payload);
        OnlyNul(b, g.payload);
        FirstNul(a, f.payload, b, g.payload);
      }
    }
  }

  /** Another submission the same token verifies for. */
  lemma Confusable(prefix: Bytes, f: Filing) returns (g: Filing)
    requires Buildable(prefix, f) && !Binding(prefix, f)
    ensures Buildable(prefix, g) && SameApproval(f, g) && g != f
  {
    var n := |prefix| + 1;
    if 0 in f.payload {
      var a, b := SplitAtNul(f.payload);
      g := Filing(f.kind, f.context + [0] + a, b);
      assert Tail(g) == Tail(f);
      assert |g.context| > |f.context|;
    } else {
      var a, b := SplitAtNul(f.context[n..]);
      g := Filing(f.kind, f.context[..n] + a, b + [0] + f.payload);
      assert f.context == f.context[..n] + (a + [0] + b);
      assert Tail(g) == Tail(f);
      assert |g.context| < |f.context|;
      assert g.context[..|prefix|] == prefix;
    }
  }

  /** Concretely: an approval of the bytes "A", NUL, "B" for CIF 1 verifies for the bytes
      "B" under the CIF "1", NUL, "A". */
  lemma DigestInputAmbiguousWithNul(kind: Bytes)
    ensures var f, g := Filing(kind, SubmissionContext([49]), [65, 0, 66]), Filing(kind, SubmissionContext([49, 0, 65]), [66]);
            && Buildable(CIF_PREFIX, f) && Buildable(CIF_PREFIX, g) && f != g
            && SameApproval(f, g) && DigestInput(f) == DigestInput(g)
  {
  }

  /** The tokens accepted, and why others are refused, in the order of the checks. */
  lemma VerdictExactly(key: Key, token: Token, f: Filing, now: real)
    ensures var v := VerifyToken(key, token, f, now);
            var genuine := token.Jwt? && token.key == key;
            var live := genuine && now < token.claims.exp as real;
            var bytes := f.kind + [0] + f.context + [0] + f.payload;
            && (v == Err(Malformed) <==> !genuine)
            && (v == Err(Expired) <==> genuine && !live)
            && (v == Err(WrongKind) <==> live && token.claims.kind != f.kind)
            && (v == Err(Mismatch) <==> live && token.claims.kind == f.kind && token.claims.digest != Sha256(bytes))
            && (v.Ok? <==> live && token.claims.kind == f.kind && token.claims.digest == Sha256(bytes))
            && (v.Ok? ==> v.value == token.claims.exp)
  {
  }

  /** A token lives for its TTL, to the second. */
  lemma TokenLifetime(key: Key, f: Filing, at: real, ttl: real, now: real)
    requires at + ttl >= 0.0
    ensures now < at + ttl - 1.0 ==> VerifyToken(key, IssueToken(key, f, at, ttl), f, now).Ok?
    ensures now >= at + ttl ==> VerifyToken(key, IssueToken(key, f, at, ttl), f, now) == Err(Expired)
    ensures VerifyToken(key, IssueToken(key, f, at, ttl), f, now).Ok? <==> now < (at + ttl).Floor as real
  {
    IssuedTokenVerifies(key, f, at, ttl, f, now);
  }

  // ---- The ledger ------------------------------------------------------------------

  type Ledger = map<Token, int>

  /** The entries that have not passed their expiry. */
  function Live(used: Ledger, now: real): Ledger {
    map t | t in used && used[t] as real > now :: used[t]
  }

  class TokenLedger {
    var used: Ledger

    constructor ()
      ensures used == map[]
    {
      used := map[];
    }

    /** Redeems `token` at clock reading `now`; false when a live entry says it was used. */
    method Consume(token: Token, expiresAt: int, now: real) returns (first: bool)
      modifies this
      ensures first <==> !(token in old(used) && old(used)[token] as real > now)
      ensures used == if first then Live(old(used), now)[token := expiresAt] else Live(old(used), now)
    {
      used := map t | t in used && used[t] as real > now :: used[t];
      if token in used {
        return false;
      }
      used := used[token := expiresAt];
      return true;
    }
  }

  // ---- STEP 2: run_submit ----------------------------------------------------------

  datatype SubmitResult =
    | NotConfirmed
    | BadInput
    | Refused(error: ConfirmationError)
    | ClientUnavailable
    | AlreadyUsed
    | Filed
    | OutcomeUnknown

  function RequireCif(cif: Option<Bytes>, configured: Option<Bytes>): Option<Bytes> {
    if cif.Some? && cif.value != [] then cif
    else if configured.Some? && configured.value != [] then configured
    else None
  }

  const CIF_PREFIX: Bytes := [99, 105, 102, 61]  // "cif="

  function SubmissionContext(cif: Bytes): Bytes {
    CIF_PREFIX + cif
  }

  /** A configured or passed value that is absent or empty. */
  predicate Blank(value: Option<Bytes>) {
    value.None? || value.value == []
  }

  /** The CIF passed wins over the configured one; an empty one counts as none. */
  lemma RequireCifExactly(cif: Option<Bytes>, configured: Option<Bytes>)
    ensures !Blank(cif) ==> RequireCif(cif, configured) == cif
    ensures Blank(cif) && !Blank(configured) ==> RequireCif(cif, configured) == configured
    ensures RequireCif(cif, configured).None? <==> Blank(cif) && Blank(configured)
  {
  }

  /** The whole STEP-2 skeleton. `document` is what resolving the input gave; the two
      clock reads are separate arguments because verification and redemption read the
      clock separately. `checked` is what the token was verified against, if it came to
      that, and `sent` the call made to the upload, if any. */
  method RunSubmit(ledger: TokenLedger, key: Key, kind: Bytes, document: Option<Bytes>, token: Token,
                   confirm: bool, cif: Option<Bytes>, configured: Option<Bytes>,
                   verifyAt: real, consumeAt: real, clientReady: bool, uploadReturns: bool)
    returns (result: SubmitResult, checked: Option<Filing>, sent: Option<Filing>)
    modifies ledger
    ensures result.NotConfirmed? <==> !confirm
    ensures result.BadInput? <==> confirm && (document.None? || (Blank(cif) && Blank(configured)))
    // What is verified: the document's bytes, for the CIF passed or else the configured one.
    ensures checked.Some? <==> confirm && document.Some? && !(Blank(cif) && Blank(configured))
    ensures checked.Some? ==>
              && checked.value.kind == kind && checked.value.payload == document.value
              && checked.value.context == [99, 105, 102, 61] + (if Blank(cif) then configured.value else cif.value)
    ensures result.Refused? <==> checked.Some? && VerifyToken(key, token, checked.value, verifyAt).Err?
    ensures result.Refused? ==> VerifyToken(key, token, checked.value, verifyAt) == Err(result.error)
    ensures result.ClientUnavailable? <==> checked.Some? && VerifyToken(key, token, checked.value, verifyAt).Ok? && !clientReady
    ensures result.AlreadyUsed? <==>
              && checked.Some? && VerifyToken(key, token, checked.value, verifyAt).Ok? && clientReady
              && token in old(ledger.used) && old(ledger.used)[token] as real > consumeAt
    ensures sent.Some? <==> result.Filed? || result.OutcomeUnknown?
    ensures sent.Some? ==> sent == checked && token.Jwt? && ledger.used == Live(old(ledger.used), consumeAt)[token := token.claims.exp]
    ensures result.Filed? ==> uploadReturns
    ensures result.OutcomeUnknown? ==> !uploadReturns
    // An approval is burnt only by a call to the upload.
    ensures sent.None? ==> ledger.used == old(ledger.used) || (result.AlreadyUsed? && ledger.used == Live(old(ledger.used), consumeAt))
    // Given a client and a monotone clock, a submit is a verification and a redemption
    // of the protocol below.
    ensures checked.Some? && clientReady && verifyAt <= consumeAt ==>
              (ledger.used, if sent.Some? then [Upload(token, sent.value, verifyAt)] else [])
              == VerifyThenRedeem(key, old(ledger.used), token, checked.value, verifyAt, consumeAt)
  {
    checked, sent := None, None;
    if !confirm {
      return NotConfirmed, checked, sent;
    }
    var resolved := RequireCif(cif, configured);
    if document.None? || resolved.None? {
      return BadInput, checked, sent;
    }
    var filing := Filing(kind, SubmissionContext(resolved.value), document.value);
    checked := Some(filing);
    if verifyAt <= consumeAt {
      VerifyThenRedeemIs(key, ledger.used, token, filing, verifyAt, consumeAt);
    }
    var verified := VerifyToken(key, token, filing, verifyAt);
    if verified.Err? {
      return Refused(verified.error), checked, sent;
    }
    if !clientReady {
      return ClientUnavailable, checked, sent;
    }
    var first := ledger.Consume(token, verified.value, consumeAt);
    if !first {
      return AlreadyUsed, checked, sent;
    }
    sent := Some(filing);
    result := if uploadReturns then Filed else OutcomeUnknown;
  }

  // ---- The protocol: any number of interleaved prepares and submits -------------------

  datatype Preparation = Preparation(filing: Filing, at: real, ttl: real)
  datatype Pending = Pending(token: Token, filing: Filing, verifiedAt: real, expiresAt: int)
  datatype Upload = Upload(token: Token, filing: Filing, verifiedAt: real)

  datatype State = State(
    now: real,
    ledger: Ledger,
    prepared: seq<Preparation>,
    pending: map<nat, Pending>,
    uploads: seq<Upload>)

  /** A submit is two events, because other tasks and the clock may move between the
      verification and the redemption. */
  datatype Event =
    | Tick(to: real)
    | Prepare(filing: Filing, ttl: real)
    | Verify(task: nat, token: Token, filing: Filing)
    | Redeem(task: nat)

  datatype Answer =
    | Silent
    | Issued(token: Token)
    | Checked(verdict: Result<int, ConfirmationError>)
    | Redeemed(first: bool)

  /** One event. With `prunes` the ledger drops expired entries as the code does;
      without, it only grows. */
  function Next(key: Key, prunes: bool, s: State, e: Event): (State, Answer) {
    match e
    case Tick(to) => (if to > s.now then s.(now := to) else s, Silent)
    case Prepare(filing, ttl) =>
      (s.(prepared := s.prepared + [Preparation(filing, s.now, ttl)]), Issued(IssueToken(key, filing, s.now, ttl)))
    case Verify(task, token, filing) =>
      var verdict := VerifyToken(key, token, filing, s.now);
      (if verdict.Ok? then s.(pending := s.pending[task := Pending(token, filing, s.now, verdict.value)]) else s,
       Checked(verdict))
    case Redeem(task) =>
      if task !in s.pending then (s, Silent) else
      var p := s.pending[task];
      var kept := if prunes then Live(s.ledger, s.now) else s.ledger;
      var s' := s.(ledger := kept, pending := s.pending - {task});
      if p.token in kept then (s', Redeemed(false))
      else (s'.(ledger := kept[p.token := p.expiresAt], uploads := s.uploads + [Upload(p.token, p.filing, p.verifiedAt)]),
            Redeemed(true))
  }

  /** One submit, run alone as events: the ledger after it and what it uploaded. */
  function VerifyThenRedeem(key: Key, used: Ledger, token: Token, filing: Filing, verifyAt: real, redeemAt: real): (Ledger, seq<Upload>) {
    var s := State(verifyAt, used, [], map[], []);
    var verified := Next(key, true, s, Verify(0, token, filing)).0;
    var later := Next(key, true, verified, Tick(redeemAt)).0;
    var end := Next(key, true, later, Redeem(0)).0;
    (end.ledger, end.uploads)
  }

  lemma VerifyThenRedeemIs(key: Key, used: Ledger, token: Token, filing: Filing, verifyAt: real, redeemAt: real)
    requires verifyAt <= redeemAt
    ensures VerifyThenRedeem(key, used, token, filing, verifyAt, redeemAt) ==
            match VerifyToken(key, token, filing, verifyAt)
            case Err(_) => (used, [])
            case Ok(exp) =>
              if token in Live(used, redeemAt) then (Live(used, redeemAt), [])
              else (Live(used, redeemAt)[token := exp], [Upload(token, filing, verifyAt)])
  {
    var s := State(verifyAt, used, [], map[], []);
    var verified := Next(key, true, s, Verify(0, token, filing)).0;
    var later := Next(key, true, verified, Tick(redeemAt)).0;
    assert later.now == redeemAt && later.ledger == used && later.uploads == [];
    if VerifyToken(key, token, filing, verifyAt).Ok? {
      var p := Pending(token, filing, verifyAt, VerifyToken(key, token, filing, verifyAt).value);
      assert later.pending == map[0 := p];
      assert [] + [Upload(token, filing, verifyAt)] == [Upload(token, filing, verifyAt)];
    } else {
      assert later.pending == map[];
    }
  }

  function Run(key: Key, prunes: bool, s: State, events: seq<Event>): State
    decreases |events|
  {
    if events == [] then s else Run(key, prunes, Next(key, prunes, s, events[0]).0, events[1..])
  }

  function Answers(key: Key, prunes: bool, s: State, events: seq<Event>): seq<Answer>
    decreases |events|
  {
    if events == [] then []
    else [Next(key, prunes, s, events[0]).1] + Answers(key, prunes, Next(key, prunes, s, events[0]).0, events[1..])
  }

  predicate Initial(s: State) {
    s.now >= 0.0 && s.ledger == map[] && s.prepared == [] && s.pending == map[] && s.uploads == []
  }

  function Spent(uploads: seq<Upload>): set<Token> {
    set i | 0 <= i < |uploads| :: uploads[i].token
  }

  ghost predicate NoTokenTwice(uploads: seq<Upload>) {
    forall i, j :: 0 <= i < j < |uploads| ==> uploads[i].token != uploads[j].token
  }

  /** The one event the pruning ledger gets wrong: redeeming a spent token at or after
      its expiry, having verified it before. */
  predicate LateReplay(s: State, e: Event) {
    e.Redeem? && e.task in s.pending &&
    s.pending[e.task].token in Spent(s.uploads) && s.pending[e.task].expiresAt as real <= s.now
  }

  predicate HasLateReplay(key: Key, prunes: bool, s: State, events: seq<Event>)
    decreases |events|
  {
    events != [] && (LateReplay(s, events[0]) || HasLateReplay(key, prunes, Next(key, prunes, s, events[0]).0, events[1..]))
  }

  /** Every entry carries its token's own expiry, and the ledger holds exactly spent
      tokens, missing at most the expired ones (none, when it never prunes). */
  ghost predicate LedgerInv(prunes: bool, s: State) {
    && (forall task | task in s.pending :: s.pending[task].token.Jwt? && s.pending[task].expiresAt == s.pending[task].token.claims.exp)
    && (forall t | t in Spent(s.uploads) :: t.Jwt?)
    && s.ledger.Keys <= Spent(s.uploads)
    && (forall t | t in s.ledger :: s.ledger[t] == t.claims.exp)
    && (forall t | t in Spent(s.uploads) && (prunes ==> t.claims.exp as real > s.now) :: t in s.ledger)
  }

  lemma SpentAppend(uploads: seq<Upload>, u: Upload)
    ensures Spent(uploads + [u]) == Spent(uploads) + {u.token}
  {
    var more := uploads + [u];
    forall t | t in Spent(uploads) + {u.token} ensures t in Spent(more) {
      if t in Spent(uploads) {
        var i :| 0 <= i < |uploads| && uploads[i].token == t;
        assert more[i].token == t;
      } else {
        assert more[|uploads|].token == t;
      }
    }
  }

  lemma LedgerInvStep(key: Key, prunes: bool, s: State, e: Event)
    requires LedgerInv(prunes, s)
    ensures LedgerInv(prunes, Next(key, prunes, s, e).0)
  {
    if e.Redeem? && e.task in s.pending {
      var p := s.pending[e.task];
      SpentAppend(s.uploads, Upload(p.token, p.filing, p.verifiedAt));
    }
  }

  /** Which redemptions succeed, exactly. */
  lemma RedeemAnswer(key: Key, prunes: bool, s: State, task: nat)
    requires LedgerInv(prunes, s) && task in s.pending
    ensures Next(key, prunes, s, Redeem(task)).1.first <==>
            s.pending[task].token !in Spent(s.uploads) || (prunes && LateReplay(s, Redeem(task)))
  {
  }

  /** Single use, exactly: a run of interleaved prepares, submits and clock ticks files
      some token twice if and only if it replays a spent token late. */
  lemma {:induction false} SingleUse(key: Key, s: State, events: seq<Event>)
    requires LedgerInv(true, s) && NoTokenTwice(s.uploads)
    ensures NoTokenTwice(Run(key, true, s, events).uploads) <==> !HasLateReplay(key, true, s, events)
    decreases |events|
  {
    if events == [] {
    } else {
      var e, s' := events[0], Next(key, true, s, events[0]).0;
      LedgerInvStep(key, true, s, e);
      if e.Redeem? && e.task in s.pending {
        RedeemAnswer(key, true, s, e.task);
      }
      if LateReplay(s, e) {
        var i :| 0 <= i < |s.uploads| && s.uploads[i].token == s.pending[e.task].token;
        assert s'.uploads[i].token == s'.uploads[|s.uploads|].token;
        UploadsOnlyGrow(key, true, s', events[1..]);
        assert s'.uploads <= Run(key, true, s', events[1..]).uploads;
      } else {
        SingleUse(key, s', events[1..]);
      }
    }
  }

  // ---- Approvals, rather than tokens -------------------------------------------------

  /** The approval a token carries: its claims, however spelled. */
  function Approval(t: Token): Token {
    if t.Jwt? then t.(spelling := 0) else t
  }

  ghost predicate NoApprovalTwice(uploads: seq<Upload>) {
    forall i, j :: 0 <= i < j < |uploads| ==> Approval(uploads[i].token) != Approval(uploads[j].token)
  }

  /** The ledger, keyed by the string, lets a second spelling of a spent approval pass. */
  ghost predicate Respelled(s: State, e: Event) {
    && e.Redeem? && e.task in s.pending && s.pending[e.task].token !in Spent(s.uploads)
    && exists i :: 0 <= i < |s.uploads| && Approval(s.uploads[i].token) == Approval(s.pending[e.task].token)
  }

  ghost predicate HasRespelled(key: Key, s: State, events: seq<Event>)
    decreases |events|
  {
    events != [] && (Respelled(s, events[0]) || HasRespelled(key, Next(key, true, s, events[0]).0, events[1..]))
  }

  lemma TwiceStays(key: Key, s: State, events: seq<Event>)
    requires !NoApprovalTwice(s.uploads)
    ensures !NoApprovalTwice(Run(key, true, s, events).uploads)
  {
    var i, j :| 0 <= i < j < |s.uploads| && Approval(s.uploads[i].token) == Approval(s.uploads[j].token);
    UploadsOnlyGrow(key, true, s, events);
    var end := Run(key, true, s, events);
    assert end.uploads[i] == s.uploads[i] && end.uploads[j] == s.uploads[j];
  }

  lemma ApprovalStep(key: Key, s: State, e: Event)
    requires LedgerInv(true, s) && NoApprovalTwice(s.uploads)
    ensures NoApprovalTwice(Next(key, true, s, e).0.uploads) <==> !LateReplay(s, e) && !Respelled(s, e)
  {
    var s' := Next(key, true, s, e).0;
    if e.Redeem? && e.task in s.pending {
      RedeemAnswer(key, true, s, e.task);
      var n, token := |s.uploads|, s.pending[e.task].token;
      if LateReplay(s, e) || Respelled(s, e) {
        assert s'.uploads[n].token == token;
        if LateReplay(s, e) {
          var i :| 0 <= i < n && s.uploads[i].token == token;
          assert s'.uploads[i] == s.uploads[i];
        } else {
          var i :| 0 <= i < n && Approval(s.uploads[i].token) == Approval(token);
          assert s'.uploads[i] == s.uploads[i];
        }
      }
    }
  }

  /** No approval is filed twice, exactly: a run files one twice if and only if it replays a
      spent token late, or redeems a second spelling of a spent one. */
  lemma {:induction false} ApprovalFiledOnce(key: Key, s: State, events: seq<Event>)
    requires LedgerInv(true, s) && NoApprovalTwice(s.uploads)
    ensures NoApprovalTwice(Run(key, true, s, events).uploads) <==>
            !HasLateReplay(key, true, s, events) && !HasRespelled(key, s, events)
    decreases |events|
  {
    if events == [] {
    } else {
      var e, s' := events[0], Next(key, true, s, events[0]).0;
      LedgerInvStep(key, true, s, e);
      ApprovalStep(key, s, e);
      if NoApprovalTwice(s'.uploads) {
        ApprovalFiledOnce(key, s', events[1..]);
      } else {
        TwiceStays(key, s', events[1..]);
      }
    }
  }

  lemma {:induction false} UploadsOnlyGrow(key: Key, prunes: bool, s: State, events: seq<Event>)
    ensures s.uploads <= Run(key, prunes, s, events).uploads
    ensures s.prepared <= Run(key, prunes, s, events).prepared
    decreases |events|
  {
    if events == [] {
    } else {
      UploadsOnlyGrow(key, prunes, Next(key, prunes, s, events[0]).0, events[1..]);
    }
  }

  /** The pruning ledger's view and the grow-only one: everything else is equal. */
  ghost predicate Alike(s: State, g: State) {
    s == g.(ledger := s.ledger)
  }

  /** One event: both ledgers answer alike unless it is a late replay, and stay alike. */
  lemma PruningStep(key: Key, s: State, g: State, e: Event)
    requires LedgerInv(true, s) && LedgerInv(false, g) && Alike(s, g)
    ensures var (s', a), (g', b) := Next(key, true, s, e), Next(key, false, g, e);
            && (a == b <==> !LateReplay(g, e))
            && LedgerInv(true, s') && LedgerInv(false, g') && (!LateReplay(g, e) ==> Alike(s', g'))
  {
    LedgerInvStep(key, true, s, e);
    LedgerInvStep(key, false, g, e);
    if e.Redeem? && e.task in s.pending {
      RedeemAnswer(key, true, s, e.task);
      RedeemAnswer(key, false, g, e.task);
    }
  }

  /** The pruning ledger refines one that only grows: every answer of a run is the same
      if and only if the run has no late replay. */
  lemma {:induction false} PruningRefinesGrowOnly(key: Key, s: State, g: State, events: seq<Event>)
    requires LedgerInv(true, s) && LedgerInv(false, g) && Alike(s, g)
    ensures Answers(key, true, s, events) == Answers(key, false, g, events) <==> !HasLateReplay(key, false, g, events)
    decreases |events|
  {
    if events == [] {
    } else {
      var (s', a) := Next(key, true, s, events[0]);
      var (g', b) := Next(key, false, g, events[0]);
      PruningStep(key, s, g, events[0]);
      FirstAnswer(a, Answers(key, true, s', events[1..]), b, Answers(key, false, g', events[1..]));
      if !LateReplay(g, events[0]) {
        PruningRefinesGrowOnly(key, s', g', events[1..]);
      }
    }
  }

  lemma FirstAnswer(a: Answer, x: seq<Answer>, b: Answer, y: seq<Answer>)
    ensures [a] + x == [b] + y <==> a == b && x == y
  {
    assert ([a] + x)[0] == a && ([a] + x)[1..] == x;
    assert ([b] + y)[0] == b && ([b] + y)[1..] == y;
  }

  /** The run the hypothesis excludes: one approval, two submits of it verify, one files,
      the clock reaches the expiry, and the other files again. */
  lemma LateReplayFilesTwice(key: Key, f: Filing) returns (s0: State, events: seq<Event>)
    ensures Initial(s0) && HonestRun(key, s0, events)
    ensures var t, end := IssueToken(key, f, 0.0, 900.0), Run(key, true, s0, events);
            && end.prepared == [Preparation(f, 0.0, 900.0)]
            && end.uploads == [Upload(t, f, 0.0), Upload(t, f, 0.0)] && end.now == t.claims.exp as real
  {
    s0 := State(0.0, map[], [], map[], []);
    var t := IssueToken(key, f, 0.0, 900.0);
    assert Truncate(900.0) == 900;
    events := [Prepare(f, 900.0), Verify(0, t, f), Verify(1, t, f), Redeem(0), Tick(900.0), Redeem(1)];
    var s1 := Next(key, true, s0, events[0]).0;
    assert s1.prepared == [Preparation(f, 0.0, 900.0)];
    assert WasIssued(key, s1.prepared, t) by {
      assert s1.prepared[0].filing == f;
    }
    var s2 := Next(key, true, s1, events[1]).0;
    var s3 := Next(key, true, s2, events[2]).0;
    assert s3.pending == map[0 := Pending(t, f, 0.0, 900), 1 := Pending(t, f, 0.0, 900)];
    var s4 := Next(key, true, s3, events[3]).0;
    var s5 := Next(key, true, s4, events[4]).0;
    assert Live(s5.ledger, 900.0) == map[];
    var s6 := Next(key, true, s5, events[5]).0;
    assert s6.uploads == [Upload(t, f, 0.0), Upload(t, f, 0.0)];
    assert events[0..] == events;
    RunFrom(key, s5, events, 5);
    RunFrom(key, s4, events, 4);
    RunFrom(key, s3, events, 3);
    RunFrom(key, s2, events, 2);
    RunFrom(key, s1, events, 1);
    RunFrom(key, s0, events, 0);
    assert Run(key, true, s0, events) == s6;
  }

  /** Without any such delay, two spellings of one approval file twice. */
  lemma TwoSpellingsFileTwice(key: Key, f: Filing, spelling: nat) returns (s0: State, events: seq<Event>)
    requires spelling != 0
    ensures Initial(s0) && HonestRun(key, s0, events) && Timely(key, true, s0, events)
    ensures var t, end := IssueToken(key, f, 0.0, 900.0), Run(key, true, s0, events);
            && end.prepared == [Preparation(f, 0.0, 900.0)]
            && end.uploads == [Upload(t, f, 0.0), Upload(t.(spelling := spelling), f, 0.0)]
  {
    s0 := State(0.0, map[], [], map[], []);
    var t := IssueToken(key, f, 0.0, 900.0);
    var t' := t.(spelling := spelling);
    assert Truncate(900.0) == 900;
    events := [Prepare(f, 900.0), Verify(0, t, f), Verify(1, t', f), Redeem(0), Redeem(1)];
    var s1 := Next(key, true, s0, events[0]).0;
    assert s1.prepared == [Preparation(f, 0.0, 900.0)];
    assert WasIssued(key, s1.prepared, t) && WasIssued(key, s1.prepared, t') by {
      assert s1.prepared[0].filing == f;
    }
    var s2 := Next(key, true, s1, events[1]).0;
    var s3 := Next(key, true, s2, events[2]).0;
    assert s3.pending == map[0 := Pending(t, f, 0.0, 900), 1 := Pending(t', f, 0.0, 900)];
    var s4 := Next(key, true, s3, events[3]).0;
    assert s4.ledger == map[t := 900];
    var s5 := Next(key, true, s4, events[4]).0;
    assert s5.uploads == [Upload(t, f, 0.0), Upload(t', f, 0.0)];
    assert events[0..] == events && events[5..] == [];
    RunFrom(key, s4, events, 4);
    RunFrom(key, s3, events, 3);
    RunFrom(key, s2, events, 2);
    RunFrom(key, s1, events, 1);
    RunFrom(key, s0, events, 0);
  }

  predicate InTime(s: State, e: Event) {
    e.Redeem? && e.task in s.pending ==> s.now < s.pending[e.task].expiresAt as real
  }

  /** What a caller can arrange: every redemption happens before the token it redeems
      expires. */
  predicate Timely(key: Key, prunes: bool, s: State, events: seq<Event>)
    decreases |events|
  {
    events != [] ==>
      && InTime(s, events[0])
      && Timely(key, prunes, Next(key, prunes, s, events[0]).0, events[1..])
  }

  lemma {:induction false} TimelyHasNoLateReplay(key: Key, prunes: bool, s: State, events: seq<Event>)
    requires Timely(key, prunes, s, events)
    ensures !HasLateReplay(key, prunes, s, events)
    decreases |events|
  {
    if events == [] {
    } else {
      TimelyHasNoLateReplay(key, prunes, Next(key, prunes, s, events[0]).0, events[1..]);
    }
  }

  /** Then no token files twice, and pruning is invisible. */
  lemma TimelyRunsFileOnce(key: Key, s: State, events: seq<Event>)
    requires Initial(s)
    ensures Timely(key, true, s, events) ==> NoTokenTwice(Run(key, true, s, events).uploads)
    ensures Timely(key, false, s, events) ==> Answers(key, true, s, events) == Answers(key, false, s, events)
  {
    if Timely(key, true, s, events) {
      TimelyHasNoLateReplay(key, true, s, events);
      SingleUse(key, s, events);
    }
    if Timely(key, false, s, events) {
      TimelyHasNoLateReplay(key, false, s, events);
      PruningRefinesGrowOnly(key, s, s, events);
    }
  }

  lemma RunFrom(key: Key, s: State, events: seq<Event>, i: nat)
    requires i < |events|
    ensures var s' := Next(key, true, s, events[i]).0;
            && Run(key, true, s, events[i..]) == Run(key, true, s', events[i + 1..])
            && (HonestRun(key, s, events[i..]) <==> Honest(key, s, events[i]) && HonestRun(key, s', events[i + 1..]))
            && (Timely(key, true, s, events[i..]) <==> InTime(s, events[i]) && Timely(key, true, s', events[i + 1..]))
  {
  }

  // ---- Everything uploaded was prepared ----------------------------------------------

  /** Some prepare of this very filing happened less than its TTL before `verifiedAt`. */
  ghost predicate Approved(prepared: seq<Preparation>, f: Filing, verifiedAt: real) {
    exists i :: 0 <= i < |prepared| && prepared[i].filing == f &&
                prepared[i].at <= verifiedAt < prepared[i].at + prepared[i].ttl
  }

  /** Some prepare that the token cannot tell from this filing did. */
  ghost predicate Backed(prepared: seq<Preparation>, f: Filing, verifiedAt: real) {
    exists i :: 0 <= i < |prepared| && SameApproval(prepared[i].filing, f) &&
                prepared[i].at <= verifiedAt < prepared[i].at + prepared[i].ttl
  }

  /** HS256 is unforgeable: the claims of a token under the server's key were issued by a
      prepare. */
  ghost predicate WasIssued(key: Key, prepared: seq<Preparation>, token: Token) {
    exists i :: 0 <= i < |prepared| && Approval(token) == IssueToken(key, prepared[i].filing, prepared[i].at, prepared[i].ttl)
  }

  ghost predicate Honest(key: Key, s: State, e: Event) {
    e.Verify? && e.token.Jwt? && e.token.key == key ==> WasIssued(key, s.prepared, e.token)
  }

  ghost predicate HonestRun(key: Key, s: State, events: seq<Event>)
    decreases |events|
  {
    events != [] ==> Honest(key, s, events[0]) && HonestRun(key, Next(key, true, s, events[0]).0, events[1..])
  }

  ghost predicate AllApproved(s: State) {
    forall i | 0 <= i < |s.uploads| :: Approved(s.prepared, s.uploads[i].filing, s.uploads[i].verifiedAt)
  }

  ghost predicate AllBacked(s: State) {
    forall i | 0 <= i < |s.uploads| :: Backed(s.prepared, s.uploads[i].filing, s.uploads[i].verifiedAt)
  }

  ghost predicate ApprovalInv(s: State) {
    && s.now >= 0.0
    && (forall i | 0 <= i < |s.prepared| :: s.prepared[i].at <= s.now)
    && (forall task | task in s.pending :: Backed(s.prepared, s.pending[task].filing, s.pending[task].verifiedAt))
    && AllBacked(s)
  }

  lemma BackedGrows(prepared: seq<Preparation>, more: seq<Preparation>, f: Filing, at: real)
    requires Backed(prepared, f, at) && prepared <= more
    ensures Backed(more, f, at)
  {
  }

  lemma VerifiedIsBacked(key: Key, s: State, token: Token, filing: Filing)
    requires ApprovalInv(s) && Honest(key, s, Verify(0, token, filing)) && VerifyToken(key, token, filing, s.now).Ok?
    ensures Backed(s.prepared, filing, s.now)
  {
    var i :| 0 <= i < |s.prepared| && Approval(token) == IssueToken(key, s.prepared[i].filing, s.prepared[i].at, s.prepared[i].ttl);
    IssuedTokenVerifies(key, s.prepared[i].filing, s.prepared[i].at, s.prepared[i].ttl, filing, s.now);
  }

  lemma ApprovalInvStep(key: Key, s: State, e: Event)
    requires ApprovalInv(s) && Honest(key, s, e)
    ensures ApprovalInv(Next(key, true, s, e).0)
  {
    var s' := Next(key, true, s, e).0;
    match e
    case Tick(_) =>
    case Prepare(filing, ttl) =>
      forall f, at | Backed(s.prepared, f, at) ensures Backed(s'.prepared, f, at) {
        BackedGrows(s.prepared, s'.prepared, f, at);
      }
    case Verify(task, token, filing) =>
      if VerifyToken(key, token, filing, s.now).Ok? {
        VerifiedIsBacked(key, s, token, filing);
      }
    case Redeem(task) =>
  }

  /** Every run, whatever was submitted: each upload has an earlier prepare of the same
      kind that the digest cannot tell from it, less than its TTL before verification. */
  lemma {:induction false} EverythingUploadedWasBacked(key: Key, s: State, events: seq<Event>)
    requires ApprovalInv(s) && HonestRun(key, s, events)
    ensures AllBacked(Run(key, true, s, events))
    decreases |events|
  {
    if events == [] {
    } else {
      ApprovalInvStep(key, s, events[0]);
      EverythingUploadedWasBacked(key, Next(key, true, s, events[0]).0, events[1..]);
    }
  }

  /** Each kind's tools build contexts with a prefix of their own, and every preparation
      names one submission among those. */
  ghost predicate AllBinding(prefixOf: Bytes -> Bytes, prepared: seq<Preparation>) {
    forall i | 0 <= i < |prepared| ::
      var f := prepared[i].filing; Buildable(prefixOf(f.kind), f) && Binding(prefixOf(f.kind), f)
  }

  /** Which uploads the server is answerable for: of what a tool builds, when what was
      prepared binds; and of anything, when only NUL-free kinds and contexts occur. */
  ghost predicate Answerable(prefixOf: Bytes -> Bytes, prepared: seq<Preparation>, f: Filing) {
    || (Buildable(prefixOf(f.kind), f) && AllBinding(prefixOf, prepared))
    || (NulFree(f) && forall j | 0 <= j < |prepared| :: NulFree(prepared[j].filing))
  }

  /** ... so each such upload has an earlier prepare of the same kind, context and bytes,
      whatever was submitted. */
  lemma EverythingUploadedWasPrepared(key: Key, prefixOf: Bytes -> Bytes, s: State, events: seq<Event>)
    requires ApprovalInv(s) && HonestRun(key, s, events)
    ensures var end := Run(key, true, s, events);
            forall i | 0 <= i < |end.uploads| && Answerable(prefixOf, end.prepared, end.uploads[i].filing) ::
              Approved(end.prepared, end.uploads[i].filing, end.uploads[i].verifiedAt)
  {
    EverythingUploadedWasBacked(key, s, events);
    var end := Run(key, true, s, events);
    forall i | 0 <= i < |end.uploads| && Answerable(prefixOf, end.prepared, end.uploads[i].filing)
      ensures Approved(end.prepared, end.uploads[i].filing, end.uploads[i].verifiedAt)
    {
      var u := end.uploads[i];
      assert Backed(end.prepared, u.filing, u.verifiedAt);
      var j :| 0 <= j < |end.prepared| && SameApproval(end.prepared[j].filing, u.filing)
               && end.prepared[j].at <= u.verifiedAt < end.prepared[j].at + end.prepared[j].ttl;
      var f := end.prepared[j].filing;
      if Buildable(prefixOf(f.kind), u.filing) && AllBinding(prefixOf, end.prepared) {
        ApprovalBindsExactly(prefixOf(f.kind), f);
      } else {
        FirstNul(f.context, f.payload, u.filing.context, u.filing.payload);
      }
    }
  }

  /** The runs of a fresh server on which only `f` is prepared and tools submit. */
  ghost predicate OnlyPrepares(prefixOf: Bytes -> Bytes, f: Filing, events: seq<Event>) {
    forall i | 0 <= i < |events| ::
      && (events[i].Prepare? ==> events[i].filing == f)
      && (events[i].Verify? ==> Buildable(prefixOf(events[i].filing.kind), events[i].filing))
  }

  /** Exactly which filings are safe to prepare: all runs that prepare only `f` upload
      nothing else if and only if neither its context's value (past its first byte) nor
      its bytes have a NUL. */
  lemma PreparedIsUploadedExactly(key: Key, prefixOf: Bytes -> Bytes, f: Filing)
    requires Buildable(prefixOf(f.kind), f)
    ensures (forall s, events | Initial(s) && HonestRun(key, s, events) && OnlyPrepares(prefixOf, f, events) ::
               AllApproved(Run(key, true, s, events)))
            <==> Binding(prefixOf(f.kind), f)
  {
    if Binding(prefixOf(f.kind), f) {
      forall s, events | Initial(s) && HonestRun(key, s, events) && OnlyPrepares(prefixOf, f, events)
        ensures AllApproved(Run(key, true, s, events))
      {
        EverythingUploadedWasPrepared(key, prefixOf, s, events);
        OnlyThese(key, prefixOf, f, s, events);
      }
    } else {
      var g := Confusable(prefixOf(f.kind), f);
      var s, events := UnpreparedUpload(key, f, g);
      assert OnlyPrepares(prefixOf, f, events);
      assert !AllApproved(Run(key, true, s, events));
    }
  }

  ghost predicate Only(prefixOf: Bytes -> Bytes, f: Filing, s: State) {
    && (forall i | 0 <= i < |s.prepared| :: s.prepared[i].filing == f)
    && (forall task | task in s.pending :: Buildable(prefixOf(s.pending[task].filing.kind), s.pending[task].filing))
    && (forall i | 0 <= i < |s.uploads| :: Buildable(prefixOf(s.uploads[i].filing.kind), s.uploads[i].filing))
  }

  lemma {:induction false} OnlyThese(key: Key, prefixOf: Bytes -> Bytes, f: Filing, s: State, events: seq<Event>)
    requires OnlyPrepares(prefixOf, f, events) && Only(prefixOf, f, s)
    ensures Only(prefixOf, f, Run(key, true, s, events))
    decreases |events|
  {
    if events == [] {
    } else {
      assert forall i | 0 <= i < |events[1..]| :: events[1..][i] == events[i + 1];
      OnlyThese(key, prefixOf, f, Next(key, true, s, events[0]).0, events[1..]);
    }
  }

  /** The failing run: `f` is prepared, and `g`, which its token cannot tell from it, is
      submitted and uploaded. */
  lemma UnpreparedUpload(key: Key, f: Filing, g: Filing) returns (s: State, events: seq<Event>)
    requires SameApproval(f, g) && f != g
    ensures Initial(s) && HonestRun(key, s, events)
    ensures events == [Prepare(f, 900.0), Verify(0, IssueToken(key, f, 0.0, 900.0), g), Redeem(0)]
    ensures var end := Run(key, true, s, events);
            end.uploads == [Upload(IssueToken(key, f, 0.0, 900.0), g, 0.0)] && !AllApproved(end)
  {
    s := State(0.0, map[], [], map[], []);
    var t := IssueToken(key, f, 0.0, 900.0);
    events := [Prepare(f, 900.0), Verify(0, t, g), Redeem(0)];
    assert Truncate(900.0) == 900;
    IssuedTokenVerifies(key, f, 0.0, 900.0, g, 0.0);
    var s1 := Next(key, true, s, events[0]).0;
    assert s1.prepared == [Preparation(f, 0.0, 900.0)];
    assert WasIssued(key, s1.prepared, t) by {
      assert s1.prepared[0].filing == f;
    }
    var s2 := Next(key, true, s1, events[1]).0;
    var s3 := Next(key, true, s2, events[2]).0;
    assert s3.uploads == [Upload(t, g, 0.0)] && s3.prepared == s1.prepared;
    assert events[0..] == events;
    RunFrom(key, s, events, 0);
    RunFrom(key, s1, events, 1);
    RunFrom(key, s2, events, 2);
    assert Run(key, true, s, events) == s3;
    assert !Approved(s3.prepared, g, 0.0);
    assert !Approved(s3.prepared, s3.uploads[0].filing, s3.uploads[0].verifiedAt);
  }

  /** From the initial state, both invariants hold: the theorems above are about every
      run of a fresh server. */
  lemma FreshServer(key: Key, s: State, events: seq<Event>)
    requires Initial(s)
    ensures NoTokenTwice(Run(key, true, s, events).uploads) <==> !HasLateReplay(key, true, s, events)
    ensures Answers(key, true, s, events) == Answers(key, false, s, events) <==> !HasLateReplay(key, false, s, events)
    ensures HonestRun(key, s, events) ==> AllBacked(Run(key, true, s, events))
  {
    SingleUse(key, s, events);
    PruningRefinesGrowOnly(key, s, s, events);
    if HonestRun(key, s, events) {
      EverythingUploadedWasBacked(key, s, events);
    }
  }
}
