/** The e-Factura message listing (src/anafpy/efactura/client.py): a time window judged by
    another party's clock, one self-correction, and a page walk that must not truncate
    silently. Instants are epoch milliseconds. */
module EFacturaList {
  import opened Wrappers

  const DAY_MS := 86_400_000
  const START_CLOCK_SKEW_MS := 5 * 60 * 1000
  const END_CLOCK_SKEW_MS := 60 * 1000
  const RETENTION_DAYS := 60
  const MAX_LIST_PAGES := 10_000

  datatype Window = Window(start: int, end: int, days: Option<int>)

  datatype ConfigError = BothForms | DaysOutOfRange | EndBeforeStart | EndInFuture | StartTooOld | NoWindow

  // ---- Windows -------------------------------------------------------------------------

  function DaysWindow(days: int, now: int): Window {
    Window(now - days * DAY_MS + START_CLOCK_SKEW_MS, now - END_CLOCK_SKEW_MS, Some(days))
  }

  function ResolveWindow(days: Option<int>, start: Option<int>, end: Option<int>, now: int): Result<Window, ConfigError> {
    if days.Some? && (start.Some? || end.Some?) then Err(BothForms)
    else if days.Some? then
      if 1 <= days.value <= RETENTION_DAYS then Ok(DaysWindow(days.value, now)) else Err(DaysOutOfRange)
    else if start.Some? && end.Some? then
      if end.value < start.value then Err(EndBeforeStart)
      else if end.value > now then Err(EndInFuture)
      else if start.value < now - RETENTION_DAYS * DAY_MS then Err(StartTooOld)
      else Ok(Window(start.value, end.value, None))
    else Err(NoWindow)
  }

  function Min(a: int, b: int): int {
    if a <= b then a else b
  }

  /** The window re-resolved on ANAF's clock, or `None` if nothing moves. */
  function RebuildWindow(w: Window, moment: int): Option<Window> {
    if w.days.Some? then
      var rebuilt := DaysWindow(w.days.value, moment);
      if rebuilt == w then None else Some(rebuilt)
    else
      var rebuilt := w.(end := Min(w.end, moment - END_CLOCK_SKEW_MS));
      if rebuilt.end <= w.start || rebuilt == w then None else Some(rebuilt)
  }

  /** ANAF's rules, on its own clock. */
  predicate AcceptedAt(w: Window, server: int) {
    w.start <= w.end <= server && w.start >= server - RETENTION_DAYS * DAY_MS
  }

  /** What is resolved satisfies ANAF's rules on the local clock, and a range is refused
      only when it does not. */
  lemma ResolvedMeetsTheRules(days: Option<int>, start: Option<int>, end: Option<int>, now: int)
    ensures var r := ResolveWindow(days, start, end, now);
            && (r.Ok? ==> AcceptedAt(r.value, now))
            && (days.None? && start.Some? && end.Some? ==>
                  (r.Ok? <==> AcceptedAt(Window(start.value, end.value, None), now)))
  {
  }

  /** What a request resolves to: `days` from 1 to 60 back, five minutes inside the start and
      one inside the end; or the very range given; and each refusal. */
  lemma ResolvedExactly(days: Option<int>, start: Option<int>, end: Option<int>, now: int)
    ensures var r := ResolveWindow(days, start, end, now);
            && (r == Err(BothForms) <==> days.Some? && (start.Some? || end.Some?))
            && (r == Err(DaysOutOfRange) <==> days.Some? && start.None? && end.None? && (days.value < 1 || days.value > 60))
            && (r == Err(NoWindow) <==> days.None? && (start.None? || end.None?))
            && (r == Err(EndBeforeStart) <==> days.None? && start.Some? && end.Some? && end.value < start.value)
            && (r == Err(EndInFuture) <==> days.None? && start.Some? && end.Some? && start.value <= end.value && now < end.value)
            && (r == Err(StartTooOld) <==>
                  days.None? && start.Some? && end.Some? && start.value <= end.value <= now && start.value < now - 60 * 86_400_000)
            && (r.Ok? && days.Some? ==>
                  r.value.days == days && r.value.start == now - days.value * 86_400_000 + 300_000 && r.value.end == now - 60_000)
            && (r.Ok? && days.None? ==> Some(r.value.start) == start && Some(r.value.end) == end && r.value.days == None)
  {
  }

  /** What a rebuild gives: a `days` window is computed afresh on ANAF's clock, a range's end
      goes one minute behind it. */
  lemma RebuiltExactly(w: Window, moment: int)
    requires RebuildWindow(w, moment).Some?
    ensures var r := RebuildWindow(w, moment).value;
            && r.days == w.days && r.end == moment - 60_000
            && r.start == (if w.days.Some? then moment - w.days.value * 86_400_000 + 300_000 else w.start)
  {
  }

  /** Which drift a `days` window survives, exactly. */
  lemma DaysWindowAccepted(days: int, local: int, server: int)
    requires 1 <= days <= RETENTION_DAYS
    ensures AcceptedAt(DaysWindow(days, local), server) <==>
            -60_000 <= server - local <= 300_000 + (60 - days) * 86_400_000
  {
  }

  /** After a rebuild from ANAF's clock, a retry within five minutes is accepted whatever
      the local drift was. */
  lemma RetryAccepted(days: int, local: int, moment: int, server: int)
    requires 1 <= days <= RETENTION_DAYS && moment <= server <= moment + START_CLOCK_SKEW_MS
    ensures var w := DaysWindow(days, local);
            AcceptedAt(if RebuildWindow(w, moment).Some? then RebuildWindow(w, moment).value else w, server)
  {
  }

  /** An explicit range keeps its start, only shrinks its end, is never left empty, and
      is moved exactly when ANAF's clock (less the margin) falls inside it. */
  lemma RangeOnlyShrinks(w: Window, moment: int)
    requires w.days.None?
    ensures RebuildWindow(w, moment).Some? <==> w.start < moment - END_CLOCK_SKEW_MS < w.end
    ensures RebuildWindow(w, moment).Some? ==>
              var r := RebuildWindow(w, moment).value;
              r.days.None? && r.start == w.start < r.end < w.end && r.end <= moment
  {
  }

  /** Rebuilding twice at one moment changes nothing more. */
  lemma RebuildIsIdempotent(w: Window, moment: int)
    requires RebuildWindow(w, moment).Some?
    ensures RebuildWindow(RebuildWindow(w, moment).value, moment) == None
  {
  }

  /** A resolved range that only ANAF's clock put in the future is accepted on retry, if
      there is anything left of it and its start has not aged out. */
  lemma ShrunkRangeAccepted(w: Window, moment: int, server: int)
    requires w.days.None? && moment <= server
    requires w.start < moment - END_CLOCK_SKEW_MS < w.end && w.start >= server - RETENTION_DAYS * DAY_MS
    ensures RebuildWindow(w, moment).Some? && AcceptedAt(RebuildWindow(w, moment).value, server)
  {
  }

  // ---- The page walk -------------------------------------------------------------------

  type Item = string

  /** One answer of the list endpoint: an unrecognised body; an error note, with ANAF's
      clock if it quotes one, which may be the benign "no messages"; or a page. */
  datatype Response =
    | Unrecognised
    | Note(moment: Option<int>, benign: bool)
    | Page(messages: seq<Item>, totalPages: Option<int>)

  datatype Request = Request(window: Window, page: int)

  datatype Outcome = Done | BadBody | ListError | NoTerminalPage | StillWalking

  /** A whole walk: requests sent, items yielded, window corrections, and how it ended
      (`StillWalking`: the given responses ran out). */
  datatype Walk = Walk(requests: seq<Request>, yielded: seq<Item>, corrections: nat, outcome: Outcome)

  function After(request: Request, items: seq<Item>, corrections: nat, rest: Walk): Walk {
    Walk([request] + rest.requests, items + rest.yielded, corrections + rest.corrections, rest.outcome)
  }

  /** The loop body's view of an answer, after the correction was considered. */
  datatype PageStep = Stop(items: seq<Item>, outcome: Outcome) | Go(items: seq<Item>)

  function StepOn(r: Response, page: int): PageStep {
    match r
    case Unrecognised => Stop([], BadBody)
    case Note(_, benign) => Stop([], if benign then Done else ListError)
    case Page(messages, totalPages) =>
      if messages == [] then Stop([], Done)
      else if totalPages.Some? && page >= totalPages.value then Stop(messages, Done)
      else Go(messages)
  }

  /** The rebuilt window, when this answer is the one fault the walk corrects. */
  function Corrects(r: Response, w: Window, corrected: bool): Option<Window> {
    if !corrected && r.Note? && r.moment.Some? then RebuildWindow(w, r.moment.value) else None
  }

  /** The walk from `page` on, the endpoint answering `responses` in order. */
  function WalkFrom(responses: seq<Response>, w: Window, page: int, corrected: bool): Walk
    decreases |responses|
  {
    if page > MAX_LIST_PAGES then Walk([], [], 0, NoTerminalPage)
    else if responses == [] then Walk([], [], 0, StillWalking)
    else
      var request, r := Request(w, page), responses[0];
      var rebuilt := Corrects(r, w, corrected);
      if rebuilt.Some? then After(request, [], 1, WalkFrom(responses[1..], rebuilt.value, page, true))
      else
        match StepOn(r, page)
        case Stop(items, outcome) => Walk([request], items, 0, outcome)
        case Go(items) =>
          After(request, items, 0, WalkFrom(responses[1..], w, page + 1, corrected))
  }

  /** What was sent and yielded so far, followed by the rest of the walk. */
  function Then(requests: seq<Request>, yielded: seq<Item>, corrections: nat, rest: Walk): Walk {
    Walk(requests + rest.requests, yielded + rest.yielded, corrections + rest.corrections, rest.outcome)
  }

  lemma ThenAfter(requests: seq<Request>, yielded: seq<Item>, corrections: nat, request: Request, items: seq<Item>, c: nat, rest: Walk)
    ensures Then(requests, yielded, corrections, After(request, items, c, rest))
            == Then(requests + [request], yielded + items, corrections + c, rest)
  {
  }

  lemma ThenNothing(requests: seq<Request>, yielded: seq<Item>, corrections: nat, outcome: Outcome, rest: Walk)
    ensures Then(requests, yielded, corrections, Walk([], [], 0, outcome)) == Walk(requests, yielded, corrections, outcome)
    ensures Then([], [], 0, rest) == rest
  {
  }

  /** One answer, seen from the walk that remains after `n` of them. */
  lemma OneAnswer(requests: seq<Request>, yielded: seq<Item>, corrections: nat,
                  responses: seq<Response>, n: nat, w: Window, page: int, corrected: bool)
    requires n < |responses| && page <= MAX_LIST_PAGES
    ensures var request, r := Request(w, page), responses[n];
            var rebuilt := Corrects(r, w, corrected);
            Then(requests, yielded, corrections, WalkFrom(responses[n..], w, page, corrected)) ==
            if rebuilt.Some? then
              Then(requests + [request], yielded, corrections + 1, WalkFrom(responses[n + 1..], rebuilt.value, page, true))
            else
              match StepOn(r, page)
              case Stop(items, outcome) => Walk(requests + [request], yielded + items, corrections, outcome)
              case Go(items) =>
                Then(requests + [request], yielded + items, corrections, WalkFrom(responses[n + 1..], w, page + 1, corrected))
  {
    var request, r := Request(w, page), responses[n];
    assert responses[n..][1..] == responses[n + 1..];
    var rebuilt := Corrects(r, w, corrected);
    if rebuilt.Some? {
      ThenAfter(requests, yielded, corrections, request, [], 1, WalkFrom(responses[n + 1..], rebuilt.value, page, true));
      assert yielded + [] == yielded;
    } else if StepOn(r, page).Go? {
      ThenAfter(requests, yielded, corrections, request, StepOn(r, page).items, 0, WalkFrom(responses[n + 1..], w, page + 1, corrected));
    }
  }

  /** `_iter_messages`: the loop, with what it sent and yielded. */
  method IterMessages(window: Window, responses: seq<Response>) returns (walk: Walk)
    requires |responses| > MAX_LIST_PAGES
    ensures walk == WalkFrom(responses, window, 1, false)
  {
    var w, page, corrected := window, 1, false;
    var requests: seq<Request>, yielded: seq<Item>, corrections: nat, n := [], [], 0, 0;
    ghost var goal := WalkFrom(responses, window, 1, false);
    assert responses[0..] == responses;
    ThenNothing([], [], 0, Done, goal);
    while page <= MAX_LIST_PAGES
      invariant 1 <= page <= MAX_LIST_PAGES + 1
      invariant n == page - 1 + corrections && corrections <= 1 && (corrections == 1 ==> corrected)
      invariant goal == Then(requests, yielded, corrections, WalkFrom(responses[n..], w, page, corrected))
      decreases if corrected then 0 else 1, MAX_LIST_PAGES + 1 - page
    {
      OneAnswer(requests, yielded, corrections, responses, n, w, page, corrected);
      var response := responses[n];
      requests := requests + [Request(w, page)];
      n := n + 1;
      if !corrected && response.Note? && response.moment.Some? {
        var rebuilt := RebuildWindow(w, response.moment.value);
        corrected := true;
        if rebuilt.Some? {
          w, corrections := rebuilt.value, 1;
          continue;
        }
      }
      assert response.Note? ==> StepOn(response, page).Stop?;
      match StepOn(response, page) {
        case Stop(items, outcome) =>
          return Walk(requests, yielded + items, corrections, outcome);
        case Go(items) =>
          yielded, page := yielded + items, page + 1;
      }
    }
    ThenNothing(requests, yielded, corrections, NoTerminalPage, goal);
    return Walk(requests, yielded, corrections, NoTerminalPage);
  }

  // ---- Nothing is truncated silently ------------------------------------------------------

  function Messages(r: Response): seq<Item> {
    if r.Page? then r.messages else []
  }

  function AllMessages(responses: seq<Response>): seq<Item> {
    if responses == [] then [] else Messages(responses[0]) + AllMessages(responses[1..])
  }

  /** The answer that ends a listing at `page`: nothing there, or the last declared page. */
  predicate Ends(r: Response, page: int) {
    match r
    case Unrecognised => false
    case Note(_, benign) => benign
    case Page(messages, totalPages) => messages == [] || (totalPages.Some? && page >= totalPages.value)
  }

  predicate Continues(r: Response, page: int) {
    r.Page? && !Ends(r, page)
  }

  /** In every walk: the items yielded are all the messages of all the answers read, in
      order; a correction happens at most once; requests are bounded. */
  lemma {:induction false} WalkBounds(responses: seq<Response>, w: Window, page: int, corrected: bool)
    requires page <= MAX_LIST_PAGES + 1
    ensures var walk := WalkFrom(responses, w, page, corrected);
            && |walk.requests| <= |responses|
            && walk.corrections <= (if corrected then 0 else 1)
            && |walk.requests| <= MAX_LIST_PAGES + 1 - page + walk.corrections
            && walk.yielded == AllMessages(responses[..|walk.requests|])
            && (walk.outcome.NoTerminalPage? ==> |walk.requests| == MAX_LIST_PAGES + 1 - page + walk.corrections)
    decreases |responses|
  {
    if page > MAX_LIST_PAGES || responses == [] {
    } else {
      var r := responses[0];
      var faulted := !corrected && r.Note? && r.moment.Some?;
      if faulted && RebuildWindow(w, r.moment.value).Some? {
        WalkBounds(responses[1..], RebuildWindow(w, r.moment.value).value, page, true);
        PrefixMessages(responses, |WalkFrom(responses[1..], RebuildWindow(w, r.moment.value).value, page, true).requests|);
      } else if Continues(r, page) {
        WalkBounds(responses[1..], w, page + 1, corrected || faulted);
        PrefixMessages(responses, |WalkFrom(responses[1..], w, page + 1, corrected || faulted).requests|);
      } else {
        PrefixMessages(responses, 0);
      }
    }
  }

  lemma PrefixMessages(responses: seq<Response>, n: nat)
    requires responses != [] && n < |responses|
    ensures AllMessages(responses[..n + 1]) == Messages(responses[0]) + AllMessages(responses[1..][..n])
  {
    assert responses[..n + 1][1..] == responses[1..][..n];
  }

  /** The number of requests of the whole walk: at most 10,001, one of them extra. */
  lemma RequestsBounded(responses: seq<Response>, w: Window)
    ensures var walk := WalkFrom(responses, w, 1, false);
            walk.corrections <= 1 && |walk.requests| <= MAX_LIST_PAGES + walk.corrections <= 10_001
  {
    WalkBounds(responses, w, 1, false);
  }

  /** `n` consecutive pages of one window. */
  function Pages(w: Window, page: int, n: nat): seq<Request> {
    seq(n, i requires 0 <= i => Request(w, page + i))
  }

  lemma PagesCons(w: Window, page: int, n: nat)
    ensures Pages(w, page, n + 1) == [Request(w, page)] + Pages(w, page + 1, n)
  {
  }

  /** Without a correction, request i asks for page i of the one window, and the walk ends
      normally if and only if some answer within the cap is terminal and all before it
      were full pages: it stops at that answer, having yielded everything up to it. */
  lemma {:induction false} EndsAtFirstTerminal(responses: seq<Response>, w: Window, page: int, corrected: bool, k: nat)
    requires k < |responses| && page + k <= MAX_LIST_PAGES
    requires forall i | 0 <= i < k :: Continues(responses[i], page + i)
    requires Ends(responses[k], page + k)
    requires WalkFrom(responses, w, page, corrected).corrections == 0
    ensures var walk := WalkFrom(responses, w, page, corrected);
            && walk.outcome == Done
            && walk.requests == Pages(w, page, k + 1)
            && walk.yielded == AllMessages(responses[..k + 1])
    decreases k
  {
    PagesCons(w, page, k);
    if k == 0 {
    } else {
      assert Continues(responses[0], page + 0);
      assert forall i | 0 <= i < k - 1 :: responses[1..][i] == responses[i + 1];
      EndsAtFirstTerminal(responses[1..], w, page + 1, corrected, k - 1);
    }
    PrefixMessages(responses, k);
  }

  lemma {:induction false} DoneOnlyAtTerminal(responses: seq<Response>, w: Window, page: int, corrected: bool)
    returns (k: nat)
    requires var walk := WalkFrom(responses, w, page, corrected); walk.outcome == Done && walk.corrections == 0
    ensures k < |responses| && page + k <= MAX_LIST_PAGES
    ensures (forall i | 0 <= i < k :: Continues(responses[i], page + i)) && Ends(responses[k], page + k)
    decreases |responses|
  {
    if Ends(responses[0], page) {
      k := 0;
    } else {
      var rest := DoneOnlyAtTerminal(responses[1..], w, page + 1, corrected);
      k := rest + 1;
      assert forall i | 0 < i <= k :: responses[i] == responses[1..][i - 1];
    }
  }

  /** How consecutive requests of a walk follow from the answer between them: the next
      page of the same window after a full page, or the same page on ANAF's clock. */
  predicate Follows(r: Response, a: Request, b: Request) {
    || (Continues(r, a.page) && b == Request(a.window, a.page + 1))
    || (Corrects(r, a.window, false) == Some(b.window) && b.page == a.page)
  }

  /** Every run, corrected or not: no page is skipped, and a normal end comes only from
      an answer that ends the listing at the page that was asked for. */
  lemma {:induction false} NoPageSkipped(responses: seq<Response>, w: Window, page: int, corrected: bool)
    ensures var walk := WalkFrom(responses, w, page, corrected);
            var n := |walk.requests|;
            && n <= |responses|
            && (n > 0 ==> walk.requests[0] == Request(w, page))
            && (forall i | 0 <= i < n - 1 :: Follows(responses[i], walk.requests[i], walk.requests[i + 1]))
            && (walk.outcome == Done ==> n > 0 && Ends(responses[n - 1], walk.requests[n - 1].page))
            && (walk.outcome == BadBody ==> n > 0 && responses[n - 1].Unrecognised?)
            && (walk.outcome == ListError ==> n > 0 && responses[n - 1].Note? && !responses[n - 1].benign)
            && (walk.outcome == StillWalking ==> n == |responses|)
    decreases |responses|
  {
    if page > MAX_LIST_PAGES || responses == [] {
    } else {
      var walk, rebuilt := WalkFrom(responses, w, page, corrected), Corrects(responses[0], w, corrected);
      if rebuilt.Some? || StepOn(responses[0], page).Go? {
        var next := if rebuilt.Some? then Request(rebuilt.value, page) else Request(w, page + 1);
        var rest := WalkFrom(responses[1..], next.window, next.page, corrected || rebuilt.Some?);
        NoPageSkipped(responses[1..], next.window, next.page, corrected || rebuilt.Some?);
        assert walk.requests == [Request(w, page)] + rest.requests;
        assert Follows(responses[0], Request(w, page), next);
        forall i | 0 <= i < |walk.requests| - 1 ensures Follows(responses[i], walk.requests[i], walk.requests[i + 1]) {
          if i > 0 {
            assert Follows(responses[1..][i - 1], rest.requests[i - 1], rest.requests[i]);
          }
        }
      }
    }
  }

  /** A normal end without correction yields exactly pages 1..k, where k is the first
      empty or last-declared page. */
  lemma NeverTruncatesSilently(responses: seq<Response>, w: Window) returns (k: nat)
    requires var walk := WalkFrom(responses, w, 1, false); walk.outcome == Done && walk.corrections == 0
    ensures 1 <= k <= MAX_LIST_PAGES && k <= |responses|
    ensures (forall i | 0 <= i < k - 1 :: Continues(responses[i], i + 1)) && Ends(responses[k - 1], k)
    ensures var walk := WalkFrom(responses, w, 1, false);
            walk.requests == Pages(w, 1, k) && walk.yielded == AllMessages(responses[..k])
  {
    var last := DoneOnlyAtTerminal(responses, w, 1, false);
    EndsAtFirstTerminal(responses, w, 1, false, last);
    k := last + 1;
    forall i | 0 <= i < k - 1 ensures Continues(responses[i], i + 1) {
      assert Continues(responses[i], 1 + i);
    }
  }

  // ---- A corrected walk --------------------------------------------------------------------

  /** A walk with its one correction, from `page` on: pages of the first window up to the
      one at which ANAF stated its clock, then, from that same page, pages of the rebuilt
      window. `c` answers came before the correction and `m` after it. */
  ghost predicate Corrected(walk: Walk, responses: seq<Response>, w: Window, page: int, c: nat, m: nat) {
    && c + 1 + m <= |responses|
    && (forall i | 0 <= i < c :: Corrects(responses[i], w, false).None?)
    && Corrects(responses[c], w, false).Some?
    && walk.requests == Pages(w, page, c + 1) + Pages(Corrects(responses[c], w, false).value, page + c, m)
    && walk.yielded == AllMessages(responses[..c]) + AllMessages(responses[c + 1..c + 1 + m])
    && (walk.outcome == Done ==> m > 0 && Ends(responses[c + m], page + c + m - 1))
  }

  lemma {:induction false} CorrectedShape(responses: seq<Response>, w: Window, page: int) returns (c: nat, m: nat)
    requires WalkFrom(responses, w, page, false).corrections == 1
    ensures Corrected(WalkFrom(responses, w, page, false), responses, w, page, c, m)
    decreases |responses|
  {
    var r, rest := responses[0], responses[1..];
    if Corrects(r, w, false).Some? {
      var w' := Corrects(r, w, false).value;
      c := 0;
      m := UncorrectedShape(rest, w', page, true);
      PagesCons(w, page, 0);
      assert Pages(w, page, 1) == [Request(w, page)];
      assert responses[1..1 + m] == rest[..m];
      assert responses[..0] == [];
    } else {
      var c', m' := CorrectedShape(rest, w, page + 1);
      c, m := c' + 1, m';
      CorrectedCons(WalkFrom(rest, w, page + 1, false), responses, w, page, c', m');
    }
  }

  lemma CorrectedCons(walk: Walk, responses: seq<Response>, w: Window, page: int, c: nat, m: nat)
    requires responses != [] && Corrects(responses[0], w, false).None?
    requires Corrected(walk, responses[1..], w, page + 1, c, m)
    ensures Corrected(After(Request(w, page), Messages(responses[0]), 0, walk), responses, w, page, c + 1, m)
  {
    var r, rest := responses[0], responses[1..];
    assert forall i | 0 <= i < |rest| :: rest[i] == responses[i + 1];
    assert forall i | 0 < i <= c :: responses[i] == rest[i - 1];
    PagesCons(w, page, c + 1);
    Regroup([Request(w, page)], Pages(w, page + 1, c + 1), Pages(Corrects(rest[c], w, false).value, page + 1 + c, m));
    CorrectedMessages(responses, c, m);
  }

  lemma CorrectedMessages(responses: seq<Response>, c: nat, m: nat)
    requires c + 1 + m < |responses|
    ensures Messages(responses[0]) + (AllMessages(responses[1..][..c]) + AllMessages(responses[1..][c + 1..c + 1 + m]))
         == AllMessages(responses[..c + 1]) + AllMessages(responses[c + 2..c + 2 + m])
  {
    var rest := responses[1..];
    PrefixMessages(responses, c);
    SliceOfTail(responses, c + 1, c + 1 + m);
    Regroup(Messages(responses[0]), AllMessages(rest[..c]), AllMessages(rest[c + 1..c + 1 + m]));
  }

  lemma SliceOfTail<T>(s: seq<T>, i: nat, j: nat)
    requires i <= j < |s|
    ensures s[1..][i..j] == s[i + 1..j + 1]
  {
  }

  lemma Regroup<T>(a: seq<T>, b: seq<T>, c: seq<T>)
    ensures a + (b + c) == (a + b) + c
  {
  }

  /** A walk, or its tail, without a correction. */
  lemma {:induction false} UncorrectedShape(responses: seq<Response>, w: Window, page: int, corrected: bool) returns (m: nat)
    requires WalkFrom(responses, w, page, corrected).corrections == 0
    ensures var walk := WalkFrom(responses, w, page, corrected);
            && m <= |responses| && walk.requests == Pages(w, page, m)
            && walk.yielded == AllMessages(responses[..m])
            && (walk.outcome == Done ==> m > 0 && Ends(responses[m - 1], page + m - 1))
    decreases |responses|
  {
    if page > MAX_LIST_PAGES || responses == [] {
      m := 0;
    } else {
      assert Pages(w, page + 1, 0) == [];
      if StepOn(responses[0], page).Go? {
        var rest := UncorrectedShape(responses[1..], w, page + 1, corrected);
        m := rest + 1;
        PagesCons(w, page, rest);
        PrefixMessages(responses, rest);
      } else {
        m := 1;
        PagesCons(w, page, 0);
        PrefixMessages(responses, 0);
      }
    }
  }

  /** A normal end with a correction: of the window it ends on, exactly the pages from the
      corrected one to the terminal one were asked for. So the listing of that window is
      complete if and only if the correction came on page 1. */
  lemma CorrectedWalkTruncates(responses: seq<Response>, w: Window) returns (c: nat, k: nat)
    requires var walk := WalkFrom(responses, w, 1, false); walk.outcome == Done && walk.corrections == 1
    ensures var walk := WalkFrom(responses, w, 1, false);
            && c < k <= MAX_LIST_PAGES && k + 1 <= |responses| && Corrects(responses[c], w, false).Some?
            && Ends(responses[k], k)
            && (var final := Corrects(responses[c], w, false).value;
                && (forall p :: Request(final, p) in walk.requests <==> c + 1 <= p <= k)
                && ((forall p | 1 <= p <= k :: Request(final, p) in walk.requests) <==> Corrects(responses[0], w, false).Some?))
            && walk.yielded == AllMessages(responses[..c]) + AllMessages(responses[c + 1..k + 1])
  {
    var m;
    c, m := CorrectedShape(responses, w, 1);
    k := c + m;
    WalkBounds(responses, w, 1, false);
    var walk, final := WalkFrom(responses, w, 1, false), Corrects(responses[c], w, false).value;
    assert final != w;
    var a, b := Pages(w, 1, c + 1), Pages(final, c + 1, m);
    forall p ensures Request(final, p) in walk.requests <==> c + 1 <= p <= k {
      if c + 1 <= p <= k {
        assert b[p - c - 1] == Request(final, p);
      }
    }
    assert Request(final, 1) in walk.requests <==> c == 0;
    assert c > 0 ==> Corrects(responses[0], w, false).None?;
  }

  /** Concretely: page 1 is full, ANAF states its clock on page 2, and page 2 of the
      rebuilt window is empty. The walk ends normally and never asked for page 1 of it. */
  lemma CorrectionSkipsPages(w: Window, moment: int, item: Item)
    requires RebuildWindow(w, moment).Some?
    ensures var w' := RebuildWindow(w, moment).value;
            var walk := WalkFrom([Page([item], None), Note(Some(moment), false), Page([], None)], w, 1, false);
            && walk == Walk([Request(w, 1), Request(w, 2), Request(w', 2)], [item], 1, Done)
            && Request(w', 1) !in walk.requests
  {
    var last := [Page([], None)];
    var two := [Note(Some(moment), false)] + last;
    var all := [Page([item], None), Note(Some(moment), false), Page([], None)];
    assert all[1..] == two && two[1..] == last && two[0] == Note(Some(moment), false);
    var w' := RebuildWindow(w, moment).value;
    assert WalkFrom(last, w', 2, true) == Walk([Request(w', 2)], [], 0, Done);
    assert WalkFrom(two, w, 2, false) == After(Request(w, 2), [], 1, WalkFrom(last, w', 2, true));
    assert WalkFrom(two, w, 2, false) == Walk([Request(w, 2), Request(w', 2)], [], 1, Done);
    assert WalkFrom(all, w, 1, false) == After(Request(w, 1), [item], 0, WalkFrom(two, w, 2, false));
  }
}
