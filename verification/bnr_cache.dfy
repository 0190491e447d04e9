/** The two document caches of the BNR client (src/anafpy/bnr/client.py): a live one that
    expires after a quarter of an hour, and one that never expires. A fetch is one
    instant here, and LRU eviction may drop any entry at any time. */
module BnrCache {
  import opened Wrappers
  import opened BnrRates

  const LIVE_TTL := 900.0

  /** The outside: what BNR serves at each instant, and the date in Romania. */
  datatype World = World(serve: (Path, real) -> Option<seq<FxRateSet>>, today: real -> Date)

  datatype Entry = Entry(sets: seq<FxRateSet>, fetchedAt: real)
  datatype Caches = Caches(live: map<Path, Entry>, closed: map<Path, Entry>)

  predicate IsClosedArchive(path: Path, today: Date) {
    path.YearArchive? && path.year < today.year
  }

  /** `_document`: through whichever cache its mutability calls for. A failed fetch is
      not cached. */
  function ReadThrough(w: World, c: Caches, path: Path, now: real): (Caches, Option<seq<FxRateSet>>) {
    if IsClosedArchive(path, w.today(now)) then
      if path in c.closed then (c, Some(c.closed[path].sets)) else
      var served := w.serve(path, now);
      (if served.Some? then c.(closed := c.closed[path := Entry(served.value, now)]) else c, served)
    else
      if path in c.live && now < c.live[path].fetchedAt + LIVE_TTL then (c, Some(c.live[path].sets)) else
      var served := w.serve(path, now);
      (if served.Some? then c.(live := c.live[path := Entry(served.value, now)]) else c, served)
  }

  /** The cascade's reads at the instants `times`, one per path. */
  function AnswerThrough(w: World, c: Caches, paths: seq<Path>, day: Date, times: seq<real>): (Caches, Result<FxRateSet, Error>)
    requires |times| == |paths|
    decreases |paths|
  {
    if paths == [] then (c, Err(NothingPublished)) else
    var (c', read) := ReadThrough(w, c, paths[0], times[0]);
    match read
    case None => (c', Err(Unreadable(paths[0])))
    case Some(sets) =>
      match Latest(sets, day)
      case Some(found) => (c', Ok(found))
      case None => AnswerThrough(w, c', paths[1..], day, times[1..])
  }

  class BnrClient {
    var live: map<Path, Entry>
    var closed: map<Path, Entry>

    constructor ()
      ensures live == map[] && closed == map[]
    {
      live, closed := map[], map[];
    }

    function View(): Caches
      reads this
    {
      Caches(live, closed)
    }

    method Document(w: World, path: Path, now: real) returns (sets: Option<seq<FxRateSet>>)
      modifies this
      ensures (View(), sets) == ReadThrough(w, old(View()), path, now)
    {
      if IsClosedArchive(path, w.today(now)) {
        if path in closed {
          return Some(closed[path].sets);
        }
        sets := w.serve(path, now);
        if sets.Some? {
          closed := closed[path := Entry(sets.value, now)];
        }
      } else {
        if path in live && now < live[path].fetchedAt + LIVE_TTL {
          return Some(live[path].sets);
        }
        sets := w.serve(path, now);
        if sets.Some? {
          live := live[path := Entry(sets.value, now)];
        }
      }
    }

    static method Sources(day: Date, today: Date) returns (paths: seq<Path>)
      ensures paths == SourcesFor(day, today, 18)
    {
      paths := [];
      if Ordinal(day) >= Ordinal(today) {
        paths := paths + [Current];
      }
      if Ordinal(day) >= Ordinal(today) - TEN_DAYS_REACH {
        paths := paths + [TenDays];
      }
      paths := paths + [YearArchive(day.year)];
      if day.year > FIRST_ARCHIVED_YEAR {
        paths := paths + [YearArchive(day.year - 1)];
      }
    }

    /** `get_rates` started at `start`, its reads happening at `times`. */
    method Rates(w: World, day: Date, start: real, times: seq<real>) returns (answer: Result<FxRateSet, Error>)
      requires |times| == |SourcesFor(day, w.today(start), 18)|
      modifies this
      ensures day.year < 2005 ==> answer == Err(BeforeArchive) && View() == old(View())
      ensures day.year >= 2005 ==>
                (View(), answer) == AnswerThrough(w, old(View()), SourcesFor(day, w.today(start), 18), day, times)
    {
      if day.year < FIRST_ARCHIVED_YEAR {
        return Err(BeforeArchive);
      }
      var paths := Sources(day, w.today(start));
      for i := 0 to |paths|
        invariant AnswerThrough(w, View(), paths[i..], day, times[i..]) == AnswerThrough(w, old(View()), paths, day, times)
      {
        assert paths[i..][1..] == paths[i + 1..] && times[i..][1..] == times[i + 1..];
        var sets := Document(w, paths[i], times[i]);
        if sets.None? {
          return Err(Unreadable(paths[i]));
        }
        var found := Latest(sets.value, day);
        if found.Some? {
          return Ok(found.value);
        }
      }
      return Err(NothingPublished);
    }
  }

  // ---- What the caches may serve ---------------------------------------------------------

  /** The document as it stood at some moment of the last 900 seconds, or a year archive
      fetched after its year had ended. */
  ghost predicate Genuine(w: World, path: Path, sets: seq<FxRateSet>, now: real) {
    exists at: real :: at <= now && w.serve(path, at) == Some(sets) &&
                       (now < at + 900.0 || (path.YearArchive? && path.year < w.today(at).year))
  }

  /** Every entry of the never-expiring cache is an archive fetched after its year ended. */
  ghost predicate ClosedAreFinal(w: World, c: Caches) {
    forall p | p in c.closed :: IsClosedArchive(p, w.today(c.closed[p].fetchedAt)) && w.serve(p, c.closed[p].fetchedAt) == Some(c.closed[p].sets)
  }

  ghost predicate CachesInv(w: World, c: Caches, now: real) {
    && ClosedAreFinal(w, c)
    && (forall p | p in c.closed :: c.closed[p].fetchedAt <= now)
    && (forall p | p in c.live :: c.live[p].fetchedAt <= now && w.serve(p, c.live[p].fetchedAt) == Some(c.live[p].sets))
  }

  lemma ReadIsGenuine(w: World, c: Caches, path: Path, before: real, now: real)
    requires CachesInv(w, c, before) && before <= now
    ensures var (c', read) := ReadThrough(w, c, path, now);
            && CachesInv(w, c', now)
            && (read.Some? ==> Genuine(w, path, read.value, now))
            && (read.None? ==> w.serve(path, now) == None)
  {
    var (c', read) := ReadThrough(w, c, path, now);
    if read.Some? {
      var at := if IsClosedArchive(path, w.today(now)) && path in c.closed then c.closed[path].fetchedAt
                else if !IsClosedArchive(path, w.today(now)) && path in c.live && now < c.live[path].fetchedAt + LIVE_TTL
                     then c.live[path].fetchedAt else now;
      assert at <= now && w.serve(path, at) == Some(read.value);
    }
  }

  /** Every answer is the cascade's answer over documents each of which is genuine at the
      instant it was read. */
  lemma {:induction false} AnswerFromGenuineDocuments(w: World, c: Caches, paths: seq<Path>, day: Date, times: seq<real>, before: real)
    returns (docs: Documents)
    requires |times| == |paths| && CachesInv(w, c, before)
    requires forall i, j | 0 <= i < j < |paths| :: paths[i] != paths[j]
    requires forall i | 0 <= i < |times| :: before <= times[i]
    requires forall i, j | 0 <= i < j < |times| :: times[i] <= times[j]
    ensures AnswerThrough(w, c, paths, day, times).1 == Try(docs, paths, day)
    ensures forall i | 0 <= i < |paths| && paths[i] in docs && docs[paths[i]].Some? :: Genuine(w, paths[i], docs[paths[i]].value, times[i])
    ensures forall i | 0 <= i < |paths| && paths[i] in docs && docs[paths[i]].None? :: w.serve(paths[i], times[i]) == None
    ensures docs.Keys <= set i | 0 <= i < |paths| :: paths[i]
    decreases |paths|
  {
    docs := map[];
    if paths != [] {
      var (c', read) := ReadThrough(w, c, paths[0], times[0]);
      ReadIsGenuine(w, c, paths[0], before, times[0]);
      if read.Some? && Latest(read.value, day).None? {
        var rest, later := paths[1..], times[1..];
        assert forall i | 0 <= i < |rest| :: rest[i] == paths[i + 1] && later[i] == times[i + 1];
        var tail := AnswerFromGenuineDocuments(w, c', rest, day, later, times[0]);
        docs := tail[paths[0] := read];
        assert paths[0] !in tail;
        TryIgnores(tail, rest, day, paths[0], read);
        assert forall i | 0 < i < |paths| :: paths[i] == rest[i - 1] && times[i] == later[i - 1];
      } else {
        docs := map[paths[0] := read];
      }
    }
  }

  lemma {:induction false} TryIgnores(docs: Documents, paths: seq<Path>, day: Date, path: Path, read: Option<seq<FxRateSet>>)
    requires forall i | 0 <= i < |paths| :: paths[i] != path
    ensures Try(docs[path := read], paths, day) == Try(docs, paths, day)
    decreases |paths|
  {
    if paths == [] {
    } else {
      assert forall i | 0 <= i < |paths[1..]| :: paths[1..][i] == paths[i + 1];
      TryIgnores(docs, paths[1..], day, path, read);
    }
  }

  /** What the caches save: whatever the world then serves, a document fetched less than 900
      seconds ago is not fetched again, nor ever an archive of a closed year; a failure
      leaves the caches as they were, and each cache keeps the other's entries. */
  lemma CachedReadsAreFree(w: World, w': World, c: Caches, path: Path, t: real, now: real)
    requires w.today == w'.today && t <= now && ReadThrough(w, c, path, t).1.Some?
    ensures var (c', read) := ReadThrough(w, c, path, t);
            var closed := path.YearArchive? && path.year < w.today(t).year;
            && (closed && path.year < w.today(now).year ==> ReadThrough(w', c', path, now) == (c', read))
            && (!closed && !(path.YearArchive? && path.year < w.today(now).year) && c'.live[path].fetchedAt == t && now < t + 900.0 ==>
                  ReadThrough(w', c', path, now) == (c', read))
            && (forall p | p != path :: (p in c'.live <==> p in c.live) && (p in c'.closed <==> p in c.closed))
  {
  }

  lemma FailuresAreNotCached(w: World, c: Caches, path: Path, now: real)
    ensures ReadThrough(w, c, path, now).1.None? ==> ReadThrough(w, c, path, now).0 == c
  {
  }

  // ---- Over every run -----------------------------------------------------------------------

  datatype Event = Look(path: Path, now: real) | DropLive(path: Path) | DropClosed(path: Path)

  datatype Observed = Observed(path: Path, now: real, sets: seq<FxRateSet>)

  function Next(w: World, c: Caches, e: Event): Caches {
    match e
    case Look(path, now) => ReadThrough(w, c, path, now).0
    case DropLive(path) => c.(live := c.live - {path})
    case DropClosed(path) => c.(closed := c.closed - {path})
  }

  function Run(w: World, c: Caches, events: seq<Event>): Caches
    decreases |events|
  {
    if events == [] then c else Run(w, Next(w, c, events[0]), events[1..])
  }

  lemma EvictionsDrop(w: World, c: Caches, path: Path)
    ensures path !in Next(w, c, DropLive(path)).live && path !in Next(w, c, DropClosed(path)).closed
  {
  }

  /** The clock never goes back from one look to the next. */
  predicate Advancing(before: real, events: seq<Event>)
    decreases |events|
  {
    events != [] ==> if events[0].Look? then before <= events[0].now && Advancing(events[0].now, events[1..])
                     else Advancing(before, events[1..])
  }

  function Observations(w: World, c: Caches, events: seq<Event>): seq<Observed>
    decreases |events|
  {
    if events == [] then [] else
    var rest := Observations(w, Next(w, c, events[0]), events[1..]);
    if events[0].Look? && ReadThrough(w, c, events[0].path, events[0].now).1.Some?
    then [Observed(events[0].path, events[0].now, ReadThrough(w, c, events[0].path, events[0].now).1.value)] + rest
    else rest
  }

  /** In every run with an advancing clock, from empty caches, with evictions anywhere:
      the never-expiring cache only ever holds archives fetched after their year ended,
      and everything read was genuine when it was read. */
  lemma {:induction false} CachesServeGenuine(w: World, c: Caches, events: seq<Event>, before: real)
    requires CachesInv(w, c, before) && Advancing(before, events)
    ensures ClosedAreFinal(w, Run(w, c, events))
    ensures forall i | 0 <= i < |Observations(w, c, events)| ::
              var o := Observations(w, c, events)[i]; Genuine(w, o.path, o.sets, o.now)
    decreases |events|
  {
    if events == [] {
    } else {
      var e, c' := events[0], Next(w, c, events[0]);
      if e.Look? {
        ReadIsGenuine(w, c, e.path, before, e.now);
        CachesServeGenuine(w, c', events[1..], e.now);
      } else {
        CachesServeGenuine(w, c', events[1..], before);
      }
    }
  }

  /** BNR never revisits a closed year. */
  ghost predicate ClosedYearsAreFinal(w: World) {
    forall y, s: real, t: real ::
      s <= t && IsClosedArchive(YearArchive(y), w.today(s)) && w.serve(YearArchive(y), s).Some? && w.serve(YearArchive(y), t).Some? ==>
        w.serve(YearArchive(y), s) == w.serve(YearArchive(y), t)
  }

  /** Then nothing read is stale by more than 900 seconds: BNR served it less than 900
      seconds ago, or it is a closed archive that is never served otherwise again. */
  lemma NeverStale(w: World, path: Path, sets: seq<FxRateSet>, now: real)
    requires ClosedYearsAreFinal(w) && Genuine(w, path, sets, now)
    ensures (exists at: real :: at <= now < at + 900.0 && w.serve(path, at) == Some(sets))
            || (path.YearArchive? && forall t: real | now <= t && w.serve(path, t).Some? :: w.serve(path, t) == Some(sets))
  {
  }

  // ---- The cascade over the caches ------------------------------------------------------------

  /** A history that only grows: what is published later is dated no earlier than the day
      on which it was not there yet. */
  ghost predicate Grows(w: World, hist: real -> seq<FxRateSet>) {
    forall s: real, t: real | s <= t ::
      && Ordinal(w.today(s)) <= Ordinal(w.today(t))
      && hist(s) <= hist(t)
      && forall i | |hist(s)| <= i < |hist(t)| :: Ordinal(hist(t)[i].date) >= Ordinal(w.today(s))
  }

  /** What BNR serves, when it serves it, is of the history of that moment. */
  ghost predicate ServesHistory(w: World, hist: real -> seq<FxRateSet>) {
    forall t: real ::
      && History(hist(t), w.today(t))
      && (w.serve(Current, t).Some? ==> w.serve(Current, t).value == [hist(t)[|hist(t)| - 1]])
      && (w.serve(TenDays, t).Some? ==> exists k :: 0 <= k < |hist(t)| && w.serve(TenDays, t).value == hist(t)[k..])
      && (forall y | w.serve(YearArchive(y), t).Some? :: CompleteThroughYesterday(w.serve(YearArchive(y), t), hist(t), w.today(t), y))
  }

  /** Growth does not touch the days before the earlier moment's. */
  lemma LatestIsSettled(w: World, hist: real -> seq<FxRateSet>, s: real, t: real, day: Date)
    requires Grows(w, hist) && s <= t && Ordinal(day) < Ordinal(w.today(s))
    ensures Latest(hist(t), day) == Latest(hist(s), day)
  {
    var h, more := hist(s), hist(t);
    assert |h| <= |more| && more[..|h|] == h;
    LaterSetsDoNotCount(more, |h|, day);
  }

  lemma {:induction false} LaterSetsDoNotCount(h: seq<FxRateSet>, n: nat, day: Date)
    requires n <= |h| && forall i | n <= i < |h| :: Ordinal(h[i].date) > Ordinal(day)
    ensures Latest(h, day) == Latest(h[..n], day)
  {
    if |h| == n {
      assert h[..n] == h;
    } else {
      var front := h[..|h| - 1];
      assert forall i | 0 <= i < |front| :: front[i] == h[i];
      LaterSetsDoNotCount(front, n, day);
      assert front[..n] == h[..n];
    }
  }

  /** Today's and the ten-day file, if they have an answer, have their moment's. */
  lemma LiveAnswers(w: World, hist: real -> seq<FxRateSet>, path: Path, at: real, day: Date)
    requires ServesHistory(w, hist) && (path.Current? || path.TenDays?)
    requires w.serve(path, at).Some? && Latest(w.serve(path, at).value, day).Some?
    ensures Latest(w.serve(path, at).value, day) == Latest(hist(at), day)
  {
    var h := hist(at);
    var k: nat := |h| - 1;
    if path.Current? {
      assert h[k..] == [h[k]];
    } else {
      k :| k < |h| && w.serve(path, at).value == h[k..];
    }
    SuffixAnswers(h, k, day, w.today(at));
  }

  /** An archive fetched when the day, or its own year, was past: it answers exactly when
      the answer is of its year, if it is not of a later one. */
  lemma ArchiveAt(w: World, hist: real -> seq<FxRateSet>, y: int, at: real, day: Date, end: real)
    requires ServesHistory(w, hist) && Grows(w, hist) && Valid(day) && at <= end
    requires Ordinal(day) < Ordinal(w.today(at)) || y < w.today(at).year
    requires w.serve(YearArchive(y), at).Some?
    requires forall x | x in hist(end) && Ordinal(x.date) <= Ordinal(day) :: x.date.year <= y
    ensures Latest(w.serve(YearArchive(y), at).value, day) == LatestOfYear(hist(end), day, y)
  {
    var h, a := hist(end), w.serve(YearArchive(y), at).value;
    assert forall x | x in a :: x in h && x.date.year == y by {
      assert CompleteThroughYesterday(w.serve(YearArchive(y), at), hist(at), w.today(at), y);
      assert forall x | x in hist(at) :: x in h;
    }
    forall x | x in h && Ordinal(x.date) <= Ordinal(day) && x.date.year == y ensures x in a {
      PastIsInArchive(w, hist, y, at, day, end, x);
    }
    LatestIsLatest(h, day);
    LatestIsLatest(a, day);
    if Latest(h, day).Some? && Latest(h, day).value.date.year == y {
      LatestWithin(a, h, w.today(end), day);
    } else if Latest(a, day).Some? {
      OrdinalOrdersYears(Latest(a, day).value.date, Latest(h, day).value.date);
    }
  }

  lemma PastIsInArchive(w: World, hist: real -> seq<FxRateSet>, y: int, at: real, day: Date, end: real, x: FxRateSet)
    requires ServesHistory(w, hist) && Grows(w, hist) && at <= end
    requires Ordinal(day) < Ordinal(w.today(at)) || y < w.today(at).year
    requires w.serve(YearArchive(y), at).Some?
    requires x in hist(end) && Ordinal(x.date) <= Ordinal(day) && x.date.year == y
    ensures x in w.serve(YearArchive(y), at).value
  {
    assert Ordinal(x.date) < Ordinal(w.today(at)) by {
      if Ordinal(w.today(at)) <= Ordinal(x.date) {
        assert History(hist(at), w.today(at)) && History(hist(end), w.today(end));
        OrdinalOrdersYears(w.today(at), x.date);
      }
    }
    var i :| 0 <= i < |hist(end)| && hist(end)[i] == x;
    assert i < |hist(at)|;
    assert hist(at)[i] == x;
    assert CompleteThroughYesterday(w.serve(YearArchive(y), at), hist(at), w.today(at), y);
  }

  /** A document genuine at `now`, asked about a day that was past 900 seconds before: its
      answer is the history's, provided no later year than an archive's holds that. */
  lemma GenuineAnswers(w: World, hist: real -> seq<FxRateSet>, path: Path, sets: seq<FxRateSet>, now: real, day: Date, end: real)
    requires ServesHistory(w, hist) && Grows(w, hist) && Valid(day)
    requires Genuine(w, path, sets, now) && now <= end && Ordinal(day) < Ordinal(w.today(now - LIVE_TTL))
    requires path.YearArchive? ==> forall x | x in hist(end) && Ordinal(x.date) <= Ordinal(day) :: x.date.year <= path.year
    ensures Latest(sets, day).Some? ==> Latest(sets, day) == Latest(hist(end), day)
    ensures path.YearArchive? ==> Latest(sets, day) == LatestOfYear(hist(end), day, path.year)
  {
    var at: real :| at <= now && w.serve(path, at) == Some(sets) && (now < at + 900.0 || (path.YearArchive? && path.year < w.today(at).year));
    if now < at + LIVE_TTL {
      assert Ordinal(w.today(now - LIVE_TTL)) <= Ordinal(w.today(at));
    }
    if path.YearArchive? {
      assert path == YearArchive(path.year);
      ArchiveAt(w, hist, path.year, at, day, end);
    } else {
      LatestIsSettled(w, hist, at, end, day);
      if Latest(sets, day).Some? {
        LiveAnswers(w, hist, path, at, day);
      }
    }
  }

  /** What a run of reads gave: each document genuine when it was read. */
  ghost predicate ReadGenuinely(w: World, docs: Documents, paths: seq<Path>, times: seq<real>)
    requires |times| == |paths|
  {
    forall i | 0 <= i < |paths| && Read(docs, paths[i]).Some? :: Genuine(w, paths[i], Read(docs, paths[i]).value, times[i])
  }

  /** At each read, until `end`, the day was past 900 seconds before. */
  ghost predicate PastThroughout(w: World, times: seq<real>, day: Date, end: real) {
    forall i | 0 <= i < |times| :: times[i] <= end && Ordinal(day) < Ordinal(w.today(times[i] - LIVE_TTL))
  }

  /** What must have been read for the archive legs to have an answer. */
  ghost predicate ArchivesReach(docs: Documents, h: seq<FxRateSet>, day: Date) {
    Read(docs, YearArchive(day.year)).Some? &&
    (LatestOfYear(h, day, day.year).Some? ||
     (LatestOfYear(h, day, day.year - 1).Some? && day.year > FIRST_ARCHIVED_YEAR && Read(docs, YearArchive(day.year - 1)).Some?))
  }

  /** The archive legs over documents read at different moments. */
  lemma ArchivesAgree(w: World, hist: real -> seq<FxRateSet>, docs: Documents, times: seq<real>, day: Date, end: real)
    requires ServesHistory(w, hist) && Grows(w, hist) && Valid(day)
    requires |times| == |ArchivePaths(day)| && ReadGenuinely(w, docs, ArchivePaths(day), times)
    requires PastThroughout(w, times, day, end)
    ensures var r := Try(docs, ArchivePaths(day), day);
            && (r.Ok? ==> Latest(hist(end), day) == Some(r.value))
            && (r.Ok? <==> ArchivesReach(docs, hist(end), day))
  {
    var h, paths := hist(end), ArchivePaths(day);
    assert History(h, w.today(end));
    assert paths[0] == YearArchive(day.year) && (|paths| == 2 ==> paths[1] == YearArchive(day.year - 1));
    forall x | x in h && Ordinal(x.date) <= Ordinal(day) ensures x.date.year <= day.year {
      OrdinalOrdersYears(x.date, day);
    }
    if Read(docs, paths[0]).Some? {
      GenuineAnswers(w, hist, paths[0], Read(docs, paths[0]).value, times[0], day, end);
    }
    if LatestOfYear(h, day, day.year) == None && |paths| == 2 && Read(docs, paths[1]).Some? {
      NoneThisYear(h, day, w.today(end));
      GenuineAnswers(w, hist, paths[1], Read(docs, paths[1]).value, times[1], day, end);
    }
    LegsAgree(docs, h, day);
  }

  lemma LegsAgree(docs: Documents, h: seq<FxRateSet>, day: Date)
    requires var own := Read(docs, YearArchive(day.year));
             own.Some? ==> Latest(own.value, day) == LatestOfYear(h, day, day.year)
    requires var older := Read(docs, YearArchive(day.year - 1));
             LatestOfYear(h, day, day.year) == None && day.year > FIRST_ARCHIVED_YEAR && older.Some? ==>
               Latest(older.value, day) == LatestOfYear(h, day, day.year - 1)
    ensures var r := Try(docs, ArchivePaths(day), day);
            (r.Ok? ==> Latest(h, day) == Some(r.value)) && (r.Ok? <==> ArchivesReach(docs, h, day))
  {
    var rest := if day.year > FIRST_ARCHIVED_YEAR then [YearArchive(day.year - 1)] else [];
    TryStep(docs, YearArchive(day.year), rest, day);
    TryStep(docs, YearArchive(day.year - 1), [], day);
    assert [YearArchive(day.year - 1)] + [] == [YearArchive(day.year - 1)];
  }

  /** ... and with the ten-day file before them. */
  lemma TenDaysAgree(w: World, hist: real -> seq<FxRateSet>, docs: Documents, times: seq<real>, day: Date, end: real)
    requires ServesHistory(w, hist) && Grows(w, hist) && Valid(day)
    requires var paths := [TenDays] + ArchivePaths(day); |times| == |paths| && ReadGenuinely(w, docs, paths, times)
    requires PastThroughout(w, times, day, end)
    ensures var r, ten := Try(docs, [TenDays] + ArchivePaths(day), day), Read(docs, TenDays);
            && (r.Ok? ==> Latest(hist(end), day) == Some(r.value))
            && (r.Ok? <==> ten.Some? && (Latest(ten.value, day).Some? || ArchivesReach(docs, hist(end), day)))
  {
    var paths := [TenDays] + ArchivePaths(day);
    assert paths[0] == TenDays && paths[1..] == ArchivePaths(day);
    TryStep(docs, TenDays, ArchivePaths(day), day);
    if Read(docs, TenDays).Some? {
      GenuineAnswers(w, hist, TenDays, Read(docs, TenDays).value, times[0], day, end);
    }
    assert ReadGenuinely(w, docs, ArchivePaths(day), times[1..]) by {
      assert forall i | 0 <= i < |ArchivePaths(day)| :: ArchivePaths(day)[i] == paths[i + 1] && times[1..][i] == times[i + 1];
    }
    ArchivesAgree(w, hist, docs, times[1..], day, end);
  }

  /** What must have been read for a past day's cascade to have an answer. */
  ghost predicate PastReach(docs: Documents, h: seq<FxRateSet>, day: Date, paths: seq<Path>) {
    if TenDays in paths then
      var ten := Read(docs, TenDays);
      ten.Some? && (Latest(ten.value, day).Some? || ArchivesReach(docs, h, day))
    else ArchivesReach(docs, h, day)
  }

  /** Through the caches, at whatever moments the documents are read and were fetched: for
      a day that was past 900 seconds before the call, an answer is exactly the latest
      publication on or before it, then and ever after; and there is one if and only if a
      document that was read reaches it. */
  lemma CachedPastDay(w: World, hist: real -> seq<FxRateSet>, c: Caches, day: Date, start: real, reach: int, times: seq<real>, end: real)
    returns (docs: Documents)
    requires ServesHistory(w, hist) && Grows(w, hist) && CachesInv(w, c, start) && Valid(day)
    requires Ordinal(day) < Ordinal(w.today(start - LIVE_TTL))
    requires |times| == |SourcesFor(day, w.today(start), reach)|
    requires forall i | 0 <= i < |times| :: start <= times[i] <= end
    requires forall i, j | 0 <= i < j < |times| :: times[i] <= times[j]
    ensures ReadGenuinely(w, docs, SourcesFor(day, w.today(start), reach), times)
    ensures var paths := SourcesFor(day, w.today(start), reach);
            var answer := AnswerThrough(w, c, paths, day, times).1;
            && answer == Try(docs, paths, day)
            && (answer.Ok? ==> Latest(hist(end), day) == Some(answer.value))
            && (answer.Ok? <==> PastReach(docs, hist(end), day, paths))
  {
    var paths := SourcesFor(day, w.today(start), reach);
    assert Ordinal(w.today(start - LIVE_TTL)) <= Ordinal(w.today(start));
    docs := AnswerFromGenuineDocuments(w, c, paths, day, times, start);
    assert ReadGenuinely(w, docs, paths, times);
    assert PastThroughout(w, times, day, end) by {
      assert forall i | 0 <= i < |times| :: Ordinal(w.today(start - LIVE_TTL)) <= Ordinal(w.today(times[i] - LIVE_TTL));
    }
    PastPaths(day, w.today(start), reach);
    PastCascade(w, hist, docs, paths, times, day, end);
  }

  /** A past day's paths are the archives', with the ten-day file before them or not. */
  predicate IsPast(paths: seq<Path>, day: Date) {
    (paths == ArchivePaths(day) && TenDays !in paths) || (paths == [TenDays] + ArchivePaths(day) && TenDays in paths)
  }

  lemma PastPaths(day: Date, today: Date, reach: int)
    requires Ordinal(day) < Ordinal(today)
    ensures IsPast(SourcesFor(day, today, reach), day)
  {
  }

  lemma PastCascade(w: World, hist: real -> seq<FxRateSet>, docs: Documents, paths: seq<Path>, times: seq<real>, day: Date, end: real)
    requires ServesHistory(w, hist) && Grows(w, hist) && Valid(day) && IsPast(paths, day)
    requires |times| == |paths| && ReadGenuinely(w, docs, paths, times) && PastThroughout(w, times, day, end)
    ensures var r := Try(docs, paths, day);
            (r.Ok? ==> Latest(hist(end), day) == Some(r.value)) && (r.Ok? <==> PastReach(docs, hist(end), day, paths))
  {
    if TenDays in paths {
      TenDaysAgree(w, hist, docs, times, day, end);
    } else {
      ArchivesAgree(w, hist, docs, times, day, end);
    }
  }

  /** For a day that has not ended at the first read, an answer is the latest publication
      as the history stood less than 900 seconds before. */
  lemma CachedToday(w: World, hist: real -> seq<FxRateSet>, c: Caches, day: Date, start: real, reach: int, times: seq<real>) returns (at: real)
    requires ServesHistory(w, hist) && Grows(w, hist) && CachesInv(w, c, start)
    requires |times| == |SourcesFor(day, w.today(start), reach)| && times != []
    requires forall i | 0 <= i < |times| :: start <= times[i]
    requires forall i, j | 0 <= i < j < |times| :: times[i] <= times[j]
    requires Ordinal(day) >= Ordinal(w.today(times[0]))
    ensures at <= times[0] < at + LIVE_TTL
    ensures var answer := AnswerThrough(w, c, SourcesFor(day, w.today(start), reach), day, times).1;
            answer.Ok? ==> Latest(hist(at), day) == Some(answer.value)
  {
    var paths := SourcesFor(day, w.today(start), reach);
    assert Ordinal(w.today(start)) <= Ordinal(w.today(times[0]));
    var docs := AnswerFromGenuineDocuments(w, c, paths, day, times, start);
    assert paths[0] == Current;
    at := times[0];
    if Read(docs, Current).Some? {
      var sets := Read(docs, Current).value;
      assert Genuine(w, Current, sets, times[0]);
      at :| at <= times[0] < at + LIVE_TTL && w.serve(Current, at) == Some(sets);
      LatestIsLatest(sets, day);
      var newest := hist(at)[|hist(at)| - 1];
      assert Ordinal(newest.date) <= Ordinal(w.today(at)) <= Ordinal(w.today(times[0]));
      assert sets == [newest] && newest in sets;
      LiveAnswers(w, hist, Current, at, day);
    }
  }
}
