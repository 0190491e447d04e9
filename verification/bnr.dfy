/** BNR reference rates (src/anafpy/bnr/client.py): a cascade of small documents behind
    two caches must answer "the latest publication on or before the day". */
module BnrRates {
  import opened Wrappers

  // ---- The calendar --------------------------------------------------------------------

  /** A day of the proleptic Gregorian calendar, by its place in its year (from 1). */
  datatype Date = Date(year: int, day: int)

  predicate IsLeap(year: int) {
    year % 4 == 0 && (year % 100 != 0 || year % 400 == 0)
  }

  function DaysIn(year: int): int {
    if IsLeap(year) then 366 else 365
  }

  /** `date(year, 1, 1).toordinal() - 1`. */
  function DaysBeforeYear(year: int): int {
    if year <= 1 then 0 else DaysBeforeYear(year - 1) + DaysIn(year - 1)
  }

  predicate Valid(d: Date) {
    1 <= d.year && 1 <= d.day <= DaysIn(d.year)
  }

  function Ordinal(d: Date): int {
    DaysBeforeYear(d.year) + d.day
  }

  lemma {:induction false} YearsInOrder(a: int, b: int)
    requires 1 <= a < b
    ensures DaysBeforeYear(a) + DaysIn(a) <= DaysBeforeYear(b)
  {
    if a == b - 1 {
    } else {
      YearsInOrder(a, b - 1);
    }
  }

  /** The calendar's closed form. */
  lemma {:induction false} CalendarExactly(year: int)
    requires year >= 1
    ensures DaysBeforeYear(year) == 365 * (year - 1) + (year - 1) / 4 - (year - 1) / 100 + (year - 1) / 400
  {
    if year == 1 {
    } else {
      CalendarExactly(year - 1);
      LeapStep(year - 1);
    }
  }

  /** One more year, one more leap day or none. */
  lemma LeapStep(n: int)
    requires n >= 1
    ensures n / 4 - (n - 1) / 4 == if n % 4 == 0 then 1 else 0
    ensures n / 100 - (n - 1) / 100 == if n % 100 == 0 then 1 else 0
    ensures n / 400 - (n - 1) / 400 == if n % 400 == 0 then 1 else 0
    ensures (n % 400 == 0 ==> n % 100 == 0) && (n % 100 == 0 ==> n % 4 == 0)
  {
    Hundreds(n, 4);
    Hundreds(n, 100);
    Hundreds(n, 400);
    Divides(n);
  }

  lemma Divides(n: int)
    ensures n % 400 == 0 ==> n % 100 == 0
    ensures n % 100 == 0 ==> n % 4 == 0
  {
    FourHundreds(n / 400);
    OneHundreds(n / 100);
  }

  lemma FourHundreds(q: int)
    ensures 400 * q % 100 == 0
  {
  }

  lemma OneHundreds(q: int)
    ensures 100 * q % 4 == 0
  {
  }

  lemma Hundreds(n: int, k: int)
    requires n >= 1 && k in {4, 100, 400}
    ensures n / k - (n - 1) / k == if n % k == 0 then 1 else 0
  {
    if k == 4 {
      assert n == n / 4 * 4 + n % 4 && n - 1 == (n - 1) / 4 * 4 + (n - 1) % 4;
    } else if k == 100 {
      assert n == n / 100 * 100 + n % 100 && n - 1 == (n - 1) / 100 * 100 + (n - 1) % 100;
    } else {
      assert n == n / 400 * 400 + n % 400 && n - 1 == (n - 1) / 400 * 400 + (n - 1) % 400;
    }
  }

  lemma NextDay(d: Date)
    requires Valid(d)
    ensures d.day < DaysIn(d.year) ==> Ordinal(Date(d.year, d.day + 1)) == Ordinal(d) + 1
    ensures d.day == DaysIn(d.year) ==> Ordinal(Date(d.year + 1, 1)) == Ordinal(d) + 1
    ensures DaysIn(d.year) == if d.year % 4 == 0 && (d.year % 100 != 0 || d.year % 400 == 0) then 366 else 365
  {
  }

  /** Day order refines year order. */
  lemma OrdinalOrdersYears(a: Date, b: Date)
    requires Valid(a) && Valid(b) && Ordinal(a) <= Ordinal(b)
    ensures a.year <= b.year
  {
    if b.year < a.year {
      YearsInOrder(b.year, a.year);
    }
  }

  // ---- Documents -----------------------------------------------------------------------

  datatype FxRateSet = FxRateSet(date: Date, rates: map<string, real>)
  datatype Path = Current | TenDays | YearArchive(year: int)

  const FIRST_ARCHIVED_YEAR := 2005
  const TEN_DAYS_REACH := 18

  /** What reading each path gives; `None` (or no entry) is a fetch that raises, which an
      archive without any rate does too. */
  type Documents = map<Path, Option<seq<FxRateSet>>>

  function Read(docs: Documents, path: Path): Option<seq<FxRateSet>> {
    if path in docs then docs[path] else None
  }

  /** The first set with the greatest date not after `day`. */
  function Latest(sets: seq<FxRateSet>, day: Date): Option<FxRateSet> {
    if sets == [] then None else
    var best := Latest(sets[..|sets| - 1], day);
    var x := sets[|sets| - 1];
    if Ordinal(x.date) <= Ordinal(day) && (best.None? || Ordinal(x.date) > Ordinal(best.value.date)) then Some(x) else best
  }

  lemma {:induction false} LatestIsLatest(sets: seq<FxRateSet>, day: Date)
    ensures match Latest(sets, day)
            case None => forall x | x in sets :: Ordinal(x.date) > Ordinal(day)
            case Some(p) => p in sets && Ordinal(p.date) <= Ordinal(day) &&
                            (forall x | x in sets && Ordinal(x.date) <= Ordinal(day) :: Ordinal(x.date) <= Ordinal(p.date)) &&
                            exists k :: 0 <= k < |sets| && sets[k] == p && forall j | 0 <= j < k :: Ordinal(sets[j].date) != Ordinal(p.date)
  {
    if sets == [] {
    } else {
      var front := sets[..|sets| - 1];
      LatestIsLatest(front, day);
      assert sets == front + [sets[|sets| - 1]];
      assert forall j | 0 <= j < |front| :: sets[j] == front[j] && front[j] in front;
    }
  }

  // ---- get_rates --------------------------------------------------------------------------

  datatype Error = BeforeArchive | Unreadable(path: Path) | NothingPublished

  /** The archive of the day's year, and the one before it, which has the answer until the
      first publication of the year. */
  function ArchivePaths(day: Date): seq<Path> {
    [YearArchive(day.year)] + (if day.year > FIRST_ARCHIVED_YEAR then [YearArchive(day.year - 1)] else [])
  }

  function SourcesFor(day: Date, today: Date, reach: int): seq<Path> {
    (if Ordinal(day) >= Ordinal(today) then [Current] else [])
    + (if Ordinal(day) >= Ordinal(today) - reach then [TenDays] else [])
    + ArchivePaths(day)
  }

  function Try(docs: Documents, paths: seq<Path>, day: Date): Result<FxRateSet, Error>
    decreases |paths|
  {
    if paths == [] then Err(NothingPublished) else
    match Read(docs, paths[0])
    case None => Err(Unreadable(paths[0]))
    case Some(sets) =>
      match Latest(sets, day)
      case Some(found) => Ok(found)
      case None => Try(docs, paths[1..], day)
  }

  function GetRates(docs: Documents, day: Date, today: Date, reach: int): Result<FxRateSet, Error> {
    if day.year < FIRST_ARCHIVED_YEAR then Err(BeforeArchive)
    else Try(docs, SourcesFor(day, today, reach), day)
  }

  /** Which documents are asked, smallest first: today's file from today on, the ten-day file
      up to `reach` days back, then the archive of the day's year, and of the year before from
      2006 on. */
  lemma SourcesExactly(day: Date, today: Date, reach: int)
    ensures var paths := SourcesFor(day, today, reach);
            && (Current in paths <==> Ordinal(day) >= Ordinal(today)) && (TenDays in paths <==> Ordinal(day) >= Ordinal(today) - reach)
            && (forall y :: YearArchive(y) in paths <==> y == day.year || (y == day.year - 1 && day.year >= 2006))
            && forall i, j | 0 <= i < j < |paths| :: Size(paths[i], day) < Size(paths[j], day)
  {
    var paths, own := SourcesFor(day, today, reach), [YearArchive(day.year)];
    var older := if day.year >= 2006 then [YearArchive(day.year - 1)] else [];
    assert ArchivePaths(day) == own + older;
    var recent := (if Ordinal(day) >= Ordinal(today) then [Current] else []) + (if Ordinal(day) >= Ordinal(today) - reach then [TenDays] else []);
    assert recent in {[], [Current], [TenDays], [Current, TenDays]} by {
      assert [] + [TenDays] == [TenDays] && [Current] + [] == [Current] && [Current] + [TenDays] == [Current, TenDays];
    }
    InThree(recent, own, older);
    assert paths == recent + own + older;
    Growing(recent, own, older, day);
  }

  lemma InThree(a: seq<Path>, b: seq<Path>, c: seq<Path>)
    ensures forall p :: p in a + b + c <==> p in a || p in b || p in c
  {
  }

  lemma Growing(a: seq<Path>, b: seq<Path>, c: seq<Path>, day: Date)
    requires a in {[], [Current], [TenDays], [Current, TenDays]} && b == [YearArchive(day.year)]
    requires c in {[], [YearArchive(day.year - 1)]}
    ensures var paths := a + b + c; forall i, j | 0 <= i < j < |paths| :: Size(paths[i], day) < Size(paths[j], day)
  {
  }

  function Size(p: Path, day: Date): nat {
    match p
    case Current => 0
    case TenDays => 1
    case YearArchive(y) => if y == day.year then 2 else 3
  }

  /** Why a lookup raises: the day is before 2005; or a document could not be read, all before
      it holding nothing on or before the day; or no document holds anything. */
  lemma RaisesExactly(docs: Documents, day: Date, today: Date, reach: int)
    ensures var r, paths := GetRates(docs, day, today, reach), SourcesFor(day, today, reach);
            && (r == Err(BeforeArchive) <==> day.year < 2005)
            && (r.Err? && r.error.Unreadable? ==>
                  exists k :: 0 <= k < |paths| && r.error.path == paths[k] && Read(docs, paths[k]) == None && AllSilent(docs, paths[..k], day))
            && (r == Err(NothingPublished) <==> day.year >= 2005 && AllSilent(docs, paths, day))
  {
    TryRaises(docs, SourcesFor(day, today, reach), day);
  }

  /** Read, and with nothing on or before the day. */
  ghost predicate AllSilent(docs: Documents, paths: seq<Path>, day: Date) {
    forall i | 0 <= i < |paths| :: Read(docs, paths[i]).Some? && Latest(Read(docs, paths[i]).value, day) == None
  }

  lemma SilentCons(docs: Documents, path: Path, rest: seq<Path>, day: Date)
    requires Read(docs, path).Some? && Latest(Read(docs, path).value, day) == None
    ensures AllSilent(docs, [path] + rest, day) <==> AllSilent(docs, rest, day)
  {
    var paths := [path] + rest;
    assert forall i | 0 <= i < |rest| :: rest[i] == paths[i + 1];
    assert forall i | 0 < i < |paths| :: paths[i] == rest[i - 1];
  }

  lemma {:induction false} TryRaises(docs: Documents, paths: seq<Path>, day: Date)
    ensures var r := Try(docs, paths, day);
            && r != Err(BeforeArchive)
            && (r.Err? && r.error.Unreadable? ==>
                  exists k :: 0 <= k < |paths| && r.error.path == paths[k] && Read(docs, paths[k]) == None && AllSilent(docs, paths[..k], day))
            && (r == Err(NothingPublished) <==> AllSilent(docs, paths, day))
    decreases |paths|
  {
    if paths == [] {
    } else {
      var rest, r := paths[1..], Try(docs, paths, day);
      TryRaises(docs, rest, day);
      var first := Read(docs, paths[0]);
      if first.None? {
        assert paths[..0] == [] && r.error.path == paths[0];
        assert !AllSilent(docs, paths, day);
      } else if Latest(first.value, day).Some? {
        assert !AllSilent(docs, paths, day);
      } else {
        SilentCons(docs, paths[0], rest, day);
        assert paths == [paths[0]] + rest;
        if r.Err? && r.error.Unreadable? {
          var k :| 0 <= k < |rest| && r.error.path == rest[k] && Read(docs, rest[k]) == None && AllSilent(docs, rest[..k], day);
          SilentCons(docs, paths[0], rest[..k], day);
          assert paths[..k + 1] == [paths[0]] + rest[..k];
          assert paths[k + 1] == rest[k];
        }
      }
    }
  }

  // ---- The cascade against the whole history ---------------------------------------------

  /** One publication per banking day, oldest first, none in the future. */
  ghost predicate History(h: seq<FxRateSet>, today: Date) {
    && h != [] && Valid(today)
    && (forall i | 0 <= i < |h| :: Valid(h[i].date) && Ordinal(h[i].date) <= Ordinal(today))
    && (forall i, j | 0 <= i < j < |h| :: Ordinal(h[i].date) < Ordinal(h[j].date))
  }

  ghost predicate CompleteThroughYesterday(archive: Option<seq<FxRateSet>>, h: seq<FxRateSet>, today: Date, y: int) {
    match archive
    case Some(a) =>
      && a != []
      && (forall x | x in a :: x in h && x.date.year == y)
      && (forall x | x in h && x.date.year == y && Ordinal(x.date) < Ordinal(today) :: x in a)
    case None => forall x | x in h && x.date.year == y :: Ordinal(x.date) >= Ordinal(today)
  }

  /** How BNR's documents relate to its history: today's file is the newest set, the
      ten-day file a suffix, and a year archive is complete through yesterday (and is
      not served while it would be empty). */
  ghost predicate Publishes(docs: Documents, h: seq<FxRateSet>, today: Date) {
    && h != []
    && Read(docs, Current) == Some([h[|h| - 1]])
    && (exists k :: 0 <= k < |h| && Read(docs, TenDays) == Some(h[k..]))
    && forall y :: CompleteThroughYesterday(Read(docs, YearArchive(y)), h, today, y)
  }

  /** A document that holds the right answer gives the right answer. */
  lemma LatestWithin(part: seq<FxRateSet>, h: seq<FxRateSet>, today: Date, day: Date)
    requires History(h, today)
    requires forall x | x in part :: x in h
    requires Latest(h, day).Some? && Latest(h, day).value in part
    ensures Latest(part, day) == Latest(h, day)
  {
    LatestIsLatest(part, day);
    LatestIsLatest(h, day);
    var p, q := Latest(h, day).value, Latest(part, day).value;
    assert Ordinal(p.date) == Ordinal(q.date) && p in h && q in h;
  }

  lemma CurrentAnswers(docs: Documents, h: seq<FxRateSet>, day: Date, today: Date)
    requires History(h, today) && Publishes(docs, h, today) && Ordinal(day) >= Ordinal(today)
    ensures Latest(h, day).Some? && Latest(Read(docs, Current).value, day) == Latest(h, day)
  {
    var newest := h[|h| - 1];
    LatestIsLatest(h, day);
    assert newest in h && Ordinal(newest.date) <= Ordinal(day);
    assert Latest(h, day).value == newest;
    LatestWithin([newest], h, today, day);
  }

  lemma SuffixAnswers(h: seq<FxRateSet>, k: nat, day: Date, today: Date)
    requires History(h, today) && k < |h|
    ensures if Ordinal(h[k].date) <= Ordinal(day) then Latest(h, day).Some? && Latest(h[k..], day) == Latest(h, day)
            else Latest(h[k..], day) == None
  {
    var ten := h[k..];
    if Ordinal(h[k].date) <= Ordinal(day) {
      LatestIsLatest(h, day);
      assert h[k] in h;
      var i :| 0 <= i < |h| && h[i] == Latest(h, day).value;
      assert i >= k;
      assert ten[i - k] == h[i];
      LatestWithin(ten, h, today, day);
    } else {
      LatestIsLatest(ten, day);
      forall x | x in ten ensures Ordinal(x.date) > Ordinal(day) {
        var i :| 0 <= i < |ten| && ten[i] == x;
        assert h[k + i] == x;
      }
    }
  }

  lemma TenDaysAnswers(docs: Documents, h: seq<FxRateSet>, day: Date, today: Date)
    requires History(h, today) && Publishes(docs, h, today)
    ensures var ten := Read(docs, TenDays);
            && ten.Some? && ten.value != []
            && (Ordinal(ten.value[0].date) <= Ordinal(day) ==> Latest(h, day).Some? && Latest(ten.value, day) == Latest(h, day))
            && (Ordinal(ten.value[0].date) > Ordinal(day) ==> Latest(ten.value, day) == None)
  {
    var k :| 0 <= k < |h| && Read(docs, TenDays) == Some(h[k..]);
    SuffixAnswers(h, k, day, today);
  }

  /** The archive of year `y`, for a day of the past: it answers exactly when the answer
      is a publication of that year. */
  lemma ArchiveAnswers(docs: Documents, h: seq<FxRateSet>, day: Date, today: Date, y: int)
    requires History(h, today) && Publishes(docs, h, today) && Valid(day) && Ordinal(day) < Ordinal(today)
    requires Read(docs, YearArchive(y)).Some?
    requires forall x | x in h && Ordinal(x.date) <= Ordinal(day) :: x.date.year <= y
    ensures Latest(Read(docs, YearArchive(y)).value, day) == LatestOfYear(h, day, y)
  {
    assert CompleteThroughYesterday(Read(docs, YearArchive(y)), h, today, y);
    var a := Read(docs, YearArchive(y)).value;
    LatestIsLatest(h, day);
    LatestIsLatest(a, day);
    if Latest(h, day).Some? && Latest(h, day).value.date.year == y {
      LatestWithin(a, h, today, day);
    } else if Latest(a, day).Some? {
      var p, q := Latest(h, day).value, Latest(a, day).value;
      OrdinalOrdersYears(q.date, p.date);
    }
  }

  /** What must hold for the cascade to reach the answer. */
  ghost predicate Reachable(docs: Documents, h: seq<FxRateSet>, day: Date, today: Date, reach: int) {
    || Ordinal(day) >= Ordinal(today)
    || (Ordinal(day) >= Ordinal(today) - reach && Read(docs, TenDays).Some? && Read(docs, TenDays).value != []
        && Ordinal(Read(docs, TenDays).value[0].date) <= Ordinal(day))
    || (Latest(h, day).Some? && Latest(h, day).value.date.year == day.year)
    || (Latest(h, day).Some? && Latest(h, day).value.date.year == day.year - 1 && day.year > 2005
        && Read(docs, YearArchive(day.year)).Some?)
  }

  /** Whatever the reach constant: the cascade answers with exactly the latest publication
      on or before the day in the whole history, or it raises; and it answers if and only
      if that publication is within reach of one of the documents. */
  lemma CascadeIsLatest(docs: Documents, h: seq<FxRateSet>, day: Date, today: Date, reach: int)
    requires History(h, today) && Publishes(docs, h, today) && Valid(day)
    ensures GetRates(docs, day, today, reach).Ok? <==> day.year >= 2005 && Reachable(docs, h, day, today, reach)
    ensures GetRates(docs, day, today, reach).Ok? ==> Latest(h, day) == Some(GetRates(docs, day, today, reach).value)
  {
    if day.year >= 2005 {
      if Ordinal(day) >= Ordinal(today) {
        CurrentAnswers(docs, h, day, today);
      } else {
        PastDayIsLatest(docs, h, day, today, reach);
      }
    }
  }

  lemma PastDayIsLatest(docs: Documents, h: seq<FxRateSet>, day: Date, today: Date, reach: int)
    requires History(h, today) && Publishes(docs, h, today) && Valid(day) && day.year >= 2005 && Ordinal(day) < Ordinal(today)
    ensures GetRates(docs, day, today, reach).Ok? <==> Reachable(docs, h, day, today, reach)
    ensures GetRates(docs, day, today, reach).Ok? ==> Latest(h, day) == Some(GetRates(docs, day, today, reach).value)
  {
    TenDaysAnswers(docs, h, day, today);
    LatestIsLatest(h, day);
    forall x | x in h && Ordinal(x.date) <= Ordinal(day) ensures x.date.year <= day.year {
      OrdinalOrdersYears(x.date, day);
    }
    var tail := ArchivePaths(day);
    ArchivesAnswer(docs, h, day, today);
    if Ordinal(day) >= Ordinal(today) - reach {
      assert SourcesFor(day, today, reach) == [TenDays] + tail;
      assert SourcesFor(day, today, reach)[1..] == tail;
    } else {
      assert SourcesFor(day, today, reach) == tail;
    }
  }

  /** `Latest(h, day)`, when it was published in year `y`. */
  function LatestOfYear(h: seq<FxRateSet>, day: Date, y: int): Option<FxRateSet> {
    var p := Latest(h, day);
    if p.Some? && p.value.date.year == y then p else None
  }

  lemma TryStep(docs: Documents, path: Path, rest: seq<Path>, day: Date)
    ensures Try(docs, [path] + rest, day) ==
            match Read(docs, path)
            case None => Err(Unreadable(path))
            case Some(sets) => (match Latest(sets, day)
                                case Some(found) => Ok(found)
                                case None => Try(docs, rest, day))
  {
  }

  /** Days of `day`'s year are out of the question once its archive has no answer. */
  lemma NoneThisYear(h: seq<FxRateSet>, day: Date, today: Date)
    requires History(h, today)
    requires forall x | x in h && Ordinal(x.date) <= Ordinal(day) :: x.date.year <= day.year
    requires LatestOfYear(h, day, day.year) == None
    ensures forall x | x in h && Ordinal(x.date) <= Ordinal(day) :: x.date.year <= day.year - 1
  {
    LatestIsLatest(h, day);
    forall x | x in h && Ordinal(x.date) <= Ordinal(day) ensures x.date.year <= day.year - 1 {
      OrdinalOrdersYears(x.date, Latest(h, day).value.date);
    }
  }

  /** An archive that is not served has no answer either. */
  lemma UnservedHasNone(docs: Documents, h: seq<FxRateSet>, day: Date, today: Date, y: int)
    requires Publishes(docs, h, today) && Ordinal(day) < Ordinal(today)
    requires Read(docs, YearArchive(y)) == None
    ensures LatestOfYear(h, day, y) == None
  {
    LatestIsLatest(h, day);
    assert CompleteThroughYesterday(Read(docs, YearArchive(y)), h, today, y);
  }

  /** What asking for one archive, then the `rest`, amounts to. */
  predicate Leg(docs: Documents, h: seq<FxRateSet>, day: Date, y: int, rest: seq<Path>) {
    && (Try(docs, [YearArchive(y)] + rest, day) ==
        if Read(docs, YearArchive(y)) == None then Err(Unreadable(YearArchive(y)))
        else if LatestOfYear(h, day, y).Some? then Ok(LatestOfYear(h, day, y).value)
        else Try(docs, rest, day))
    && (Read(docs, YearArchive(y)) == None ==> LatestOfYear(h, day, y) == None)
  }

  /** One archive's leg, given that no later year holds the answer. */
  lemma ArchiveLeg(docs: Documents, h: seq<FxRateSet>, day: Date, today: Date, y: int, rest: seq<Path>)
    requires History(h, today) && Publishes(docs, h, today) && Valid(day) && Ordinal(day) < Ordinal(today)
    requires forall x | x in h && Ordinal(x.date) <= Ordinal(day) :: x.date.year <= y
    ensures Leg(docs, h, day, y, rest)
  {
    TryStep(docs, YearArchive(y), rest, day);
    if Read(docs, YearArchive(y)) == None {
      UnservedHasNone(docs, h, day, today, y);
    } else {
      ArchiveAnswers(docs, h, day, today, y);
    }
  }

  /** What the two archive legs answer. */
  ghost predicate ArchivesDecide(docs: Documents, h: seq<FxRateSet>, day: Date) {
    var r := Try(docs, ArchivePaths(day), day);
    var own, older := LatestOfYear(h, day, day.year), LatestOfYear(h, day, day.year - 1);
    if own.Some? then r == Ok(own.value)
    else if older.Some? && day.year > FIRST_ARCHIVED_YEAR && Read(docs, YearArchive(day.year)).Some? then r == Ok(older.value)
    else r.Err?
  }

  lemma LegsDecide(docs: Documents, h: seq<FxRateSet>, day: Date)
    requires Leg(docs, h, day, day.year, if day.year > FIRST_ARCHIVED_YEAR then [YearArchive(day.year - 1)] else [])
    requires LatestOfYear(h, day, day.year) == None ==> Leg(docs, h, day, day.year - 1, [])
    ensures ArchivesDecide(docs, h, day)
  {
    assert [YearArchive(day.year - 1)] + [] == [YearArchive(day.year - 1)];
  }

  lemma ArchivesAnswer(docs: Documents, h: seq<FxRateSet>, day: Date, today: Date)
    requires History(h, today) && Publishes(docs, h, today) && Valid(day) && Ordinal(day) < Ordinal(today)
    requires forall x | x in h && Ordinal(x.date) <= Ordinal(day) :: x.date.year <= day.year
    ensures ArchivesDecide(docs, h, day)
  {
    ArchiveLeg(docs, h, day, today, day.year, if day.year > FIRST_ARCHIVED_YEAR then [YearArchive(day.year - 1)] else []);
    if LatestOfYear(h, day, day.year) == None {
      NoneThisYear(h, day, today);
      ArchiveLeg(docs, h, day, today, day.year - 1, []);
    }
    LegsDecide(docs, h, day);
  }

  /** The raising January day: nothing was published yet this year, so this year's archive
      is not served, and with the real reach the previous year's, which holds the answer,
      is never asked. */
  lemma JanuaryRaises(x: FxRateSet)
    requires x.date == Date(2024, 360)
    ensures var today, day, h := Date(2025, 25), Date(2025, 1), [x];
            var docs: Documents := map[Current := Some(h), TenDays := Some(h), YearArchive(2024) := Some(h)];
            && History(h, today) && Publishes(docs, h, today) && Valid(day)
            && Latest(h, day) == Some(x)
            && GetRates(docs, day, today, 18) == Err(Unreadable(YearArchive(2025)))
  {
    var today, day, h := Date(2025, 25), Date(2025, 1), [x];
    var docs: Documents := map[Current := Some(h), TenDays := Some(h), YearArchive(2024) := Some(h)];
    YearsInOrder(2024, 2025);
    assert Ordinal(x.date) < Ordinal(day) < Ordinal(today) - TEN_DAYS_REACH;
    assert h[..0] == [] && h[0..] == h;
    assert Latest(h, day) == Some(x);
    assert Publishes(docs, h, today) by {
      assert 0 <= 0 < |h| && Read(docs, TenDays) == Some(h[0..]);
    }
    assert SourcesFor(day, today, TEN_DAYS_REACH) == ArchivePaths(day);
  }
}
