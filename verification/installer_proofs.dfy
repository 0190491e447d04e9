/** What an install run leaves behind: which files it stores, in which order, and exactly
    when everything it was asked for is current at its end. */
module InstallerConvergence {
  import opened Installer
  import opened NameOrder
  import opened Wrappers

  // ---- Names -------------------------------------------------------------------------------

  /** `p.split("/")`. */
  function Split(p: string): (parts: seq<string>)
    ensures parts != []
  {
    if p == "" then [""] else
    var front, c := Split(p[..|p| - 1]), p[|p| - 1];
    if c == '/' then front + [""] else front[..|front| - 1] + [front[|front| - 1] + [c]]
  }

  /** The last part that is neither empty nor ".", or "". */
  function LastPart(parts: seq<string>): string {
    if parts == [] then ""
    else if parts[|parts| - 1] != "" && parts[|parts| - 1] != "." then parts[|parts| - 1]
    else LastPart(parts[..|parts| - 1])
  }

  /** `seg` is the last part, after the slash that follows `before` (if any). */
  predicate SplitsOff(p: string, before: Option<string>, seg: string) {
    '/' !in seg &&
    match before
    case None => p == seg && Split(p) == [seg]
    case Some(b) => p == b + "/" + seg && Split(p) == Split(b) + [seg]
  }

  lemma {:induction false} SplitAtLast(p: string) returns (before: Option<string>)
    ensures SplitsOff(p, before, LastSegment(p))
  {
    if p == "" {
      before := None;
    } else {
      var front, c := p[..|p| - 1], p[|p| - 1];
      assert p == front + [c];
      if c == '/' {
        before := Some(front);
      } else {
        before := SplitAtLast(front);
        SplitSnoc(front, before, LastSegment(front), c);
      }
    }
  }

  lemma SplitSnoc(front: string, before: Option<string>, seg: string, c: char)
    requires SplitsOff(front, before, seg) && c != '/'
    ensures SplitsOff(front + [c], before, seg + [c])
  {
  }

  /** The name of a path is its last real component. */
  lemma {:induction false} BasenameIsLastPart(p: string)
    ensures Basename(p) == LastPart(Split(p)) && '/' !in Basename(p) && Basename(p) != "."
    decreases |p|
  {
    var seg := LastSegment(p);
    var before := SplitAtLast(p);
    if before.None? {
      assert Split(p)[..|Split(p)| - 1] == [];
    } else {
      var b := before.value;
      assert p[..|p| - |seg| - 1] == b;
      assert (Split(b) + [seg])[..|Split(b)|] == Split(b);
      BasenameIsLastPart(b);
    }
  }

  /** A usable name is one plain component in its own directory: no feed URL can place a
      file elsewhere. It is refused exactly when its path ends in no component or "..". */
  lemma NameStaysInside(url: Url, subdir: string)
    ensures RelativeName(url, subdir).Err? <==> LastPart(Split(url.path)) in {"", ".."}
    ensures RelativeName(url, subdir).Ok? ==>
              var name := LastPart(Split(url.path));
              && RelativeName(url, subdir).value == (if subdir == "" then name else subdir + "/" + name)
              && name !in {"", ".", ".."} && '/' !in name
  {
    BasenameIsLastPart(url.path);
  }

  // ---- Which paths a run may touch --------------------------------------------------------

  function Rels(items: seq<Item>): set<Path> {
    set i | 0 <= i < |items| && RelativeName(items[i].url, items[i].subdir).Ok? :: RelativeName(items[i].url, items[i].subdir).value
  }

  function ItemSet(items: seq<Item>): set<Item> {
    set i | 0 <= i < |items| :: items[i]
  }

  function FormListing(feed: Feed, form: string): set<Item> {
    if form != SAFT_FORM && form in feed.forms then ItemSet(FormItems(feed.forms[form])) else {}
  }

  function FormListings(feed: Feed, targets: seq<string>): set<Item> {
    if targets == [] then {} else FormListing(feed, targets[0]) + FormListings(feed, targets[1..])
  }

  /** Every file the feed lists for the run. */
  function Listing(feed: Feed, targets: seq<string>): set<Item> {
    ItemSet(BaseItems(feed)) + FormListings(feed, targets)
  }

  function TargetRels(feed: Feed, form: string): set<Path> {
    if form == SAFT_FORM then {SaftRel(SAFT_VALIDATOR), SaftRel(SAFT_PDF), SaftRel(SAFT_HISTORY)}
    else if form in feed.forms then Rels(FormItems(feed.forms[form]))
    else {}
  }

  function AllTargetRels(feed: Feed, targets: seq<string>): set<Path> {
    if targets == [] then {} else TargetRels(feed, targets[0]) + AllTargetRels(feed, targets[1..])
  }

  function Touched(feed: Feed, targets: seq<string>): set<Path> {
    Rels(BaseItems(feed)) + AllTargetRels(feed, targets)
  }

  lemma {:induction false} TargetRelsIn(feed: Feed, targets: seq<string>, i: nat)
    requires i < |targets|
    ensures TargetRels(feed, targets[i]) <= AllTargetRels(feed, targets)
  {
    if i == 0 {
    } else {
      TargetRelsIn(feed, targets[1..], i - 1);
    }
  }

  lemma RelsTail(items: seq<Item>)
    requires items != []
    ensures Rels(items[1..]) <= Rels(items) && ItemSet(items[1..]) <= ItemSet(items)
    ensures var n := RelativeName(items[0].url, items[0].subdir); n.Ok? ==> n.value in Rels(items)
  {
  }

  // ---- What the archive yields -------------------------------------------------------------

  ghost predicate Names(members: seq<Member>, name: string) {
    exists i :: 0 <= i < |members| && Basename(members[i].path) == name
  }

  /** `data` is the archive's first member called `name`. */
  ghost predicate FirstNamed(members: seq<Member>, name: string, data: Bytes) {
    exists i :: 0 <= i < |members| && Basename(members[i].path) == name && members[i].data == data && !Names(members[..i], name)
  }

  lemma NamesGrow(front: seq<Member>, m: Member, name: string, data: Bytes)
    ensures Names(front + [m], name) <==> Names(front, name) || Basename(m.path) == name
    ensures FirstNamed(front, name, data) ==> FirstNamed(front + [m], name, data)
    ensures Basename(m.path) == name && !Names(front, name) ==> FirstNamed(front + [m], name, m.data)
  {
    var members := front + [m];
    assert forall i | 0 <= i < |front| :: members[i] == front[i] && members[..i] == front[..i];
    assert members[|front|] == m && members[..|front|] == front;
  }

  ghost predicate WantedOnce(e: seq<Member>) {
    (forall i | 0 <= i < |e| :: Wanted(e[i].path)) && (forall i, j | 0 <= i < j < |e| :: e[i].path != e[j].path)
  }

  ghost predicate AllFirst(members: seq<Member>, e: seq<Member>) {
    forall i | 0 <= i < |e| :: FirstNamed(members, e[i].path, e[i].data)
  }

  lemma ExtractedGrows(before: seq<Member>, m: Member)
    ensures forall name :: Holds(before + [m], name) <==> Holds(before, name) || m.path == name
    ensures WantedOnce(before) && Wanted(m.path) && !Holds(before, m.path) ==> WantedOnce(before + [m])
  {
    var e := before + [m];
    assert forall i | 0 <= i < |before| :: e[i] == before[i];
    assert e[|before|] == m;
    forall name ensures Holds(e, name) <==> Holds(before, name) || m.path == name {
      if Holds(before, name) {
        var i :| 0 <= i < |before| && before[i].path == name;
        assert e[i].path == name;
      }
    }
  }

  /** The archive's wanted names, each once, with its first member's bytes. */
  lemma {:induction false} ExtractedAreWanted(members: seq<Member>)
    ensures WantedOnce(Extracted(members)) && AllFirst(members, Extracted(members))
    ensures forall name | Wanted(name) :: Holds(Extracted(members), name) <==> Names(members, name)
  {
    if members == [] {
    } else {
      var front, m := members[..|members| - 1], members[|members| - 1];
      ExtractedAreWanted(front);
      assert members == front + [m];
      var before, x := Extracted(front), Member(Basename(m.path), m.data);
      forall name | Wanted(name) ensures Holds(Extracted(members), name) <==> Names(members, name) {
        NamesGrow(front, m, name, m.data);
        ExtractedGrows(before, x);
      }
      assert AllFirst(members, Extracted(members)) by {
        FirstGrows(front, m, before);
      }
      assert WantedOnce(Extracted(members)) by {
        ExtractedGrows(before, x);
      }
    }
  }

  lemma FirstGrows(front: seq<Member>, m: Member, before: seq<Member>)
    requires AllFirst(front, before)
    ensures AllFirst(front + [m], before)
    ensures !Names(front, Basename(m.path)) ==> AllFirst(front + [m], before + [Member(Basename(m.path), m.data)])
  {
    forall i | 0 <= i < |before| ensures FirstNamed(front + [m], before[i].path, before[i].data) {
      assert FirstNamed(front, before[i].path, before[i].data);
      NamesGrow(front, m, before[i].path, before[i].data);
    }
    NamesGrow(front, m, Basename(m.path), m.data);
    var e := before + [Member(Basename(m.path), m.data)];
    assert forall i | 0 <= i < |before| :: e[i] == before[i];
  }

  lemma WantedIsTarget(feed: Feed, name: string)
    requires Wanted(name)
    ensures SaftRel(name) in TargetRels(feed, SAFT_FORM)
  {
  }

  lemma SaftRelInjective()
    ensures forall a, b :: SaftRel(a) == SaftRel(b) ==> a == b
  {
    forall a, b | SaftRel(a) == SaftRel(b) ensures a == b {
      assert a == SaftRel(a)[4..] && b == SaftRel(b)[4..];
    }
  }

  // ---- One store after another ---------------------------------------------------------------

  lemma WriteEffect(disk: Disk, rel: Path, data: Bytes)
    ensures Write(disk, rel, data) == (disk - {PartName(rel)})[rel := data]
    ensures PartName(rel) != rel
  {
  }

  /** What the network offers under the name `rel`, and from where: the body of a listed URL
      of the one allowed host, or the archive's first member of that name. */
  ghost predicate Offered(server: Server, l: set<Item>, source: Source, rel: Path, data: Bytes) {
    match source
    case FromUrl(url) =>
      && url.host == "static.anaf.ro" && url in server.files && server.files[url] == data
      && exists item :: item in l && item.url == url && RelativeName(url, item.subdir) == Ok(rel)
    case FromZip(name) =>
      server.saft.Some? && rel == "lib/" + name && FirstNamed(server.saft.value.members, name, data)
  }

  ghost predicate OfferedEntry(server: Server, l: set<Item>, e: Stored) {
    Offered(server, l, e.source, e.rel, e.data)
  }

  /** The manifest's files after the listed ones were recorded: source, hash and size of
      what was stored last. */
  function FilesAfter(files: map<Path, InstalledFile>, log: seq<Stored>): map<Path, InstalledFile> {
    if log == [] then files else
    var last := log[|log| - 1];
    FilesAfter(files, log[..|log| - 1])[last.rel := InstalledFile(last.source, Sha256(last.data), |last.data|)]
  }

  lemma {:induction false} FilesAfterAppend(files: map<Path, InstalledFile>, a: seq<Stored>, b: seq<Stored>)
    ensures FilesAfter(files, a + b) == FilesAfter(FilesAfter(files, a), b)
    decreases |b|
  {
    if b == [] {
      assert a + b == a;
    } else {
      assert (a + b)[..|a + b| - 1] == a + b[..|b| - 1];
      FilesAfterAppend(files, a, b[..|b| - 1]);
    }
  }

  /** The disk after the listed files were put in place. */
  function Replay(disk: Disk, log: seq<Stored>): Disk {
    if log == [] then disk else Write(Replay(disk, log[..|log| - 1]), log[|log| - 1].rel, log[|log| - 1].data)
  }

  /** Whether `p` is current after the files of `log` were stored one by one. */
  predicate CurrentAfter(before: bool, log: seq<Stored>, p: Path) {
    if log == [] then before
    else if log[|log| - 1].rel == p then true
    else PartName(log[|log| - 1].rel) != p && CurrentAfter(before, log[..|log| - 1], p)
  }

  ghost predicate Tracks(s: Site, s': Site, log: seq<Stored>) {
    forall p :: IsCurrent(s', p) <==> CurrentAfter(IsCurrent(s, p), log, p)
  }

  lemma {:induction false} CurrentAfterAppend(before: bool, a: seq<Stored>, b: seq<Stored>, p: Path)
    ensures CurrentAfter(before, a + b, p) <==> CurrentAfter(CurrentAfter(before, a, p), b, p)
    decreases |b|
  {
    if b == [] {
      assert a + b == a;
    } else {
      assert (a + b)[..|a + b| - 1] == a + b[..|b| - 1];
      CurrentAfterAppend(before, a, b[..|b| - 1], p);
    }
  }

  lemma TracksTransitive(s: Site, t: Site, u: Site, a: seq<Stored>, b: seq<Stored>)
    requires Tracks(s, t, a) && Tracks(t, u, b)
    ensures Tracks(s, u, a + b)
  {
    forall p ensures IsCurrent(u, p) <==> CurrentAfter(IsCurrent(s, p), a + b, p) {
      CurrentAfterAppend(IsCurrent(s, p), a, b, p);
    }
  }

  /** A later file's temporary name is `p`, and `p` was not stored again. */
  ghost predicate Clobbered(log: seq<Stored>, p: Path) {
    exists i :: 0 <= i < |log| && PartName(log[i].rel) == p && forall k | i < k < |log| :: log[k].rel != p
  }

  ghost predicate StoredIn(log: seq<Stored>, p: Path) {
    exists i :: 0 <= i < |log| && log[i].rel == p
  }

  lemma {:induction false} CurrentAfterExactly(before: bool, log: seq<Stored>, p: Path)
    ensures CurrentAfter(before, log, p) <==> !Clobbered(log, p) && (before || StoredIn(log, p))
  {
    if log == [] {
    } else {
      var front, last := log[..|log| - 1], log[|log| - 1];
      CurrentAfterExactly(before, front, p);
      assert forall i | 0 <= i < |front| :: front[i] == log[i];
      if last.rel == p {
        assert PartName(p) != p by {
          assert |PartName(p)| > |p|;
        }
      } else if PartName(last.rel) == p {
        assert Clobbered(log, p);
      } else {
        assert Clobbered(front, p) ==> Clobbered(log, p) by {
          if Clobbered(front, p) {
            var i :| 0 <= i < |front| && PartName(front[i].rel) == p && forall k | i < k < |front| :: front[k].rel != p;
            assert PartName(log[i].rel) == p;
          }
        }
        assert StoredIn(front, p) ==> StoredIn(log, p) by {
          if StoredIn(front, p) {
            var i :| 0 <= i < |front| && front[i].rel == p;
            assert log[i].rel == p;
          }
        }
      }
    }
  }

  /** `s'` comes from `s` by storing, in order, offered bytes under paths of `r`. */
  ghost predicate Logged(r: set<Path>, l: set<Item>, server: Server, s: Site, s': Site) {
    && s.updated <= s'.updated
    && s'.disk == Replay(s.disk, s'.updated[|s.updated|..])
    && s'.manifest.files == FilesAfter(s.manifest.files, s'.updated[|s.updated|..])
    && Tracks(s, s', s'.updated[|s.updated|..])
    && forall i | |s.updated| <= i < |s'.updated| :: s'.updated[i].rel in r && OfferedEntry(server, l, s'.updated[i])
  }

  lemma {:induction false} ReplayAppend(disk: Disk, a: seq<Stored>, b: seq<Stored>)
    ensures Replay(disk, a + b) == Replay(Replay(disk, a), b)
    decreases |b|
  {
    if b == [] {
      assert a + b == a;
    } else {
      assert (a + b)[..|a + b| - 1] == a + b[..|b| - 1];
      ReplayAppend(disk, a, b[..|b| - 1]);
    }
  }

  lemma LoggedTransitive(r: set<Path>, l: set<Item>, server: Server, s: Site, t: Site, u: Site)
    requires Logged(r, l, server, s, t) && Logged(r, l, server, t, u)
    ensures Logged(r, l, server, s, u)
  {
    var n, a, b := |t.updated|, t.updated[|s.updated|..], u.updated[|t.updated|..];
    assert u.updated[..n] == t.updated;
    assert u.updated[|s.updated|..] == a + b;
    ReplayAppend(s.disk, a, b);
    FilesAfterAppend(s.manifest.files, a, b);
    assert Tracks(s, u, a + b) by {
      TracksTransitive(s, t, u, a, b);
    }
    assert forall i | |s.updated| <= i < n :: u.updated[i] == t.updated[i];
  }

  lemma RecordLogged(r: set<Path>, l: set<Item>, server: Server, s: Site, source: Source, rel: Path, data: Bytes)
    requires rel in r && Offered(server, l, source, rel, data)
    ensures Logged(r, l, server, s, Record(s, source, rel, data))
  {
  }

  lemma {:induction false} ConvergeLogged(r: set<Path>, l: set<Item>, server: Server, s: Site, always: bool, items: seq<Item>)
    requires Rels(items) <= r && ItemSet(items) <= l
    ensures Logged(r, l, server, s, Converge(server, s, always, items).site)
    decreases |items|
  {
    if items == [] {
    } else {
      RelsTail(items);
      assert items[0] in ItemSet(items);
      var name := RelativeName(items[0].url, items[0].subdir);
      if name.Ok? {
        var rel := name.value;
        if always || !IsCurrent(s, rel) {
          var step := FetchInto(server, s, items[0].url, rel);
          if step.Went? {
            RecordLogged(r, l, server, s, FromUrl(items[0].url), rel, Fetch(server, items[0].url).value);
            ConvergeLogged(r, l, server, step.site, always, items[1..]);
            LoggedTransitive(r, l, server, s, step.site, Converge(server, s, always, items).site);
          }
        } else {
          ConvergeLogged(r, l, server, s, always, items[1..]);
        }
      }
    }
  }

  lemma {:induction false} RecordAllLogged(r: set<Path>, l: set<Item>, server: Server, s: Site, members: seq<Member>)
    requires forall i | 0 <= i < |members| :: SaftRel(members[i].path) in r && Offered(server, l, FromZip(members[i].path), SaftRel(members[i].path), members[i].data)
    ensures Logged(r, l, server, s, RecordAll(s, members))
    decreases |members|
  {
    if members == [] {
    } else {
      var m := members[0];
      var s1 := Record(s, FromZip(m.path), SaftRel(m.path), m.data);
      RecordLogged(r, l, server, s, FromZip(m.path), SaftRel(m.path), m.data);
      assert forall i | 0 <= i < |members[1..]| :: members[1..][i] == members[i + 1];
      RecordAllLogged(r, l, server, s1, members[1..]);
      LoggedTransitive(r, l, server, s, s1, RecordAll(s, members));
    }
  }

  lemma InstallSaftLogged(r: set<Path>, l: set<Item>, feed: Feed, server: Server, s: Site)
    requires TargetRels(feed, SAFT_FORM) <= r
    ensures Logged(r, l, server, s, InstallSaft(server, s).site)
  {
    if !SaftCurrent(s) && InstallSaft(server, s).Went? {
      var members := server.saft.value.members;
      var e := Extracted(members);
      ExtractedAreWanted(members);
      forall i | 0 <= i < |e| ensures SaftRel(e[i].path) in r && Offered(server, l, FromZip(e[i].path), SaftRel(e[i].path), e[i].data) {
        WantedIsTarget(feed, e[i].path);
        assert FirstNamed(members, e[i].path, e[i].data);
      }
      RecordAllLogged(r, l, server, s, e);
    }
  }

  lemma InstallFormLogged(r: set<Path>, l: set<Item>, feed: Feed, server: Server, s: Site, form: string, explicit: bool)
    requires TargetRels(feed, form) <= r && FormListing(feed, form) <= l
    ensures Logged(r, l, server, s, InstallForm(server, feed, s, form, explicit).site)
  {
    if form == SAFT_FORM {
      if explicit {
        InstallSaftLogged(r, l, feed, server, s);
      }
    } else if form in feed.forms {
      ConvergeLogged(r, l, server, s, true, FormItems(feed.forms[form]));
    }
  }

  lemma {:induction false} InstallFormsLogged(r: set<Path>, l: set<Item>, feed: Feed, server: Server, s: Site, targets: seq<string>, explicit: bool)
    requires AllTargetRels(feed, targets) <= r && FormListings(feed, targets) <= l
    ensures Logged(r, l, server, s, InstallForms(server, feed, s, targets, explicit).site)
    decreases |targets|
  {
    if targets == [] {
    } else {
      var step := InstallForm(server, feed, s, targets[0], explicit);
      InstallFormLogged(r, l, feed, server, s, targets[0], explicit);
      if step.Went? {
        InstallFormsLogged(r, l, feed, server, step.site, targets[1..], explicit);
        LoggedTransitive(r, l, server, s, step.site, InstallForms(server, feed, s, targets, explicit).site);
      }
    }
  }

  /** Any run, completed or raised, only stores delivered bytes under its own paths. */
  lemma InstallLogged(server: Server, feed: Feed, disk: Disk, saved: Option<Manifest>, targets: seq<string>, explicit: bool)
    ensures Logged(Touched(feed, targets), Listing(feed, targets), server, Opened(disk, saved), Install(server, feed, disk, saved, targets, explicit).site)
  {
    var r, l := Touched(feed, targets), Listing(feed, targets);
    var s := Opened(disk, saved);
    var base := InstallBase(server, feed, disk, saved);
    if feed.rootJars != [] && feed.libJars != [] {
      ConvergeLogged(r, l, server, s, s.manifest.coreVersion != feed.coreVersion, BaseItems(feed));
      if base.Went? {
        InstallFormsLogged(r, l, feed, server, base.site, targets, explicit);
        LoggedTransitive(r, l, server, s, base.site, InstallForms(server, feed, base.site, targets, explicit).site);
      }
    }
  }

  // ---- What a completed pass reached -------------------------------------------------------

  /** `p` was stored between `s` and `s'`. */
  ghost predicate StoredSince(s: Site, s': Site, p: Path) {
    exists k :: |s.updated| <= k < |s'.updated| && s'.updated[k].rel == p
  }

  /** `p` was current at the start, or was stored since. */
  ghost predicate Reached(s: Site, s': Site, p: Path) {
    IsCurrent(s, p) || StoredSince(s, s', p)
  }

  ghost predicate AllReached(s: Site, s': Site, items: seq<Item>) {
    forall i | 0 <= i < |items| ::
      var n := RelativeName(items[i].url, items[i].subdir); n.Ok? && Reached(s, s', n.value)
  }

  /** What the run's log says is current at its end. */
  lemma CurrentExactly(r: set<Path>, l: set<Item>, server: Server, s: Site, s': Site, p: Path)
    requires Logged(r, l, server, s, s')
    ensures IsCurrent(s', p) <==> Reached(s, s', p) && !Clobbered(s'.updated[|s.updated|..], p)
  {
    var log := s'.updated[|s.updated|..];
    CurrentAfterExactly(IsCurrent(s, p), log, p);
    assert StoredIn(log, p) <==> StoredSince(s, s', p) by {
      assert forall i | 0 <= i < |log| :: log[i] == s'.updated[|s.updated| + i];
      assert forall k | |s.updated| <= k < |s'.updated| :: s'.updated[k] == log[k - |s.updated|];
    }
  }

  lemma ReachedTransitive(r: set<Path>, l: set<Item>, server: Server, s: Site, t: Site, u: Site, p: Path)
    requires Logged(r, l, server, s, t) && t.updated <= u.updated
    requires Reached(t, u, p) || Reached(s, t, p)
    ensures Reached(s, u, p)
  {
    CurrentExactly(r, l, server, s, t, p);
    assert forall k | 0 <= k < |t.updated| :: u.updated[k] == t.updated[k];
  }

  lemma AllReachedTransitive(r: set<Path>, l: set<Item>, server: Server, s: Site, t: Site, u: Site, items: seq<Item>)
    requires Logged(r, l, server, s, t) && t.updated <= u.updated
    requires AllReached(t, u, items) || AllReached(s, t, items)
    ensures AllReached(s, u, items)
  {
    forall i | 0 <= i < |items|
      ensures var n := RelativeName(items[i].url, items[i].subdir); n.Ok? && Reached(s, u, n.value)
    {
      ReachedTransitive(r, l, server, s, t, u, RelativeName(items[i].url, items[i].subdir).value);
    }
  }

  lemma {:induction false} ConvergeReaches(server: Server, s: Site, always: bool, items: seq<Item>)
    requires Converge(server, s, always, items).Went?
    ensures AllReached(s, Converge(server, s, always, items).site, items)
    decreases |items|
  {
    if items == [] {
    } else {
      var rel, rest := RelativeName(items[0].url, items[0].subdir).value, items[1..];
      var s1 := if always || !IsCurrent(s, rel) then FetchInto(server, s, items[0].url, rel).site else s;
      var end := Converge(server, s1, always, rest).site;
      ConvergeReaches(server, s1, always, rest);
      ConvergeLogged(Rels(items), ItemSet(items), server, s, always, items[..1]);
      FirstStep(server, s, always, items);
      assert s1.updated <= end.updated by {
        ConvergeLogged(Rels(rest), ItemSet(rest), server, s1, always, rest);
      }
      assert Reached(s, s1, rel) by {
        assert s1 != s ==> s1.updated[|s.updated|].rel == rel;
      }
      ReachedTransitive(Rels(items), ItemSet(items), server, s, s1, end, rel);
      AllReachedTransitive(Rels(items), ItemSet(items), server, s, s1, end, rest);
      assert forall i | 0 < i < |items| :: items[i] == rest[i - 1];
    }
  }

  /** The first file's turn, as a pass of its own. */
  lemma FirstStep(server: Server, s: Site, always: bool, items: seq<Item>)
    requires items != [] && Converge(server, s, always, items).Went?
    ensures var rel := RelativeName(items[0].url, items[0].subdir).value;
            Converge(server, s, always, items[..1]).site
            == if always || !IsCurrent(s, rel) then FetchInto(server, s, items[0].url, rel).site else s
    ensures Rels(items[..1]) <= Rels(items) && ItemSet(items[..1]) <= ItemSet(items)
  {
  }

  // ---- The SAF-T form ----------------------------------------------------------------------

  predicate ZipHolds(server: Server, name: string) {
    server.saft.Some? && Holds(Extracted(server.saft.value.members), name)
  }

  /** What the archive's files add to the log. */
  function SaftLog(members: seq<Member>): seq<Stored> {
    seq(|members|, i requires 0 <= i < |members| => Stored(SaftRel(members[i].path), members[i].data, FromZip(members[i].path)))
  }

  lemma {:induction false} RecordAllAppends(s: Site, members: seq<Member>)
    ensures RecordAll(s, members).updated == s.updated + SaftLog(members)
    decreases |members|
  {
    if members == [] {
    } else {
      var m := members[0];
      RecordAllAppends(Record(s, FromZip(m.path), SaftRel(m.path), m.data), members[1..]);
      assert SaftLog(members) == [Stored(SaftRel(m.path), m.data, FromZip(m.path))] + SaftLog(members[1..]);
    }
  }

  /** A name is stored exactly when the archive's wanted members include it. */
  lemma SaftStored(s: Site, members: seq<Member>, name: string)
    ensures s.updated <= RecordAll(s, members).updated
    ensures StoredSince(s, RecordAll(s, members), SaftRel(name)) <==> Holds(members, name)
  {
    RecordAllAppends(s, members);
    SaftRelInjective();
    var end := RecordAll(s, members).updated;
    assert forall i | 0 <= i < |members| :: end[|s.updated| + i].rel == SaftRel(members[i].path);
    assert forall k | |s.updated| <= k < |end| :: end[k].rel == SaftRel(members[k - |s.updated|].path);
  }

  /** No temporary is called like an archive file. */
  lemma SaftNotPart(name: string, q: Path)
    requires Wanted(name)
    ensures PartName(q) != SaftRel(name)
  {
    var p := SaftRel(name);
    assert PartName(q)[|PartName(q)| - 1] == 't' && PartName(q)[|PartName(q)| - 2] == 'r';
    assert p[|p| - 1] == name[|name| - 1] && p[|p| - 2] == name[|name| - 2];
  }

  /** A completed D406T install is settled exactly when its viewer jar was current or is in
      the archive; the code itself insists on the validator jar only. */
  lemma SaftSettlesExactly(server: Server, s: Site)
    requires InstallSaft(server, s).Went?
    ensures SaftCurrent(InstallSaft(server, s).site) <==> IsCurrent(s, SaftRel(SAFT_PDF)) || ZipHolds(server, SAFT_PDF)
  {
    if !SaftCurrent(s) {
      var feed, e, end := Feed("", [], [], [], map[]), Extracted(server.saft.value.members), InstallSaft(server, s).site;
      var r := TargetRels(feed, SAFT_FORM);
      InstallSaftLogged(r, {}, feed, server, s);
      assert end.updated == RecordAll(s, e).updated;
      forall name | name in {SAFT_VALIDATOR, SAFT_PDF}
        ensures IsCurrent(end, SaftRel(name)) <==> IsCurrent(s, SaftRel(name)) || Holds(e, name)
      {
        CurrentExactly(r, {}, server, s, end, SaftRel(name));
        SaftStored(s, e, name);
        forall i | 0 <= i < |end.updated[|s.updated|..]| ensures PartName(end.updated[|s.updated|..][i].rel) != SaftRel(name) {
          SaftNotPart(name, end.updated[|s.updated|..][i].rel);
        }
      }
    }
  }

  /** Asked for D406T again, the code downloads the archive again unless both jars are
      current. */
  lemma SaftAgainExactly(later: Server, s: Site)
    ensures InstallSaft(later, s).Went? && InstallSaft(later, s).site.updated == s.updated <==> SaftCurrent(s)
  {
    if !SaftCurrent(s) && InstallSaft(later, s).Went? {
      RecordAllAppends(s, Extracted(later.saft.value.members));
    }
  }

  // ---- Forms -------------------------------------------------------------------------------

  /** What a form's turn achieves, before anything clobbers it. */
  ghost predicate FormDone(server: Server, feed: Feed, s: Site, s': Site, form: string, explicit: bool) {
    if form == SAFT_FORM then
      explicit ==>
        && SAFT_FORM in s'.manifest.forms && Reached(s, s', SaftRel(SAFT_VALIDATOR))
        && (ZipHolds(server, SAFT_PDF) ==> Reached(s, s', SaftRel(SAFT_PDF)))
    else if form in feed.forms then
      && FirstBadName(FormItems(feed.forms[form])) == None
      && form in s'.manifest.forms && s'.manifest.forms[form] == feed.forms[form].version
      && AllReached(s, s', FormItems(feed.forms[form]))
    else !explicit
  }

  /** Recorded versions of the feed, and D406T, stay recorded. */
  ghost predicate VersionsKept(feed: Feed, s: Site, s': Site) {
    && (SAFT_FORM in s.manifest.forms ==> SAFT_FORM in s'.manifest.forms)
    && forall f | f in feed.forms && f != SAFT_FORM && f in s.manifest.forms && s.manifest.forms[f] == feed.forms[f].version ::
         f in s'.manifest.forms && s'.manifest.forms[f] == feed.forms[f].version
  }

  /** A form's turn records no other form's version. */
  lemma OnlyOwnForm(server: Server, feed: Feed, s: Site, form: string, explicit: bool)
    ensures var forms, forms' := s.manifest.forms, InstallForm(server, feed, s, form, explicit).site.manifest.forms;
            && forms'.Keys <= forms.Keys + {form}
            && forall f | f != form :: (f in forms <==> f in forms') && (f in forms ==> forms'[f] == forms[f])
  {
    if form == SAFT_FORM {
      if explicit && !SaftCurrent(s) && InstallSaft(server, s).Went? {
        RecordAllForms(s, Extracted(server.saft.value.members));
      }
    } else if form in feed.forms {
      ConvergeForms(server, s, true, FormItems(feed.forms[form]));
    }
  }

  lemma {:induction false} ConvergeForms(server: Server, s: Site, always: bool, items: seq<Item>)
    ensures Converge(server, s, always, items).site.manifest.forms == s.manifest.forms
    decreases |items|
  {
    if items == [] {
    } else {
      var name := RelativeName(items[0].url, items[0].subdir);
      if name.Ok? {
        ConvergeForms(server, FetchInto(server, s, items[0].url, name.value).site, always, items[1..]);
        ConvergeForms(server, s, always, items[1..]);
      }
    }
  }

  lemma {:induction false} RecordAllForms(s: Site, members: seq<Member>)
    ensures RecordAll(s, members).manifest.forms == s.manifest.forms
    decreases |members|
  {
    if members == [] {
    } else {
      RecordAllForms(Record(s, FromZip(members[0].path), SaftRel(members[0].path), members[0].data), members[1..]);
    }
  }

  lemma InstallFormKeepsVersions(server: Server, feed: Feed, s: Site, form: string, explicit: bool)
    requires InstallForm(server, feed, s, form, explicit).Went?
    ensures VersionsKept(feed, s, InstallForm(server, feed, s, form, explicit).site)
  {
    OnlyOwnForm(server, feed, s, form, explicit);
    if form == SAFT_FORM && explicit && !SaftCurrent(s) {
      RecordAllForms(s, Extracted(server.saft.value.members));
    }
  }

  lemma {:induction false} AllNamed(items: seq<Item>)
    ensures FirstBadName(items) == None <==> forall i | 0 <= i < |items| :: RelativeName(items[i].url, items[i].subdir).Ok?
  {
    if items == [] {
    } else {
      AllNamed(items[1..]);
      assert forall i | 0 <= i < |items[1..]| :: items[1..][i] == items[i + 1];
      assert forall i | 0 < i < |items| :: items[i] == items[1..][i - 1];
    }
  }

  lemma InstallFormDone(server: Server, feed: Feed, s: Site, form: string, explicit: bool)
    requires InstallForm(server, feed, s, form, explicit).Went?
    ensures FormDone(server, feed, s, InstallForm(server, feed, s, form, explicit).site, form, explicit)
  {
    var s' := InstallForm(server, feed, s, form, explicit).site;
    if form == SAFT_FORM {
      if explicit && !SaftCurrent(s) {
        var e := Extracted(server.saft.value.members);
        SaftStored(s, e, SAFT_VALIDATOR);
        SaftStored(s, e, SAFT_PDF);
        assert s'.updated == RecordAll(s, e).updated;
      }
    } else if form in feed.forms {
      var items := FormItems(feed.forms[form]);
      AllNamed(items);
      if !FormCurrent(s, form, feed.forms[form]) {
        ConvergeReaches(server, s, true, items);
        assert s'.updated == Converge(server, s, true, items).site.updated;
      }
    }
  }

  lemma DonePersists(r: set<Path>, l: set<Item>, server: Server, feed: Feed, s: Site, t: Site, u: Site, form: string, explicit: bool)
    requires Logged(r, l, server, s, t) && t.updated <= u.updated
    requires FormDone(server, feed, t, u, form, explicit) || (FormDone(server, feed, s, t, form, explicit) && VersionsKept(feed, t, u))
    ensures FormDone(server, feed, s, u, form, explicit)
  {
    if form == SAFT_FORM {
      if explicit {
        ReachedTransitive(r, l, server, s, t, u, SaftRel(SAFT_VALIDATOR));
        if ZipHolds(server, SAFT_PDF) {
          ReachedTransitive(r, l, server, s, t, u, SaftRel(SAFT_PDF));
        }
      }
    } else if form in feed.forms {
      AllReachedTransitive(r, l, server, s, t, u, FormItems(feed.forms[form]));
    }
  }

  lemma {:induction false} InstallFormsDone(server: Server, feed: Feed, s: Site, targets: seq<string>, explicit: bool)
    requires InstallForms(server, feed, s, targets, explicit).Went?
    ensures var s' := InstallForms(server, feed, s, targets, explicit).site;
            && VersionsKept(feed, s, s')
            && forall i | 0 <= i < |targets| :: FormDone(server, feed, s, s', targets[i], explicit)
    decreases |targets|
  {
    if targets == [] {
    } else {
      var r, l := AllTargetRels(feed, targets), FormListings(feed, targets);
      var s1, end := InstallForm(server, feed, s, targets[0], explicit).site, InstallForms(server, feed, s, targets, explicit).site;
      InstallFormDone(server, feed, s, targets[0], explicit);
      InstallFormKeepsVersions(server, feed, s, targets[0], explicit);
      InstallFormsDone(server, feed, s1, targets[1..], explicit);
      InstallFormLogged(r, l, feed, server, s, targets[0], explicit);
      InstallFormsLogged(r, l, feed, server, s1, targets[1..], explicit);
      forall i | 0 <= i < |targets| ensures FormDone(server, feed, s, end, targets[i], explicit) {
        assert i > 0 ==> targets[i] == targets[1..][i - 1];
        DonePersists(r, l, server, feed, s, s1, end, targets[i], explicit);
      }
    }
  }

  // ---- A completed install ---------------------------------------------------------------------

  ghost predicate FormSettled(feed: Feed, s: Site, form: string, explicit: bool) {
    if form == SAFT_FORM then explicit ==> SaftCurrent(s)
    else if form in feed.forms then FirstBadName(FormItems(feed.forms[form])) == None && FormCurrent(s, form, feed.forms[form])
    else !explicit
  }

  ghost predicate Settled(feed: Feed, s: Site, targets: seq<string>, explicit: bool) {
    && feed.rootJars != [] && feed.libJars != []
    && s.manifest.coreVersion == feed.coreVersion
    && AllCurrent(s, BaseItems(feed))
    && forall i | 0 <= i < |targets| :: FormSettled(feed, s, targets[i], explicit)
  }

  /** The files a form needs. */
  function NeededBy(feed: Feed, form: string, explicit: bool): set<Path> {
    if form == SAFT_FORM then (if explicit then {SaftRel(SAFT_VALIDATOR), SaftRel(SAFT_PDF)} else {})
    else if form in feed.forms then Rels(FormItems(feed.forms[form]))
    else {}
  }

  ghost predicate Clean(log: seq<Stored>, paths: set<Path>) {
    forall p | p in paths :: !Clobbered(log, p)
  }

  lemma AllCurrentExactly(r: set<Path>, l: set<Item>, server: Server, s: Site, s': Site, items: seq<Item>)
    requires Logged(r, l, server, s, s') && AllReached(s, s', items)
    ensures AllCurrent(s', items) <==> Clean(s'.updated[|s.updated|..], Rels(items))
  {
    var log := s'.updated[|s.updated|..];
    forall i | 0 <= i < |items|
      ensures IsCurrent(s', RelativeName(items[i].url, items[i].subdir).value)
              <==> !Clobbered(log, RelativeName(items[i].url, items[i].subdir).value)
      ensures RelativeName(items[i].url, items[i].subdir).value in Rels(items)
    {
      CurrentExactly(r, l, server, s, s', RelativeName(items[i].url, items[i].subdir).value);
    }
  }

  lemma FormSettledExactly(r: set<Path>, l: set<Item>, server: Server, feed: Feed, s: Site, s': Site, form: string, explicit: bool)
    requires Logged(r, l, server, s, s') && FormDone(server, feed, s, s', form, explicit)
    ensures FormSettled(feed, s', form, explicit) <==>
            && Clean(s'.updated[|s.updated|..], NeededBy(feed, form, explicit))
            && (form == SAFT_FORM && explicit ==> Reached(s, s', SaftRel(SAFT_PDF)))
  {
    if form == SAFT_FORM {
      CurrentExactly(r, l, server, s, s', SaftRel(SAFT_VALIDATOR));
      CurrentExactly(r, l, server, s, s', SaftRel(SAFT_PDF));
    } else if form in feed.forms {
      AllCurrentExactly(r, l, server, s, s', FormItems(feed.forms[form]));
    }
  }

  /** What every completed run did, clobbered or not. */
  lemma CompletedRun(server: Server, feed: Feed, disk: Disk, saved: Option<Manifest>, targets: seq<string>, explicit: bool)
    requires Install(server, feed, disk, saved, targets, explicit).Went?
    ensures var s, end := Opened(disk, saved), Install(server, feed, disk, saved, targets, explicit).site;
            && Logged(Touched(feed, targets), Listing(feed, targets), server, s, end)
            && AllReached(s, end, BaseItems(feed))
            && (forall i | 0 <= i < |targets| :: FormDone(server, feed, s, end, targets[i], explicit))
  {
    var r, l := Touched(feed, targets), Listing(feed, targets);
    var s, end := Opened(disk, saved), Install(server, feed, disk, saved, targets, explicit).site;
    var base := InstallBase(server, feed, disk, saved).site;
    InstallLogged(server, feed, disk, saved, targets, explicit);
    InstallFormsLogged(r, l, feed, server, base, targets, explicit);
    ConvergeLogged(r, l, server, s, s.manifest.coreVersion != feed.coreVersion, BaseItems(feed));
    ConvergeReaches(server, s, s.manifest.coreVersion != feed.coreVersion, BaseItems(feed));
    AllReachedTransitive(r, l, server, s, base, end, BaseItems(feed));
    InstallFormsDone(server, feed, base, targets, explicit);
    var mid := InstallForms(server, feed, base, targets, explicit).site;
    forall i | 0 <= i < |targets| ensures FormDone(server, feed, s, end, targets[i], explicit) {
      DonePersists(r, l, server, feed, s, base, mid, targets[i], explicit);
    }
  }

  ghost predicate FormHolds(feed: Feed, s: Site, s': Site, form: string, explicit: bool) {
    && Clean(s'.updated, NeededBy(feed, form, explicit))
    && (form == SAFT_FORM && explicit ==> Reached(s, s', SaftRel(SAFT_PDF)))
  }

  /** Convergence from any disk, manifest and feed, exactly: after a completed run every
      core, config and target-form file matches its recorded hash, at the feed's versions,
      if and only if none of them was clobbered (its name taken as another file's
      temporary, and not stored again), and a named D406T has its viewer jar, found
      current or stored. */
  lemma InstallConverges(server: Server, feed: Feed, disk: Disk, saved: Option<Manifest>, targets: seq<string>, explicit: bool)
    requires Install(server, feed, disk, saved, targets, explicit).Went?
    ensures var s, end := Opened(disk, saved), Install(server, feed, disk, saved, targets, explicit).site;
            Settled(feed, end, targets, explicit) <==>
              Clean(end.updated, Rels(BaseItems(feed))) && forall i | 0 <= i < |targets| :: FormHolds(feed, s, end, targets[i], explicit)
  {
    var r, l := Touched(feed, targets), Listing(feed, targets);
    var s, end := Opened(disk, saved), Install(server, feed, disk, saved, targets, explicit).site;
    CompletedRun(server, feed, disk, saved, targets, explicit);
    assert end.updated[|s.updated|..] == end.updated;
    AllCurrentExactly(r, l, server, s, end, BaseItems(feed));
    forall i | 0 <= i < |targets|
      ensures FormSettled(feed, end, targets[i], explicit) <==> FormHolds(feed, s, end, targets[i], explicit)
    {
      FormSettledExactly(r, l, server, feed, s, end, targets[i], explicit);
    }
  }

  // ---- When nothing can be clobbered -----------------------------------------------------------

  /** No file of the run is called like another one's temporary. */
  ghost predicate Apart(r: set<Path>) {
    forall p, q | p in r && q in r :: q != PartName(p)
  }

  lemma ApartIsClean(r: set<Path>, l: set<Item>, server: Server, s: Site, s': Site, paths: set<Path>)
    requires Apart(r) && Logged(r, l, server, s, s') && paths <= r
    ensures Clean(s'.updated[|s.updated|..], paths)
  {
  }

  /** In particular every completed run converges when no listed file is called like
      another one's temporary and a named D406T has its viewer jar in the archive. */
  lemma InstallConvergesApart(server: Server, feed: Feed, disk: Disk, saved: Option<Manifest>, targets: seq<string>, explicit: bool)
    requires Install(server, feed, disk, saved, targets, explicit).Went?
    requires Apart(Touched(feed, targets)) && (SAFT_FORM in targets && explicit ==> ZipHolds(server, SAFT_PDF))
    ensures Settled(feed, Install(server, feed, disk, saved, targets, explicit).site, targets, explicit)
  {
    var r, l := Touched(feed, targets), Listing(feed, targets);
    var s, end := Opened(disk, saved), Install(server, feed, disk, saved, targets, explicit).site;
    CompletedRun(server, feed, disk, saved, targets, explicit);
    assert end.updated[|s.updated|..] == end.updated;
    ApartIsClean(r, l, server, s, end, Rels(BaseItems(feed)));
    forall i | 0 <= i < |targets| ensures FormHolds(feed, s, end, targets[i], explicit) {
      TargetRelsIn(feed, targets, i);
      ApartIsClean(r, l, server, s, end, NeededBy(feed, targets[i], explicit));
      assert FormDone(server, feed, s, end, targets[i], explicit);
    }
    InstallConverges(server, feed, disk, saved, targets, explicit);
  }
}
