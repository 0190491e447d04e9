/** Running the installer again: exactly when a run is quiet, what a crash costs, and what
    an outdated dist gets. */
module InstallerAgain {
  import opened Installer
  import opened InstallerConvergence
  import opened NameOrder
  import opened Wrappers

  // ---- A quiet run ---------------------------------------------------------------------------

  /** When everything listed is current, the pass downloads nothing. */
  lemma {:induction false} ConvergeQuiet(server: Server, s: Site, items: seq<Item>)
    requires AllCurrent(s, items)
    ensures Converge(server, s, false, items) == Went(s)
    decreases |items|
  {
    if items == [] {
    } else {
      assert RelativeName(items[0].url, items[0].subdir).Ok?;
      forall i | 0 <= i < |items[1..]| ensures items[1..][i] == items[i + 1] {
      }
      ConvergeQuiet(server, s, items[1..]);
    }
  }

  lemma {:induction false} InstallFormsQuiet(server: Server, feed: Feed, s: Site, targets: seq<string>, explicit: bool)
    requires forall i | 0 <= i < |targets| :: FormSettled(feed, s, targets[i], explicit)
    ensures var step := InstallForms(server, feed, s, targets, explicit);
            step.Went? && step.site.(current := s.current, notes := s.notes) == s
    decreases |targets|
  {
    if targets == [] {
    } else {
      assert FormSettled(feed, s, targets[0], explicit);
      var s1 := InstallForm(server, feed, s, targets[0], explicit).site;
      forall i | 0 <= i < |targets[1..]| ensures FormSettled(feed, s1, targets[1..][i], explicit) {
        assert targets[1..][i] == targets[i + 1];
        SettledCares(feed, s, s1, targets[i + 1], explicit);
      }
      InstallFormsQuiet(server, feed, s1, targets[1..], explicit);
    }
  }

  /** Being settled depends on the disk and the manifest only. */
  lemma SettledCares(feed: Feed, s: Site, t: Site, form: string, explicit: bool)
    requires FormSettled(feed, s, form, explicit) && s.disk == t.disk && s.manifest == t.manifest
    ensures FormSettled(feed, t, form, explicit)
  {
  }

  lemma ConvergeUpdates(server: Server, s: Site, always: bool, items: seq<Item>)
    ensures s.updated <= Converge(server, s, always, items).site.updated
  {
    ConvergeLogged(Rels(items), ItemSet(items), server, s, always, items);
  }

  lemma FormUpdates(server: Server, feed: Feed, s: Site, form: string, explicit: bool)
    ensures s.updated <= InstallForm(server, feed, s, form, explicit).site.updated
  {
    InstallFormLogged(TargetRels(feed, form), FormListing(feed, form), feed, server, s, form, explicit);
  }

  lemma FormsUpdate(server: Server, feed: Feed, s: Site, targets: seq<string>, explicit: bool)
    ensures s.updated <= InstallForms(server, feed, s, targets, explicit).site.updated
  {
    InstallFormsLogged(AllTargetRels(feed, targets), FormListings(feed, targets), feed, server, s, targets, explicit);
  }

  /** A pass that went through and stored nothing found everything current. */
  lemma {:induction false} QuietPass(server: Server, s: Site, always: bool, items: seq<Item>)
    requires Converge(server, s, always, items).Went? && Converge(server, s, always, items).site.updated == s.updated
    ensures Converge(server, s, always, items).site == s && AllCurrent(s, items) && (always ==> items == [])
    decreases |items|
  {
    if items == [] {
    } else {
      var rel, rest := RelativeName(items[0].url, items[0].subdir).value, items[1..];
      if always || !IsCurrent(s, rel) {
        var s1 := FetchInto(server, s, items[0].url, rel).site;
        assert |s1.updated| > |s.updated|;
        ConvergeUpdates(server, s1, always, rest);
        assert false;
      } else {
        QuietPass(server, s, always, rest);
        assert forall i | 0 < i < |items| :: items[i] == rest[i - 1];
      }
    }
  }

  lemma QuietForm(server: Server, feed: Feed, s: Site, form: string, explicit: bool)
    requires InstallForm(server, feed, s, form, explicit).Went?
    requires InstallForm(server, feed, s, form, explicit).site.updated == s.updated
    ensures FormSettled(feed, s, form, explicit)
    ensures var s' := InstallForm(server, feed, s, form, explicit).site; s'.disk == s.disk && s'.manifest == s.manifest
  {
    if form == SAFT_FORM {
      if explicit {
        SaftAgainExactly(server, s);
      }
    } else if form in feed.forms {
      var items := FormItems(feed.forms[form]);
      assert items[0].url == feed.forms[form].validator;
      if !FormCurrent(s, form, feed.forms[form]) {
        QuietPass(server, s, true, items);
      }
    }
  }

  lemma {:induction false} QuietForms(server: Server, feed: Feed, s: Site, targets: seq<string>, explicit: bool)
    requires InstallForms(server, feed, s, targets, explicit).Went?
    requires InstallForms(server, feed, s, targets, explicit).site.updated == s.updated
    ensures forall i | 0 <= i < |targets| :: FormSettled(feed, s, targets[i], explicit)
    ensures var s' := InstallForms(server, feed, s, targets, explicit).site; s'.disk == s.disk && s'.manifest == s.manifest
    decreases |targets|
  {
    if targets == [] {
    } else {
      var s1, rest := InstallForm(server, feed, s, targets[0], explicit).site, targets[1..];
      FormUpdates(server, feed, s, targets[0], explicit);
      FormsUpdate(server, feed, s1, rest, explicit);
      QuietForm(server, feed, s, targets[0], explicit);
      QuietForms(server, feed, s1, rest, explicit);
      forall i | 0 <= i < |targets| ensures FormSettled(feed, s, targets[i], explicit) {
        if i > 0 {
          assert targets[i] == rest[i - 1];
          SettledCares(feed, s1, s, targets[i], explicit);
        }
      }
    }
  }

  /** A run goes through and stores nothing. */
  predicate Quiet(step: Step) {
    step.Went? && step.site.updated == []
  }

  /** A run over a settled dist downloads nothing, installs nothing and changes neither
      the disk nor the manifest, whatever the network would have answered. */
  lemma SettledRunIsQuiet(server: Server, feed: Feed, s: Site, targets: seq<string>, explicit: bool)
    requires Settled(feed, s, targets, explicit)
    ensures var again := Install(server, feed, s.disk, Some(s.manifest), targets, explicit);
            && Quiet(again) && again.site.installed == map[]
            && again.site.disk == s.disk && again.site.manifest == s.manifest
  {
    var o := Opened(s.disk, Some(s.manifest));
    assert forall p :: IsCurrent(s, p) <==> IsCurrent(o, p);
    ConvergeQuiet(server, o, BaseItems(feed));
    forall i | 0 <= i < |targets| ensures FormSettled(feed, o, targets[i], explicit) {
      SettledCares(feed, s, o, targets[i], explicit);
    }
    InstallFormsQuiet(server, feed, o, targets, explicit);
  }

  /** Exactly then: a run over any dist is quiet if and only if the dist is settled for it,
      whatever the network would have answered. */
  lemma QuietExactly(server: Server, feed: Feed, s: Site, targets: seq<string>, explicit: bool)
    ensures Quiet(Install(server, feed, s.disk, Some(s.manifest), targets, explicit)) <==> Settled(feed, s, targets, explicit)
  {
    if Settled(feed, s, targets, explicit) {
      SettledRunIsQuiet(server, feed, s, targets, explicit);
    }
    if Quiet(Install(server, feed, s.disk, Some(s.manifest), targets, explicit)) {
      var o := Opened(s.disk, Some(s.manifest));
      var changed, base := o.manifest.coreVersion != feed.coreVersion, InstallBase(server, feed, s.disk, Some(s.manifest)).site;
      ConvergeUpdates(server, o, changed, BaseItems(feed));
      FormsUpdate(server, feed, base, targets, explicit);
      QuietPass(server, o, changed, BaseItems(feed));
      assert BaseItems(feed)[0].url == feed.rootJars[0];
      QuietForms(server, feed, o, targets, explicit);
      assert forall p :: IsCurrent(s, p) <==> IsCurrent(o, p);
      forall i | 0 <= i < |targets| ensures FormSettled(feed, s, targets[i], explicit) {
        SettledCares(feed, o, s, targets[i], explicit);
      }
    }
  }

  // ---- The second run --------------------------------------------------------------------------

  /** The run's files all held: none was clobbered, and a named D406T has its viewer jar. */
  ghost predicate Holding(feed: Feed, s: Site, end: Site, targets: seq<string>, explicit: bool) {
    && Clean(end.updated, Rels(BaseItems(feed)))
    && forall i | 0 <= i < |targets| :: FormHolds(feed, s, end, targets[i], explicit)
  }

  /** After any completed run, the same run again is quiet if and only if its files held. */
  lemma SecondRun(server: Server, later: Server, feed: Feed, disk: Disk, saved: Option<Manifest>, targets: seq<string>, explicit: bool)
    requires Install(server, feed, disk, saved, targets, explicit).Went?
    ensures var end := Install(server, feed, disk, saved, targets, explicit).site;
            Quiet(Install(later, feed, end.disk, Some(end.manifest), targets, explicit))
            <==> Holding(feed, Opened(disk, saved), end, targets, explicit)
  {
    InstallConverges(server, feed, disk, saved, targets, explicit);
    QuietExactly(later, feed, Install(server, feed, disk, saved, targets, explicit).site, targets, explicit);
  }

  /** In particular when no listed file is called like another one's temporary and a named
      D406T has its viewer jar in the archive. */
  lemma SecondRunApart(server: Server, later: Server, feed: Feed, disk: Disk, saved: Option<Manifest>, targets: seq<string>, explicit: bool)
    requires Install(server, feed, disk, saved, targets, explicit).Went?
    requires Apart(Touched(feed, targets)) && (SAFT_FORM in targets && explicit ==> ZipHolds(server, SAFT_PDF))
    ensures var end := Install(server, feed, disk, saved, targets, explicit).site;
            var again := Install(later, feed, end.disk, Some(end.manifest), targets, explicit);
            Quiet(again) && again.site.disk == end.disk && again.site.manifest == end.manifest
  {
    InstallConvergesApart(server, feed, disk, saved, targets, explicit);
    SettledRunIsQuiet(later, feed, Install(server, feed, disk, saved, targets, explicit).site, targets, explicit);
  }

  // ---- The second bare run ---------------------------------------------------------------------

  /** No target form ships a `<X>Validator.jar` of another form that the feed could install. */
  ghost predicate BringsNoForm(feed: Feed, targets: seq<string>) {
    forall p | p in AllTargetRels(feed, targets) && IsValidatorJar(p) ::
      var form := FormOfJar(p); form in Elements(targets) || form == SAFT_FORM || form !in feed.forms
  }

  lemma {:induction false} ReplayDomain(disk: Disk, log: seq<Stored>, p: Path)
    ensures p in Replay(disk, log) ==> p in disk || exists i :: 0 <= i < |log| && log[i].rel == p
  {
    if log == [] {
    } else {
      var front := log[..|log| - 1];
      ReplayDomain(disk, front, p);
      WriteEffect(Replay(disk, front), log[|log| - 1].rel, log[|log| - 1].data);
      if exists i :: 0 <= i < |front| && front[i].rel == p {
        var i :| 0 <= i < |front| && front[i].rel == p;
        assert log[i].rel == p;
      }
    }
  }

  lemma {:induction false} FormsStayTargets(server: Server, feed: Feed, s: Site, targets: seq<string>, explicit: bool)
    ensures InstallForms(server, feed, s, targets, explicit).site.manifest.forms.Keys <= s.manifest.forms.Keys + Elements(targets)
    decreases |targets|
  {
    if targets == [] {
    } else {
      var step := InstallForm(server, feed, s, targets[0], explicit);
      OnlyOwnForm(server, feed, s, targets[0], explicit);
      assert targets[0] in Elements(targets);
      if step.Went? {
        FormsStayTargets(server, feed, step.site, targets[1..], explicit);
        assert Elements(targets[1..]) <= Elements(targets) by {
          forall i | 0 <= i < |targets[1..]| ensures targets[1..][i] == targets[i + 1] {
          }
        }
      }
    }
  }

  /** The next run's targets are this run's, or forms it would only note. */
  lemma ScanAddsNoForm(server: Server, feed: Feed, base: Site, targets: seq<string>, form: string)
    requires BringsNoForm(feed, targets) && Elements(targets) == DefaultTargets(base)
    requires var s := InstallForms(server, feed, base, targets, false).site;
             form in DefaultTargets(s)
    ensures form in Elements(targets) || form == SAFT_FORM || form !in feed.forms
  {
    var s := InstallForms(server, feed, base, targets, false).site;
    FormsStayTargets(server, feed, base, targets, false);
    if form in ScannedForms(s.disk) {
      var p :| p in s.disk && IsValidatorJar(p) && FormOfJar(p) == form;
      ScanGrows(server, feed, base, targets, p);
      assert p in base.disk ==> form in ScannedForms(base.disk);
    }
  }

  lemma ScanGrows(server: Server, feed: Feed, base: Site, targets: seq<string>, p: Path)
    requires p in InstallForms(server, feed, base, targets, false).site.disk
    ensures p in base.disk || p in AllTargetRels(feed, targets)
  {
    InstallFormsLogged(AllTargetRels(feed, targets), FormListings(feed, targets), feed, server, base, targets, false);
    var s := InstallForms(server, feed, base, targets, false).site;
    var log := s.updated[|base.updated|..];
    ReplayDomain(base.disk, log, p);
    assert forall i | 0 <= i < |log| :: log[i] == s.updated[|base.updated| + i];
  }

  /** No temporary is called like a validator jar. */
  lemma JarNotPart(p: Path, q: Path)
    requires IsValidatorJar(p)
    ensures PartName(q) != p
  {
    assert PartName(q)[|PartName(q)| - 2] == 'r';
    assert p[|p| - 2] == p[|p| - |VALIDATOR_SUFFIX|..][|VALIDATOR_SUFFIX| - 2] == 'a';
  }

  /** A validator jar that was stored or current at the start is on the disk at the end. */
  lemma JarStays(r: set<Path>, l: set<Item>, server: Server, s: Site, s': Site, p: Path)
    requires Logged(r, l, server, s, s') && IsValidatorJar(p) && (Reached(s, s', p) || p in s.disk)
    ensures p in s'.disk
  {
    var log := s'.updated[|s.updated|..];
    forall i | 0 <= i < |log| ensures PartName(log[i].rel) != p {
      JarNotPart(p, log[i].rel);
    }
    assert forall k | |s.updated| <= k < |s'.updated| :: s'.updated[k] == log[k - |s.updated|];
    ReplayKeeps(s.disk, log, p);
  }

  lemma {:induction false} ReplayKeeps(disk: Disk, log: seq<Stored>, p: Path)
    requires forall i | 0 <= i < |log| :: PartName(log[i].rel) != p
    requires p in disk || StoredIn(log, p)
    ensures p in Replay(disk, log)
  {
    if log == [] {
    } else {
      var front, last := log[..|log| - 1], log[|log| - 1];
      WriteEffect(Replay(disk, front), last.rel, last.data);
      if last.rel != p {
        assert forall i | 0 <= i < |front| :: front[i] == log[i];
        if StoredIn(log, p) {
          var i :| 0 <= i < |log| && log[i].rel == p;
          assert front[i].rel == p;
        }
        ReplayKeeps(disk, front, p);
      }
    }
  }

  lemma SaftJar(p: Path)
    requires p in {SaftRel(SAFT_VALIDATOR), SaftRel(SAFT_PDF), SaftRel(SAFT_HISTORY)} && IsValidatorJar(p)
    ensures FormOfJar(p) == SAFT_FORM
  {
    var name := if p == SaftRel(SAFT_VALIDATOR) then SAFT_VALIDATOR else if p == SaftRel(SAFT_PDF) then SAFT_PDF else SAFT_HISTORY;
    assert p[4..] == name;
    assert p[|p| - |VALIDATOR_SUFFIX|..] == name[|name| - |VALIDATOR_SUFFIX|..];
    assert SAFT_VALIDATOR[..5] == SAFT_FORM;
  }

  lemma {:induction false} RelOfTarget(feed: Feed, targets: seq<string>, p: Path) returns (i: nat)
    requires p in AllTargetRels(feed, targets)
    ensures i < |targets| && p in TargetRels(feed, targets[i])
  {
    if p in TargetRels(feed, targets[0]) {
      i := 0;
    } else {
      var j := RelOfTarget(feed, targets[1..], p);
      i := j + 1;
    }
  }

  /** The scan after a run finds every form it found before, and every form whose
      validator jar a target form of the feed ships. */
  lemma ScanFinds(server: Server, feed: Feed, disk: Disk, saved: Option<Manifest>, targets: seq<string>, p: Path)
    requires Install(server, feed, disk, saved, targets, false).Went? && IsValidatorJar(p)
    requires p in InstallBase(server, feed, disk, saved).site.disk || (p in AllTargetRels(feed, targets) && FormOfJar(p) != SAFT_FORM)
    ensures FormOfJar(p) in ScannedForms(Install(server, feed, disk, saved, targets, false).site.disk)
  {
    var base, end := InstallBase(server, feed, disk, saved).site, Install(server, feed, disk, saved, targets, false).site;
    var r, l := AllTargetRels(feed, targets), FormListings(feed, targets);
    var mid := InstallForms(server, feed, base, targets, false).site;
    InstallFormsLogged(r, l, feed, server, base, targets, false);
    if p !in base.disk {
      var i := RelOfTarget(feed, targets, p);
      InstallFormsDone(server, feed, base, targets, false);
      assert FormDone(server, feed, base, mid, targets[i], false);
      if targets[i] == SAFT_FORM {
        SaftJar(p);
      } else {
        assert p in Rels(FormItems(feed.forms[targets[i]]));
        assert Reached(base, mid, p);
      }
    }
    JarStays(r, l, server, base, mid, p);
  }

  /** The next bare run's targets include this one's. */
  lemma TargetsStay(server: Server, feed: Feed, disk: Disk, saved: Option<Manifest>, targets: seq<string>, form: string)
    requires Install(server, feed, disk, saved, targets, false).Went?
    requires RightTargets(InstallBase(server, feed, disk, saved).site, targets, false) && form in Elements(targets)
    ensures form in DefaultTargets(Install(server, feed, disk, saved, targets, false).site)
  {
    var base := InstallBase(server, feed, disk, saved).site;
    if form in ScannedForms(base.disk) {
      var p :| p in base.disk && IsValidatorJar(p) && FormOfJar(p) == form;
      ScanFinds(server, feed, disk, saved, targets, p);
    } else if form in base.manifest.forms {
      FormsKeepKeys(server, feed, base, targets, false);
    }
  }

  lemma {:induction false} FormsKeepKeys(server: Server, feed: Feed, s: Site, targets: seq<string>, explicit: bool)
    ensures s.manifest.forms.Keys <= InstallForms(server, feed, s, targets, explicit).site.manifest.forms.Keys
    decreases |targets|
  {
    if targets == [] {
    } else {
      FormKeepsKeys(server, feed, s, targets[0], explicit);
      FormsKeepKeys(server, feed, InstallForm(server, feed, s, targets[0], explicit).site, targets[1..], explicit);
    }
  }

  lemma FormKeepsKeys(server: Server, feed: Feed, s: Site, form: string, explicit: bool)
    ensures s.manifest.forms.Keys <= InstallForm(server, feed, s, form, explicit).site.manifest.forms.Keys
  {
    if form == SAFT_FORM {
      if explicit && !SaftCurrent(s) && InstallSaft(server, s).Went? {
        RecordAllForms(s, Extracted(server.saft.value.members));
      }
    } else if form in feed.forms {
      ConvergeForms(server, s, true, FormItems(feed.forms[form]));
    }
  }

  /** A second bare install, whose targets are computed afresh from the manifest and the
      `lib/` scan, is quiet if and only if the first one's files held and its forms brought
      no further form in. */
  lemma SecondBareRun(server: Server, later: Server, feed: Feed, disk: Disk, saved: Option<Manifest>, targets: seq<string>, targets': seq<string>)
    requires Install(server, feed, disk, saved, targets, false).Went?
    requires RightTargets(InstallBase(server, feed, disk, saved).site, targets, false)
    requires var s := Install(server, feed, disk, saved, targets, false).site;
             RightTargets(InstallBase(later, feed, s.disk, Some(s.manifest)).site, targets', false)
    ensures var s := Install(server, feed, disk, saved, targets, false).site;
            Quiet(Install(later, feed, s.disk, Some(s.manifest), targets', false))
            <==> Holding(feed, Opened(disk, saved), s, targets, false) && BringsNoForm(feed, targets)
  {
    var base, s := InstallBase(server, feed, disk, saved).site, Install(server, feed, disk, saved, targets, false).site;
    InstallConverges(server, feed, disk, saved, targets, false);
    QuietExactly(later, feed, s, targets', false);
    FormsStayTargets(server, feed, base, targets, false);
    if Settled(feed, s, targets, false) || Settled(feed, s, targets', false) {
      BaseIsQuiet(later, feed, s);
    }
    if Settled(feed, s, targets, false) && BringsNoForm(feed, targets) {
      forall i | 0 <= i < |targets'| ensures FormSettled(feed, s, targets'[i], false) {
        assert targets'[i] in Elements(targets');
        ScanAddsNoForm(server, feed, base, targets, targets'[i]);
        if targets'[i] in Elements(targets) {
          var j :| 0 <= j < |targets| && targets[j] == targets'[i];
          assert FormSettled(feed, s, targets[j], false);
        }
      }
    }
    if Settled(feed, s, targets', false) {
      forall i | 0 <= i < |targets| ensures FormSettled(feed, s, targets[i], false) {
        assert targets[i] in Elements(targets);
        TargetsStay(server, feed, disk, saved, targets, targets[i]);
        var j :| 0 <= j < |targets'| && targets'[j] == targets[i];
        assert FormSettled(feed, s, targets'[j], false);
      }
      forall p | p in AllTargetRels(feed, targets) && IsValidatorJar(p)
        ensures FormOfJar(p) in Elements(targets) || FormOfJar(p) == SAFT_FORM || FormOfJar(p) !in feed.forms
      {
        if FormOfJar(p) != SAFT_FORM && FormOfJar(p) in feed.forms {
          ScanFinds(server, feed, disk, saved, targets, p);
          var j :| 0 <= j < |targets'| && targets'[j] == FormOfJar(p);
          assert FormSettled(feed, s, targets'[j], false);
        }
      }
    }
  }

  /** Over current core and config files, the next run's base pass changes nothing. */
  lemma BaseIsQuiet(later: Server, feed: Feed, s: Site)
    requires feed.rootJars != [] && feed.libJars != [] && s.manifest.coreVersion == feed.coreVersion && AllCurrent(s, BaseItems(feed))
    ensures InstallBase(later, feed, s.disk, Some(s.manifest)) == Went(Opened(s.disk, Some(s.manifest)))
  {
    var o := Opened(s.disk, Some(s.manifest));
    assert forall p :: IsCurrent(s, p) <==> IsCurrent(o, p);
    ConvergeQuiet(later, o, BaseItems(feed));
  }

  // ---- A crash --------------------------------------------------------------------------------------

  ghost predicate Outside(r: set<Path>, p: Path) {
    p !in r && forall q | q in r :: p != PartName(q)
  }

  ghost predicate SameAt(d: Disk, e: Disk, p: Path) {
    (p in d <==> p in e) && (p in d ==> d[p] == e[p])
  }

  /** The disk a crash leaves: `k` files in place, and possibly some bytes (the next
      file's, or a part of them) under its temporary name. */
  function Crashed(disk: Disk, log: seq<Stored>, k: nat, torn: Option<Bytes>): Disk
    requires k <= |log| && (torn.Some? ==> k < |log|)
  {
    var d := Replay(disk, log[..k]);
    if torn.Some? then PutPart(d, log[k].rel, torn.value) else d
  }

  /** A crash leaves every file outside the run's paths alone, and every other one either
      as it was or whole: no file is torn and none disappears. */
  lemma {:induction false} CrashLeavesWholeFiles(r: set<Path>, l: set<Item>, server: Server, disk: Disk, log: seq<Stored>, k: nat, torn: Option<Bytes>, p: Path)
    requires k <= |log| && (torn.Some? ==> k < |log|)
    requires forall i | 0 <= i < |log| :: log[i].rel in r && OfferedEntry(server, l, log[i])
    requires forall q | q in r :: p != PartName(q)
    ensures var d := Crashed(disk, log, k, torn);
            && (p !in r ==> SameAt(disk, d, p))
            && (SameAt(disk, d, p) || (p in d && exists source :: Offered(server, l, source, p, d[p])))
    decreases k, torn.Some?
  {
    if torn.Some? {
      CrashLeavesWholeFiles(r, l, server, disk, log, k, None, p);
    } else if k > 0 {
      CrashLeavesWholeFiles(r, l, server, disk, log, k - 1, None, p);
      assert log[..k][..k - 1] == log[..k - 1];
      WriteEffect(Replay(disk, log[..k - 1]), log[k - 1].rel, log[k - 1].data);
    }
  }

  /** Files outside the targets are untouched by any run, completed or not. */
  lemma OutsideUntouched(server: Server, feed: Feed, disk: Disk, saved: Option<Manifest>, targets: seq<string>, explicit: bool, p: Path)
    requires Outside(Touched(feed, targets), p)
    ensures SameAt(disk, Install(server, feed, disk, saved, targets, explicit).site.disk, p)
  {
    var r, l := Touched(feed, targets), Listing(feed, targets);
    InstallLogged(server, feed, disk, saved, targets, explicit);
    var log := Install(server, feed, disk, saved, targets, explicit).site.updated;
    CrashLeavesWholeFiles(r, l, server, disk, log, |log|, None, p);
    assert log[..|log|] == log;
  }

  /** Crash recovery: stop a run anywhere, with its manifest unsaved, older or damaged. A
      later run that completes converges, and the same run after it is quiet, if and only
      if its own files held; and no file outside the paths of the two runs ever changed. */
  lemma CrashRecovery(server: Server, feed: Feed, disk: Disk, saved: Option<Manifest>, targets: seq<string>, explicit: bool,
                      k: nat, torn: Option<Bytes>,
                      server': Server, feed': Feed, saved': Option<Manifest>, targets': seq<string>, explicit': bool,
                      last: Server, p: Path)
    requires var log := Install(server, feed, disk, saved, targets, explicit).site.updated;
             k <= |log| && (torn.Some? ==> k < |log|)
    requires var log := Install(server, feed, disk, saved, targets, explicit).site.updated;
             Install(server', feed', Crashed(disk, log, k, torn), saved', targets', explicit').Went?
    ensures var crashed := Crashed(disk, Install(server, feed, disk, saved, targets, explicit).site.updated, k, torn);
            var redone := Install(server', feed', crashed, saved', targets', explicit').site;
            var holding := Holding(feed', Opened(crashed, saved'), redone, targets', explicit');
            && (Settled(feed', redone, targets', explicit') <==> holding)
            && (Quiet(Install(last, feed', redone.disk, Some(redone.manifest), targets', explicit')) <==> holding)
            && (Outside(Touched(feed, targets), p) && Outside(Touched(feed', targets'), p) ==> SameAt(disk, redone.disk, p))
  {
    var log := Install(server, feed, disk, saved, targets, explicit).site.updated;
    var crashed := Crashed(disk, log, k, torn);
    InstallConverges(server', feed', crashed, saved', targets', explicit');
    SecondRun(server', last, feed', crashed, saved', targets', explicit');
    if Outside(Touched(feed, targets), p) && Outside(Touched(feed', targets'), p) {
      InstallLogged(server, feed, disk, saved, targets, explicit);
      CrashLeavesWholeFiles(Touched(feed, targets), Listing(feed, targets), server, disk, log, k, torn, p);
      OutsideUntouched(server', feed', crashed, saved', targets', explicit', p);
    }
  }

  /** The same for bare runs after a crash, the next one with targets of its own. */
  lemma BareCrashRecovery(server: Server, feed: Feed, disk: Disk, saved: Option<Manifest>, targets: seq<string>, explicit: bool,
                          k: nat, torn: Option<Bytes>,
                          server': Server, feed': Feed, saved': Option<Manifest>, targets': seq<string>,
                          last: Server, targets'': seq<string>)
    requires var log := Install(server, feed, disk, saved, targets, explicit).site.updated;
             k <= |log| && (torn.Some? ==> k < |log|)
    requires var crashed := Crashed(disk, Install(server, feed, disk, saved, targets, explicit).site.updated, k, torn);
             && Install(server', feed', crashed, saved', targets', false).Went?
             && RightTargets(InstallBase(server', feed', crashed, saved').site, targets', false)
    requires var crashed := Crashed(disk, Install(server, feed, disk, saved, targets, explicit).site.updated, k, torn);
             var redone := Install(server', feed', crashed, saved', targets', false).site;
             RightTargets(InstallBase(last, feed', redone.disk, Some(redone.manifest)).site, targets'', false)
    ensures var crashed := Crashed(disk, Install(server, feed, disk, saved, targets, explicit).site.updated, k, torn);
            var redone := Install(server', feed', crashed, saved', targets', false).site;
            var holding := Holding(feed', Opened(crashed, saved'), redone, targets', false);
            && (Settled(feed', redone, targets', false) <==> holding)
            && (Quiet(Install(last, feed', redone.disk, Some(redone.manifest), targets'', false))
                <==> holding && BringsNoForm(feed', targets'))
  {
    var crashed := Crashed(disk, Install(server, feed, disk, saved, targets, explicit).site.updated, k, torn);
    InstallConverges(server', feed', crashed, saved', targets', false);
    SecondBareRun(server', last, feed', crashed, saved', targets', targets'');
  }

  // ---- A moved version is really fetched ------------------------------------------------------------------

  ghost predicate AllStoredSince(s: Site, s': Site, items: seq<Item>) {
    forall i | 0 <= i < |items| ::
      var n := RelativeName(items[i].url, items[i].subdir); n.Ok? && StoredSince(s, s', n.value)
  }

  lemma AllStoredWiden(s0: Site, s: Site, t: Site, u: Site, items: seq<Item>)
    requires s0.updated <= s.updated && t.updated <= u.updated && AllStoredSince(s, t, items)
    ensures AllStoredSince(s0, u, items)
  {
  }

  /** The rest of a listing was stored after its first file was. */
  lemma AllStoredCons(s: Site, s1: Site, end: Site, items: seq<Item>)
    requires items != [] && s.updated <= s1.updated <= end.updated
    requires AllStoredSince(s1, end, items[1..])
    requires var n := RelativeName(items[0].url, items[0].subdir); n.Ok? && StoredSince(s, s1, n.value)
    ensures AllStoredSince(s, end, items)
  {
  }

  lemma {:induction false} ConvergeStores(server: Server, s: Site, items: seq<Item>)
    requires Converge(server, s, true, items).Went?
    ensures AllStoredSince(s, Converge(server, s, true, items).site, items)
    decreases |items|
  {
    if items == [] {
    } else {
      var rel := RelativeName(items[0].url, items[0].subdir).value;
      var s1 := FetchInto(server, s, items[0].url, rel).site;
      ConvergeStores(server, s1, items[1..]);
      assert s1.updated <= Converge(server, s1, true, items[1..]).site.updated by {
        ConvergeLogged(Rels(items[1..]), ItemSet(items[1..]), server, s1, true, items[1..]);
      }
      assert s1.updated[|s.updated|].rel == rel;
      AllStoredCons(s, s1, Converge(server, s1, true, items[1..]).site, items);
    }
  }

  ghost predicate Outdated(m: Manifest, feed: Feed, form: string) {
    form != SAFT_FORM && form in feed.forms && (form !in m.forms || m.forms[form] != feed.forms[form].version)
  }

  lemma {:induction false} FormsStore(server: Server, feed: Feed, s: Site, targets: seq<string>, explicit: bool, form: string)
    requires InstallForms(server, feed, s, targets, explicit).Went? && form in targets && Outdated(s.manifest, feed, form)
    ensures AllStoredSince(s, InstallForms(server, feed, s, targets, explicit).site, FormItems(feed.forms[form]))
    decreases |targets|
  {
    var s1 := InstallForm(server, feed, s, targets[0], explicit).site;
    var end := InstallForms(server, feed, s, targets, explicit).site;
    var items := FormItems(feed.forms[form]);
    InstallFormLogged(TargetRels(feed, targets[0]), FormListing(feed, targets[0]), feed, server, s, targets[0], explicit);
    InstallFormsLogged(AllTargetRels(feed, targets[1..]), FormListings(feed, targets[1..]), feed, server, s1, targets[1..], explicit);
    if targets[0] == form {
      ConvergeStores(server, s, items);
      assert s1.updated == Converge(server, s, true, items).site.updated;
      AllStoredWiden(s, s, s1, end, items);
    } else {
      OnlyOwnForm(server, feed, s, targets[0], explicit);
      FormsStore(server, feed, s1, targets[1..], explicit, form);
      AllStoredWiden(s, s1, end, end, items);
    }
  }

  /** A stored file is there at the end exactly when it was not clobbered, with the bytes
      it was last stored with. */
  lemma {:induction false} ReplayExactly(disk: Disk, log: seq<Stored>, p: Path)
    requires StoredIn(log, p)
    ensures p in Replay(disk, log) <==> !Clobbered(log, p)
    ensures p in Replay(disk, log) ==> exists k :: 0 <= k < |log| && log[k].rel == p && log[k].data == Replay(disk, log)[p]
  {
    var front, last := log[..|log| - 1], log[|log| - 1];
    WriteEffect(Replay(disk, front), last.rel, last.data);
    assert forall i | 0 <= i < |front| :: front[i] == log[i];
    if last.rel == p {
      WriteEffect(disk, p, last.data);
    } else {
      var i :| 0 <= i < |log| && log[i].rel == p;
      assert front[i].rel == p;
      ReplayExactly(disk, front, p);
      if PartName(last.rel) != p {
        ClobberedEarlier(log, p);
      }
    }
  }

  lemma ClobberedEarlier(log: seq<Stored>, p: Path)
    requires log != [] && log[|log| - 1].rel != p && PartName(log[|log| - 1].rel) != p
    ensures Clobbered(log[..|log| - 1], p) <==> Clobbered(log, p)
  {
  }

  /** What the network offers is there for each of `items` that was not clobbered, and
      nothing is there for the others. */
  ghost predicate Replaced(server: Server, l: set<Item>, end: Site, items: seq<Item>) {
    forall i | 0 <= i < |items| ::
      var n := RelativeName(items[i].url, items[i].subdir);
      n.Ok? && (if Clobbered(end.updated, n.value) then n.value !in end.disk
                else n.value in end.disk && exists source :: Offered(server, l, source, n.value, end.disk[n.value]))
  }

  lemma StoredAreReplaced(r: set<Path>, l: set<Item>, server: Server, s: Site, end: Site, items: seq<Item>)
    requires s.updated == [] && Logged(r, l, server, s, end) && AllStoredSince(s, end, items)
    ensures Replaced(server, l, end, items)
  {
    assert end.updated[0..] == end.updated;
    forall i | 0 <= i < |items|
      ensures var n := RelativeName(items[i].url, items[i].subdir);
              n.Ok? && (if Clobbered(end.updated, n.value) then n.value !in end.disk
                        else n.value in end.disk && exists source :: Offered(server, l, source, n.value, end.disk[n.value]))
    {
      ReplayExactly(s.disk, end.updated, RelativeName(items[i].url, items[i].subdir).value);
    }
  }

  /** A completed run over an older core replaces every core and config file by what the
      network offers under its name, whatever hashes were recorded, except exactly those
      that were clobbered; likewise for the files of every target form whose recorded
      version is not the feed's. */
  lemma OutdatedIsReplaced(server: Server, feed: Feed, disk: Disk, saved: Option<Manifest>, targets: seq<string>, explicit: bool)
    requires Install(server, feed, disk, saved, targets, explicit).Went?
    ensures var m, end := Opened(disk, saved).manifest, Install(server, feed, disk, saved, targets, explicit).site;
            && (m.coreVersion != feed.coreVersion ==> Replaced(server, Listing(feed, targets), end, BaseItems(feed)))
            && forall form | form in targets && Outdated(m, feed, form) ::
                 Replaced(server, Listing(feed, targets), end, FormItems(feed.forms[form]))
  {
    var r, l := Touched(feed, targets), Listing(feed, targets);
    var s, end := Opened(disk, saved), Install(server, feed, disk, saved, targets, explicit).site;
    var base := InstallBase(server, feed, disk, saved).site;
    InstallLogged(server, feed, disk, saved, targets, explicit);
    FormsUpdate(server, feed, base, targets, explicit);
    if s.manifest.coreVersion != feed.coreVersion {
      ConvergeStores(server, s, BaseItems(feed));
      AllStoredWiden(s, s, base, end, BaseItems(feed));
      StoredAreReplaced(r, l, server, s, end, BaseItems(feed));
    }
    forall form | form in targets && Outdated(s.manifest, feed, form)
      ensures Replaced(server, l, end, FormItems(feed.forms[form]))
    {
      ConvergeForms(server, s, s.manifest.coreVersion != feed.coreVersion, BaseItems(feed));
      FormsStore(server, feed, base, targets, explicit, form);
      AllStoredWiden(s, base, end, end, FormItems(feed.forms[form]));
      StoredAreReplaced(r, l, server, s, end, FormItems(feed.forms[form]));
    }
  }
}
