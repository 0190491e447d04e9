/** What a run does in terms of the feed's own fields: which file each listed URL becomes,
    what the manifest and the report say of it, and which targets a bare run has. */
module InstallerListing {
  import opened Installer
  import opened InstallerAgain
  import opened InstallerConvergence
  import opened NameOrder
  import opened Wrappers

  // ---- The listed URLs ---------------------------------------------------------------------

  /** The file a URL becomes in a directory of the dist. */
  function Dest(u: Url, subdir: string): Path {
    if subdir == "" then LastPart(Split(u.path)) else subdir + "/" + LastPart(Split(u.path))
  }

  /** The URLs of a form: its validator, viewer and history, the last two if any. */
  predicate IsFormUrl(entry: FeedForm, u: Url) {
    u == entry.validator || entry.pdf == Some(u) || entry.history == Some(u)
  }

  lemma FormItemsExactly(entry: FeedForm)
    ensures forall u, subdir :: Item(u, subdir) in FormItems(entry) <==> IsFormUrl(entry, u) && subdir == "lib"
    ensures var items := FormItems(entry);
            && items[0].url == entry.validator
            && (entry.pdf.Some? ==> |items| > 1 && items[1].url == entry.pdf.value)
            && (entry.history.Some? ==> items[|items| - 1].url == entry.history.value)
  {
    var items := FormItems(entry);
    assert items[0] == Item(entry.validator, "lib");
    assert entry.pdf.Some? ==> items[1] == Item(entry.pdf.value, "lib");
    assert entry.history.Some? ==> items[|items| - 1] == Item(entry.history.value, "lib");
  }

  predicate IsBaseUrl(feed: Feed, u: Url, subdir: string) {
    || (subdir == "" && u in feed.rootJars)
    || (subdir == "lib" && u in feed.libJars)
    || (subdir == "config" && u in feed.configFiles)
  }

  lemma BaseItemsExactly(feed: Feed)
    ensures forall u, subdir :: Item(u, subdir) in BaseItems(feed) <==> IsBaseUrl(feed, u, subdir)
    ensures var items, m, n := BaseItems(feed), |feed.rootJars|, |feed.libJars|;
            && |items| == m + n + |feed.configFiles|
            && (forall i | 0 <= i < m :: items[i] == Item(feed.rootJars[i], ""))
            && (forall i | 0 <= i < n :: items[m + i] == Item(feed.libJars[i], "lib"))
            && (forall i | 0 <= i < |feed.configFiles| :: items[m + n + i] == Item(feed.configFiles[i], "config"))
  {
    var items, m, n := BaseItems(feed), |feed.rootJars|, |feed.libJars|;
    forall u, subdir ensures Item(u, subdir) in items <==> IsBaseUrl(feed, u, subdir) {
      if IsBaseUrl(feed, u, subdir) {
        if subdir == "" {
          var i :| 0 <= i < m && feed.rootJars[i] == u;
          assert items[i] == Item(u, subdir);
        } else if subdir == "lib" {
          var i :| 0 <= i < n && feed.libJars[i] == u;
          assert items[m + i] == Item(u, subdir);
        } else {
          var i :| 0 <= i < |feed.configFiles| && feed.configFiles[i] == u;
          assert items[m + n + i] == Item(u, subdir);
        }
      }
      if Item(u, subdir) in items {
        var i :| 0 <= i < |items| && items[i] == Item(u, subdir);
        assert i < m ==> items[i] == Item(feed.rootJars[i], "");
        assert m <= i < m + n ==> items[i] == Item(feed.libJars[i - m], "lib");
        assert m + n <= i ==> items[i] == Item(feed.configFiles[i - m - n], "config");
      }
    }
  }

  // ---- Every listed file is in place ---------------------------------------------------------

  /** On the disk, with the bytes the manifest recorded. */
  predicate InPlace(s: Site, p: Path) {
    p in s.disk && p in s.manifest.files && s.manifest.files[p].sha256 == Sha256(s.disk[p])
  }

  /** In place, unless it was clobbered, and exactly then. */
  ghost predicate Kept(end: Site, p: Path) {
    InPlace(end, p) <==> !Clobbered(end.updated, p)
  }

  lemma ReachedIsKept(r: set<Path>, l: set<Item>, server: Server, s: Site, end: Site, items: seq<Item>, u: Url, subdir: string)
    requires s.updated == [] && Logged(r, l, server, s, end) && AllReached(s, end, items) && Item(u, subdir) in items
    ensures Kept(end, Dest(u, subdir))
  {
    var i :| 0 <= i < |items| && items[i] == Item(u, subdir);
    NameStaysInside(u, subdir);
    PathKept(r, l, server, s, end, Dest(u, subdir));
  }

  /** After a completed run, each root jar, library jar and config file of the feed, and for
      each target form of the feed its validator, its viewer and its history, is in place
      under its own name exactly when it was not clobbered, and the form's version is
      recorded; and so are the two jars of a named D406T (the viewer, if the archive has it). */
  lemma ListedFilesInPlace(server: Server, feed: Feed, disk: Disk, saved: Option<Manifest>, targets: seq<string>, explicit: bool)
    requires Install(server, feed, disk, saved, targets, explicit).Went?
    ensures var end := Install(server, feed, disk, saved, targets, explicit).site;
            && end.manifest.coreVersion == feed.coreVersion
            && (forall u | u in feed.rootJars :: Kept(end, Dest(u, "")))
            && (forall u | u in feed.libJars :: Kept(end, Dest(u, "lib")))
            && (forall u | u in feed.configFiles :: Kept(end, Dest(u, "config")))
            && (forall form | form in targets && form != "D406T" && form in feed.forms ::
                  FormKept(end, form, feed.forms[form]))
            && ("D406T" in targets && explicit ==>
                  Kept(end, "lib/D406TValidator.jar") && (ZipHolds(server, "D406TPdf.jar") ==> Kept(end, "lib/D406TPdf.jar")))
  {
    var r, l := Touched(feed, targets), Listing(feed, targets);
    var s, end := Opened(disk, saved), Install(server, feed, disk, saved, targets, explicit).site;
    CompletedRun(server, feed, disk, saved, targets, explicit);
    BaseKept(r, l, server, feed, s, end);
    forall form | form in targets && form != "D406T" && form in feed.forms ensures FormKept(end, form, feed.forms[form]) {
      var i :| 0 <= i < |targets| && targets[i] == form;
      assert FormDone(server, feed, s, end, targets[i], explicit);
      TargetFormKept(r, l, server, feed, s, end, form, explicit);
    }
    if "D406T" in targets && explicit {
      var i :| 0 <= i < |targets| && targets[i] == "D406T";
      assert FormDone(server, feed, s, end, targets[i], explicit);
      SaftKept(r, l, server, feed, s, end);
    }
  }

  lemma BaseKept(r: set<Path>, l: set<Item>, server: Server, feed: Feed, s: Site, end: Site)
    requires s.updated == [] && Logged(r, l, server, s, end) && AllReached(s, end, BaseItems(feed))
    ensures forall u | u in feed.rootJars :: Kept(end, Dest(u, ""))
    ensures forall u | u in feed.libJars :: Kept(end, Dest(u, "lib"))
    ensures forall u | u in feed.configFiles :: Kept(end, Dest(u, "config"))
  {
    forall u | u in feed.rootJars ensures Kept(end, Dest(u, "")) {
      BaseUrlKept(r, l, server, feed, s, end, u, "");
    }
    forall u | u in feed.libJars ensures Kept(end, Dest(u, "lib")) {
      BaseUrlKept(r, l, server, feed, s, end, u, "lib");
    }
    forall u | u in feed.configFiles ensures Kept(end, Dest(u, "config")) {
      BaseUrlKept(r, l, server, feed, s, end, u, "config");
    }
  }

  lemma BaseUrlKept(r: set<Path>, l: set<Item>, server: Server, feed: Feed, s: Site, end: Site, u: Url, subdir: string)
    requires s.updated == [] && Logged(r, l, server, s, end) && AllReached(s, end, BaseItems(feed)) && IsBaseUrl(feed, u, subdir)
    ensures Kept(end, Dest(u, subdir))
  {
    BaseItemsExactly(feed);
    ReachedIsKept(r, l, server, s, end, BaseItems(feed), u, subdir);
  }

  lemma SaftKept(r: set<Path>, l: set<Item>, server: Server, feed: Feed, s: Site, end: Site)
    requires s.updated == [] && Logged(r, l, server, s, end) && FormDone(server, feed, s, end, "D406T", true)
    ensures Kept(end, "lib/D406TValidator.jar") && (ZipHolds(server, "D406TPdf.jar") ==> Kept(end, "lib/D406TPdf.jar"))
  {
    SaftPaths();
    PathKept(r, l, server, s, end, "lib/D406TValidator.jar");
    if ZipHolds(server, "D406TPdf.jar") {
      PathKept(r, l, server, s, end, "lib/D406TPdf.jar");
    }
  }

  lemma SaftPaths()
    ensures SaftRel(SAFT_VALIDATOR) == "lib/D406TValidator.jar" && SaftRel(SAFT_PDF) == "lib/D406TPdf.jar"
  {
  }

  lemma PathKept(r: set<Path>, l: set<Item>, server: Server, s: Site, end: Site, p: Path)
    requires s.updated == [] && Logged(r, l, server, s, end) && Reached(s, end, p)
    ensures Kept(end, p)
  {
    assert end.updated[0..] == end.updated;
    CurrentExactly(r, l, server, s, end, p);
  }

  /** A form's version is recorded and its files are kept. */
  ghost predicate FormKept(end: Site, form: string, entry: FeedForm) {
    && form in end.manifest.forms && end.manifest.forms[form] == entry.version
    && Kept(end, Dest(entry.validator, "lib"))
    && (entry.pdf.Some? ==> Kept(end, Dest(entry.pdf.value, "lib")))
    && (entry.history.Some? ==> Kept(end, Dest(entry.history.value, "lib")))
  }

  lemma TargetFormKept(r: set<Path>, l: set<Item>, server: Server, feed: Feed, s: Site, end: Site, form: string, explicit: bool)
    requires form != "D406T" && form in feed.forms && s.updated == []
    requires Logged(r, l, server, s, end) && FormDone(server, feed, s, end, form, explicit)
    ensures FormKept(end, form, feed.forms[form])
  {
    var entry := feed.forms[form];
    FormItemsExactly(entry);
    forall u | IsFormUrl(entry, u) ensures Kept(end, Dest(u, "lib")) {
      ReachedIsKept(r, l, server, s, end, FormItems(entry), u, "lib");
    }
  }

  // ---- Nothing else is stored ------------------------------------------------------------------

  /** Entries come from URLs, or, with `zip`, from the archive's three wanted names. */
  ghost predicate Sources(s: Site, s': Site, zip: bool) {
    && s.updated <= s'.updated
    && forall k | |s.updated| <= k < |s'.updated| ::
         s'.updated[k].source.FromZip? ==>
           zip && s'.updated[k].source.member in {"D406TValidator.jar", "D406TPdf.jar", "D406TIstoriaVersiunilor.txt"}
  }

  lemma SourcesTransitive(s: Site, t: Site, u: Site, zip: bool)
    requires Sources(s, t, zip) && Sources(t, u, zip)
    ensures Sources(s, u, zip)
  {
    assert forall k | 0 <= k < |t.updated| :: u.updated[k] == t.updated[k];
  }

  lemma {:induction false} ConvergeSources(server: Server, s: Site, always: bool, items: seq<Item>, zip: bool)
    ensures Sources(s, Converge(server, s, always, items).site, zip)
    decreases |items|
  {
    if items == [] || RelativeName(items[0].url, items[0].subdir).Err? {
    } else {
      var rel, rest := RelativeName(items[0].url, items[0].subdir).value, items[1..];
      if always || !IsCurrent(s, rel) {
        var step := FetchInto(server, s, items[0].url, rel);
        if step.Went? {
          ConvergeSources(server, step.site, always, rest, zip);
          SourcesTransitive(s, step.site, Converge(server, s, always, items).site, zip);
        }
      } else {
        ConvergeSources(server, s, always, rest, zip);
      }
    }
  }

  lemma ZipSources(s: Site, members: seq<Member>)
    ensures Sources(s, RecordAll(s, Extracted(members)), true)
  {
    var e := Extracted(members);
    ExtractedAreWanted(members);
    RecordAllAppends(s, e);
    var end := RecordAll(s, e);
    forall k | |s.updated| <= k < |end.updated|
      ensures end.updated[k].source.FromZip? && end.updated[k].source.member in {"D406TValidator.jar", "D406TPdf.jar", "D406TIstoriaVersiunilor.txt"}
    {
      assert end.updated[k] == SaftLog(e)[k - |s.updated|];
      WantedExactly(e[k - |s.updated|].path);
    }
  }

  lemma WantedExactly(name: string)
    ensures Wanted(name) <==> name in {"D406TValidator.jar", "D406TPdf.jar", "D406TIstoriaVersiunilor.txt"}
  {
  }

  /** Each of the three names the archive holds is extracted. */
  lemma WantedAreExtracted(members: seq<Member>, name: string)
    requires name in {"D406TValidator.jar", "D406TPdf.jar", "D406TIstoriaVersiunilor.txt"}
    ensures Holds(Extracted(members), name) <==> exists m :: m in members && LastPart(Split(m.path)) == name
  {
    WantedExactly(name);
    ExtractedAreWanted(members);
    forall m | m in members ensures Basename(m.path) == LastPart(Split(m.path)) {
      BasenameIsLastPart(m.path);
    }
  }

  lemma FormSources(server: Server, feed: Feed, s: Site, form: string, explicit: bool, zip: bool)
    requires form == "D406T" && explicit ==> zip
    ensures Sources(s, InstallForm(server, feed, s, form, explicit).site, zip)
  {
    if form == SAFT_FORM {
      if explicit && !SaftCurrent(s) && InstallSaft(server, s).Went? {
        ZipSources(s, server.saft.value.members);
      }
    } else if form in feed.forms {
      ConvergeSources(server, s, true, FormItems(feed.forms[form]), zip);
    }
  }

  lemma {:induction false} FormsSources(server: Server, feed: Feed, s: Site, targets: seq<string>, explicit: bool, zip: bool)
    requires "D406T" in targets && explicit ==> zip
    ensures Sources(s, InstallForms(server, feed, s, targets, explicit).site, zip)
    decreases |targets|
  {
    if targets == [] {
    } else {
      var step := InstallForm(server, feed, s, targets[0], explicit);
      FormSources(server, feed, s, targets[0], explicit, zip);
      if step.Went? {
        FormsSources(server, feed, step.site, targets[1..], explicit, zip);
        SourcesTransitive(s, step.site, InstallForms(server, feed, s, targets, explicit).site, zip);
      }
    }
  }

  /** What may be stored by a run, entry by entry. */
  ghost predicate MayStore(server: Server, feed: Feed, targets: seq<string>, explicit: bool, e: Stored) {
    match e.source
    case FromUrl(u) =>
      && u.host == "static.anaf.ro" && u in server.files && e.data == server.files[u]
      && (|| (exists subdir :: IsBaseUrl(feed, u, subdir) && e.rel == Dest(u, subdir))
          || (exists form :: form in targets && form != "D406T" && form in feed.forms
                             && IsFormUrl(feed.forms[form], u) && e.rel == Dest(u, "lib")))
    case FromZip(name) =>
      && explicit && "D406T" in targets && e.rel == "lib/" + name
      && name in {"D406TValidator.jar", "D406TPdf.jar", "D406TIstoriaVersiunilor.txt"}
      && server.saft.Some? && FirstNamed(server.saft.value.members, name, e.data)
  }

  /** Any run, completed or not, stores only files the feed lists for it, each under its own
      name and with the bytes served there. */
  lemma OnlyListedStored(server: Server, feed: Feed, disk: Disk, saved: Option<Manifest>, targets: seq<string>, explicit: bool)
    ensures var end := Install(server, feed, disk, saved, targets, explicit).site;
            forall k | 0 <= k < |end.updated| :: MayStore(server, feed, targets, explicit, end.updated[k])
  {
    var s, end := Opened(disk, saved), Install(server, feed, disk, saved, targets, explicit).site;
    var base, zip := InstallBase(server, feed, disk, saved), explicit && "D406T" in targets;
    InstallLogged(server, feed, disk, saved, targets, explicit);
    if feed.rootJars != [] && feed.libJars != [] {
      ConvergeSources(server, s, s.manifest.coreVersion != feed.coreVersion, BaseItems(feed), zip);
      if base.Went? {
        FormsSources(server, feed, base.site, targets, explicit, zip);
        SourcesTransitive(s, base.site, InstallForms(server, feed, base.site, targets, explicit).site, zip);
      }
    }
    forall k | 0 <= k < |end.updated| ensures MayStore(server, feed, targets, explicit, end.updated[k]) {
      var e := end.updated[k];
      assert OfferedEntry(server, Listing(feed, targets), e);
      if e.source.FromUrl? {
        var item :| item in Listing(feed, targets) && item.url == e.source.url && RelativeName(item.url, item.subdir) == Ok(e.rel);
        NameStaysInside(item.url, item.subdir);
        ListedExactly(feed, targets, item);
      }
    }
  }

  lemma ListedExactly(feed: Feed, targets: seq<string>, item: Item)
    requires item in Listing(feed, targets)
    ensures IsBaseUrl(feed, item.url, item.subdir)
            || (item.subdir == "lib" && exists form :: form in targets && form != "D406T" && form in feed.forms && IsFormUrl(feed.forms[form], item.url))
  {
    BaseItemsExactly(feed);
    assert item == Item(item.url, item.subdir);
    if item !in ItemSet(BaseItems(feed)) {
      FormListingsExactly(feed, targets, item);
    }
  }

  lemma {:induction false} FormListingsExactly(feed: Feed, targets: seq<string>, item: Item)
    requires item in FormListings(feed, targets)
    ensures item.subdir == "lib" && exists form :: form in targets && form != "D406T" && form in feed.forms && IsFormUrl(feed.forms[form], item.url)
  {
    if item in FormListing(feed, targets[0]) {
      FormItemsExactly(feed.forms[targets[0]]);
      assert item == Item(item.url, item.subdir) && targets[0] in targets;
    } else {
      FormListingsExactly(feed, targets[1..], item);
      var form :| form in targets[1..] && form != "D406T" && form in feed.forms && IsFormUrl(feed.forms[form], item.url);
      assert form in targets;
    }
  }

  /** A form of which one URL ends in no usable name raises before anything of it is fetched. */
  lemma BadUrlStoresNothing(server: Server, feed: Feed, s: Site, form: string, explicit: bool, u: Url)
    requires form != "D406T" && form in feed.forms && IsFormUrl(feed.forms[form], u)
    requires LastPart(Split(u.path)) in {"", ".."}
    ensures InstallForm(server, feed, s, form, explicit).Raised? && InstallForm(server, feed, s, form, explicit).site == s
  {
    var items := FormItems(feed.forms[form]);
    FormItemsExactly(feed.forms[form]);
    var i :| 0 <= i < |items| && items[i] == Item(u, "lib");
    NameStaysInside(u, "lib");
    AllNamed(items);
  }

  // ---- What the manifest says ------------------------------------------------------------------

  /** Of each file a run stored, the manifest tells the source, the hash and the size of what
      was stored last, and of any other what it told before. */
  lemma ManifestTells(server: Server, feed: Feed, disk: Disk, saved: Option<Manifest>, targets: seq<string>, explicit: bool, p: Path)
    ensures var s, end := Opened(disk, saved), Install(server, feed, disk, saved, targets, explicit).site;
            if StoredIn(end.updated, p) then
              p in end.manifest.files &&
              exists k :: 0 <= k < |end.updated| && end.updated[k].rel == p && (forall j | k < j < |end.updated| :: end.updated[j].rel != p)
                          && end.manifest.files[p] == InstalledFile(end.updated[k].source, Sha256(end.updated[k].data), |end.updated[k].data|)
            else (p in end.manifest.files <==> p in s.manifest.files) && (p in s.manifest.files ==> end.manifest.files[p] == s.manifest.files[p])
  {
    var s, end := Opened(disk, saved), Install(server, feed, disk, saved, targets, explicit).site;
    InstallLogged(server, feed, disk, saved, targets, explicit);
    assert end.updated[0..] == end.updated;
    FilesTell(s.manifest.files, end.updated, p);
  }

  lemma {:induction false} FilesTell(files: map<Path, InstalledFile>, log: seq<Stored>, p: Path)
    ensures var after := FilesAfter(files, log);
            if StoredIn(log, p) then
              p in after &&
              exists k :: 0 <= k < |log| && log[k].rel == p && (forall j | k < j < |log| :: log[j].rel != p)
                          && after[p] == InstalledFile(log[k].source, Sha256(log[k].data), |log[k].data|)
            else (p in after <==> p in files) && (p in files ==> after[p] == files[p])
  {
    if log == [] {
    } else {
      var front, last := log[..|log| - 1], log[|log| - 1];
      FilesTell(files, front, p);
      assert forall i | 0 <= i < |front| :: front[i] == log[i];
      if last.rel != p && StoredIn(log, p) {
        var i :| 0 <= i < |log| && log[i].rel == p;
        assert front[i].rel == p;
        var k :| 0 <= k < |front| && front[k].rel == p && (forall j | k < j < |front| :: front[j].rel != p)
                 && FilesAfter(files, front)[p] == InstalledFile(front[k].source, Sha256(front[k].data), |front[k].data|);
        assert log[k].rel == p && forall j | k < j < |log| :: j < |front| ==> log[j] == front[j];
      }
    }
  }

  // ---- What the report says --------------------------------------------------------------------

  /** A form's turn is reported once: as current when it stored nothing, as installed at the
      feed's version when it did, or as a note when a bare run cannot install it. */
  lemma FormReported(server: Server, feed: Feed, s: Site, form: string, explicit: bool)
    requires InstallForm(server, feed, s, form, explicit).Went?
    ensures var t := InstallForm(server, feed, s, form, explicit).site;
            if form == "D406T" && explicit then
              t.notes == s.notes && form in t.manifest.forms &&
              (if t.updated == s.updated then t.current == s.current["D406T" := t.manifest.forms[form]] && t.installed == s.installed
               else && server.saft.Some? && t.manifest.forms[form] == server.saft.value.version
                    && t.installed == s.installed["D406T" := server.saft.value.version] && t.current == s.current)
            else if form != "D406T" && form in feed.forms then
              t.notes == s.notes &&
              (if t.updated == s.updated then t.current == s.current[form := feed.forms[form].version] && t.installed == s.installed
               else t.installed == s.installed[form := feed.forms[form].version] && t.current == s.current)
            else !explicit && t == s.(notes := s.notes + [form])
  {
    if form == SAFT_FORM {
      if explicit {
        SaftAgainExactly(server, s);
        if !SaftCurrent(s) {
          RecordAllReports(s, Extracted(server.saft.value.members));
        }
      }
    } else if form in feed.forms {
      var items := FormItems(feed.forms[form]);
      FormItemsExactly(feed.forms[form]);
      ConvergeReports(server, s, true, items);
      if !FormCurrent(s, form, feed.forms[form]) && Converge(server, s, true, items).site.updated == s.updated {
        QuietPass(server, s, true, items);
      }
    }
  }

  lemma {:induction false} ConvergeReports(server: Server, s: Site, always: bool, items: seq<Item>)
    ensures var t := Converge(server, s, always, items).site; t.notes == s.notes && t.current == s.current && t.installed == s.installed
    decreases |items|
  {
    if items == [] || RelativeName(items[0].url, items[0].subdir).Err? {
    } else {
      var rel := RelativeName(items[0].url, items[0].subdir).value;
      ConvergeReports(server, FetchInto(server, s, items[0].url, rel).site, always, items[1..]);
      ConvergeReports(server, s, always, items[1..]);
    }
  }

  lemma {:induction false} RecordAllReports(s: Site, members: seq<Member>)
    ensures var t := RecordAll(s, members); t.notes == s.notes && t.current == s.current && t.installed == s.installed
    decreases |members|
  {
    if members == [] {
    } else {
      RecordAllReports(Record(s, FromZip(members[0].path), SaftRel(members[0].path), members[0].data), members[1..]);
    }
  }

  /** The targets a bare run can only note, in order. */
  function Noted(feed: Feed, targets: seq<string>): seq<string> {
    if targets == [] then []
    else (if targets[0] == "D406T" || targets[0] !in feed.forms then [targets[0]] else []) + Noted(feed, targets[1..])
  }

  /** The notes of a completed run: a bare run's are exactly the targets it could not
      install, in order; a named run has none. */
  lemma {:induction false} TargetsNoted(server: Server, feed: Feed, s: Site, targets: seq<string>, explicit: bool)
    requires InstallForms(server, feed, s, targets, explicit).Went?
    ensures InstallForms(server, feed, s, targets, explicit).site.notes == s.notes + (if explicit then [] else Noted(feed, targets))
    decreases |targets|
  {
    if targets == [] {
      assert s.notes + [] == s.notes;
    } else {
      var form, rest := targets[0], targets[1..];
      var s1 := InstallForm(server, feed, s, form, explicit).site;
      FormReported(server, feed, s, form, explicit);
      TargetsNoted(server, feed, s1, rest, explicit);
      if !explicit {
        var first := if form == "D406T" || form !in feed.forms then [form] else [];
        assert s1.notes == s.notes + first;
        Regroup(s.notes, first, Noted(feed, rest));
      }
    }
  }

  lemma Regroup(a: seq<string>, b: seq<string>, c: seq<string>)
    ensures a + (b + c) == (a + b) + c
  {
  }

  predicate Listed(s: Site, form: string) {
    form in s.installed || form in s.current
  }

  /** Every other target is listed as installed or as current. */
  lemma {:induction false} TargetsReported(server: Server, feed: Feed, s: Site, targets: seq<string>, explicit: bool)
    requires InstallForms(server, feed, s, targets, explicit).Went?
    ensures var t := InstallForms(server, feed, s, targets, explicit).site;
            && (forall form | Listed(s, form) :: Listed(t, form))
            && forall form | form in targets && (explicit || (form != "D406T" && form in feed.forms)) :: Listed(t, form)
    decreases |targets|
  {
    if targets == [] {
    } else {
      var s1 := InstallForm(server, feed, s, targets[0], explicit).site;
      FormReported(server, feed, s, targets[0], explicit);
      TargetsReported(server, feed, s1, targets[1..], explicit);
      assert forall f | f in targets :: f == targets[0] || f in targets[1..];
    }
  }

  // ---- A bare run's targets ----------------------------------------------------------------------

  /** A bare run's targets: the twelve preinstalled forms, the manifest's, and every form
      whose validator jar is directly in `lib/`, however it got there. */
  lemma DefaultTargetsExactly(s: Site, form: string)
    ensures form in DefaultTargets(s) <==>
            || form in {"D100", "D101", "D112", "D205", "D212", "D300", "D301", "D390", "D394", "D406", "D700", "D710"}
            || form in s.manifest.forms
            || (form != "" && '/' !in form && "lib/" + form + "Validator.jar" in s.disk)
  {
    if form != "" && '/' !in form {
      var jar := "lib/" + form + "Validator.jar";
      assert jar[..4] == "lib/" && jar[4..] == form + "Validator.jar";
      assert jar[|jar| - |VALIDATOR_SUFFIX|..] == VALIDATOR_SUFFIX && jar[4..|jar| - |VALIDATOR_SUFFIX|] == form;
      assert '/' !in VALIDATOR_SUFFIX;
      assert IsValidatorJar(jar) && FormOfJar(jar) == form;
    }
    if form in ScannedForms(s.disk) {
      var p :| p in s.disk && IsValidatorJar(p) && FormOfJar(p) == form;
      JarOfForm(p);
    }
  }

  lemma JarOfForm(p: Path)
    requires IsValidatorJar(p)
    ensures var form := FormOfJar(p); form != "" && '/' !in form && p == "lib/" + form + "Validator.jar"
  {
    var form := FormOfJar(p);
    assert p == p[..4] + form + p[|p| - |VALIDATOR_SUFFIX|..];
    assert forall i | 0 <= i < |form| :: form[i] == p[4..][i];
  }
}
