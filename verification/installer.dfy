/** The convergent DUKIntegrator installer (src/anafpy/declaratii/install.py).

    The dist directory is a map from relative paths to bytes; the manifest file is kept
    apart from it as `saved` (`None`: missing or unreadable). The update feed is parsed
    already, and a URL is its host and path. SHA-256 is modelled as injective. */
module Installer {
  import opened NameOrder
  import opened Wrappers

  type Bytes = seq<int>
  type Path = string
  type Disk = map<Path, Bytes>

  datatype Digest = Sha256(of: Bytes)
  datatype Url = Url(host: string, path: string)

  const SAFT_FORM := "D406T"
  const SAFT_VALIDATOR := "D406TValidator.jar"
  const SAFT_PDF := "D406TPdf.jar"
  const SAFT_HISTORY := "D406TIstoriaVersiunilor.txt"
  const ALLOWED_HOST := "static.anaf.ro"
  const PART_SUFFIX := ".anafpy-part"
  const VALIDATOR_SUFFIX := "Validator.jar"
  const PREINSTALL_FORMS: set<string> :=
    {"D100", "D101", "D112", "D205", "D212", "D300", "D301", "D390", "D394", "D406", "D700", "D710"}

  datatype FeedForm = FeedForm(version: string, validator: Url, pdf: Option<Url>, history: Option<Url>)
  datatype Feed = Feed(coreVersion: string, rootJars: seq<Url>, libJars: seq<Url>, configFiles: seq<Url>,
                       forms: map<string, FeedForm>)

  datatype Source = FromUrl(url: Url) | FromZip(member: string)
  datatype InstalledFile = InstalledFile(source: Source, sha256: Digest, size: nat)
  datatype Manifest = Manifest(coreVersion: string, files: map<Path, InstalledFile>, forms: map<string, string>)

  /** What the network answers: file bodies by URL (a missing one is a download error), and
      the SAF-T archive's members with the version its history names. */
  datatype Member = Member(path: string, data: Bytes)
  datatype SaftZip = SaftZip(members: seq<Member>, version: string)
  datatype Server = Server(files: map<Url, Bytes>, saft: Option<SaftZip>)

  datatype Error =
    | NoCoreJars
    | UnknownForm(form: string)
    | UnusableUrl(url: Url)
    | UnexpectedHost(url: Url)
    | DownloadFailed(url: Url)
    | SaftDownloadFailed
    | NoSaftValidator

  /** A file that was downloaded and put in place (an entry of `updated_files`). */
  datatype Stored = Stored(rel: Path, data: Bytes, source: Source)

  /** Everything an install run reads and changes. */
  datatype Site = Site(
    disk: Disk,
    manifest: Manifest,
    updated: seq<Stored>,
    installed: map<string, string>,
    current: map<string, string>,
    notes: seq<string>)

  datatype Step = Went(site: Site) | Raised(site: Site, error: Error)

  // ---- Names ---------------------------------------------------------------------------

  function LastSegment(p: string): string {
    if p == "" || p[|p| - 1] == '/' then "" else LastSegment(p[..|p| - 1]) + [p[|p| - 1]]
  }

  /** `PurePosixPath(p).name`: the last component that is neither empty nor ".". */
  function Basename(p: string): string
    decreases |p|
  {
    var seg := LastSegment(p);
    if seg != "" && seg != "." then seg
    else if |p| <= |seg| then ""
    else Basename(p[..|p| - |seg| - 1])
  }

  function RelativeName(url: Url, subdir: string): Result<Path, Error> {
    var name := Basename(url.path);
    if name == "" || name == ".." then Err(UnusableUrl(url))
    else Ok(if subdir == "" then name else subdir + "/" + name)
  }

  function PartName(rel: Path): Path {
    rel + PART_SUFFIX
  }

  function Fetch(server: Server, url: Url): Result<Bytes, Error> {
    if url.host != ALLOWED_HOST then Err(UnexpectedHost(url))
    else if url !in server.files then Err(DownloadFailed(url))
    else Ok(server.files[url])
  }

  // ---- One file ------------------------------------------------------------------------

  /** `_write` in two steps, so that a crash can fall between them. */
  function PutPart(disk: Disk, rel: Path, data: Bytes): Disk {
    disk[PartName(rel) := data]
  }

  function Promote(disk: Disk, rel: Path): Disk {
    if PartName(rel) !in disk then disk else (disk - {PartName(rel)})[rel := disk[PartName(rel)]]
  }

  function Write(disk: Disk, rel: Path, data: Bytes): Disk {
    Promote(PutPart(disk, rel, data), rel)
  }

  predicate IsCurrent(s: Site, rel: Path) {
    rel in s.manifest.files && rel in s.disk && Sha256(s.disk[rel]) == s.manifest.files[rel].sha256
  }

  function Record(s: Site, source: Source, rel: Path, data: Bytes): Site {
    s.(disk := Write(s.disk, rel, data),
       manifest := s.manifest.(files := s.manifest.files[rel := InstalledFile(source, Sha256(data), |data|)]),
       updated := s.updated + [Stored(rel, data, source)])
  }

  function FetchInto(server: Server, s: Site, url: Url, rel: Path): Step {
    match Fetch(server, url)
    case Err(e) => Raised(s, e)
    case Ok(data) => Went(Record(s, FromUrl(url), rel, data))
  }

  // ---- Lists of files --------------------------------------------------------------------

  datatype Item = Item(url: Url, subdir: string)

  /** Fetch each listed file that is not current (every one, with `always`). */
  function Converge(server: Server, s: Site, always: bool, items: seq<Item>): Step
    decreases |items|
  {
    if items == [] then Went(s) else
    match RelativeName(items[0].url, items[0].subdir)
    case Err(e) => Raised(s, e)
    case Ok(rel) =>
      if always || !IsCurrent(s, rel) then
        var step := FetchInto(server, s, items[0].url, rel);
        if step.Raised? then step else Converge(server, step.site, always, items[1..])
      else Converge(server, s, always, items[1..])
  }

  function Items(urls: seq<Url>, subdir: string): seq<Item> {
    seq(|urls|, i requires 0 <= i < |urls| => Item(urls[i], subdir))
  }

  function BaseItems(feed: Feed): seq<Item> {
    Items(feed.rootJars, "") + Items(feed.libJars, "lib") + Items(feed.configFiles, "config")
  }

  function FormItems(entry: FeedForm): seq<Item> {
    Items([entry.validator] + (if entry.pdf.Some? then [entry.pdf.value] else [])
          + (if entry.history.Some? then [entry.history.value] else []), "lib")
  }

  /** The error of the first unusable name, if any. */
  function FirstBadName(items: seq<Item>): Option<Error> {
    if items == [] then None else
    match RelativeName(items[0].url, items[0].subdir)
    case Err(e) => Some(e)
    case Ok(_) => FirstBadName(items[1..])
  }

  predicate AllCurrent(s: Site, items: seq<Item>) {
    forall i | 0 <= i < |items| :: var r := RelativeName(items[i].url, items[i].subdir); r.Ok? && IsCurrent(s, r.value)
  }

  // ---- Forms -----------------------------------------------------------------------------

  predicate Wanted(name: string) {
    name == SAFT_VALIDATOR || name == SAFT_PDF || name == SAFT_HISTORY
  }

  /** The wanted members under their basenames, first occurrence of each, in order. */
  function Extracted(members: seq<Member>): seq<Member> {
    if members == [] then [] else
    var before := Extracted(members[..|members| - 1]);
    var m := members[|members| - 1];
    var name := Basename(m.path);
    if Wanted(name) && !(exists i | 0 <= i < |before| :: before[i].path == name) then before + [Member(name, m.data)]
    else before
  }

  predicate Holds(members: seq<Member>, name: string) {
    exists i | 0 <= i < |members| :: members[i].path == name
  }

  function SaftRel(name: string): Path {
    "lib/" + name
  }

  function RecordAll(s: Site, members: seq<Member>): Site
    decreases |members|
  {
    if members == [] then s
    else RecordAll(Record(s, FromZip(members[0].path), SaftRel(members[0].path), members[0].data), members[1..])
  }

  predicate SaftCurrent(s: Site) {
    SAFT_FORM in s.manifest.forms && IsCurrent(s, SaftRel(SAFT_VALIDATOR)) && IsCurrent(s, SaftRel(SAFT_PDF))
  }

  function SetForm(s: Site, form: string, version: string): Site {
    s.(manifest := s.manifest.(forms := s.manifest.forms[form := version]), installed := s.installed[form := version])
  }

  function InstallSaft(server: Server, s: Site): Step {
    if SaftCurrent(s) then Went(s.(current := s.current[SAFT_FORM := s.manifest.forms[SAFT_FORM]]))
    else if server.saft.None? then Raised(s, SaftDownloadFailed)
    else
      var extracted := Extracted(server.saft.value.members);
      if !Holds(extracted, SAFT_VALIDATOR) then Raised(s, NoSaftValidator)
      else Went(SetForm(RecordAll(s, extracted), SAFT_FORM, server.saft.value.version))
  }

  predicate FormCurrent(s: Site, form: string, entry: FeedForm) {
    form in s.manifest.forms && s.manifest.forms[form] == entry.version && AllCurrent(s, FormItems(entry))
  }

  function InstallForm(server: Server, feed: Feed, s: Site, form: string, explicit: bool): Step {
    if form == SAFT_FORM then
      if explicit then InstallSaft(server, s) else Went(s.(notes := s.notes + [form]))
    else if form !in feed.forms then
      if explicit then Raised(s, UnknownForm(form)) else Went(s.(notes := s.notes + [form]))
    else
      var entry := feed.forms[form];
      var bad := FirstBadName(FormItems(entry));
      if bad.Some? then Raised(s, bad.value)
      else if FormCurrent(s, form, entry) then Went(s.(current := s.current[form := entry.version]))
      else
        var step := Converge(server, s, true, FormItems(entry));
        if step.Raised? then step else Went(SetForm(step.site, form, entry.version))
  }

  function InstallForms(server: Server, feed: Feed, s: Site, targets: seq<string>, explicit: bool): Step
    decreases |targets|
  {
    if targets == [] then Went(s) else
    var step := InstallForm(server, feed, s, targets[0], explicit);
    if step.Raised? then step else InstallForms(server, feed, step.site, targets[1..], explicit)
  }

  // ---- install() ---------------------------------------------------------------------------

  /** `lib/<form>Validator.jar`, directly in `lib/`, for a non-empty form name. */
  predicate IsValidatorJar(p: Path) {
    && |p| > 4 + |VALIDATOR_SUFFIX|
    && p[..4] == "lib/"
    && '/' !in p[4..]
    && p[|p| - |VALIDATOR_SUFFIX|..] == VALIDATOR_SUFFIX
  }

  function FormOfJar(p: Path): string
    requires IsValidatorJar(p)
  {
    p[4..|p| - |VALIDATOR_SUFFIX|]
  }

  function ScannedForms(disk: Disk): set<string> {
    set p | p in disk && IsValidatorJar(p) :: FormOfJar(p)
  }

  function DefaultTargets(s: Site): set<string> {
    PREINSTALL_FORMS + s.manifest.forms.Keys + ScannedForms(s.disk)
  }

  const EMPTY_MANIFEST := Manifest("", map[], map[])

  function Opened(disk: Disk, saved: Option<Manifest>): Site {
    Site(disk, if saved.Some? then saved.value else EMPTY_MANIFEST, [], map[], map[], [])
  }

  /** The core and config pass. */
  function InstallBase(server: Server, feed: Feed, disk: Disk, saved: Option<Manifest>): Step {
    var s := Opened(disk, saved);
    if feed.rootJars == [] || feed.libJars == [] then Raised(s, NoCoreJars)
    else Converge(server, s, s.manifest.coreVersion != feed.coreVersion, BaseItems(feed))
  }

  /** The whole run over `targets`: the named forms, or for a bare install the default
      targets in some order. The manifest is saved only when this goes through. */
  function Install(server: Server, feed: Feed, disk: Disk, saved: Option<Manifest>, targets: seq<string>, explicit: bool): Step {
    var base := InstallBase(server, feed, disk, saved);
    if base.Raised? then base else
    var step := InstallForms(server, feed, base.site, targets, explicit);
    if step.Raised? then step
    else Went(step.site.(manifest := step.site.manifest.(coreVersion := feed.coreVersion)))
  }

  /** `targets` is what the code would compute after the base pass. */
  predicate RightTargets(base: Site, targets: seq<string>, explicit: bool) {
    if explicit then targets != [] else Elements(targets) == DefaultTargets(base)
  }

  // ---- The installer object ------------------------------------------------------------------

  /** `None` is a normal return of the source's coroutine, `Some` the exception. */
  function Outcome(site: Site, error: Option<Error>): Step {
    if error.None? then Went(site) else Raised(site, error.value)
  }

  class DukInstaller {
    var disk: Disk
    var saved: Option<Manifest>
    // The working manifest and report of the current run.
    var manifest: Manifest
    var updated: seq<Stored>
    var installed: map<string, string>
    var current: map<string, string>
    var notes: seq<string>

    constructor (disk: Disk, saved: Option<Manifest>)
      ensures this.disk == disk && this.saved == saved
    {
      this.disk, this.saved := disk, saved;
      manifest, updated, installed, current, notes := EMPTY_MANIFEST, [], map[], map[], [];
    }

    function View(): Site
      reads this
    {
      Site(disk, manifest, updated, installed, current, notes)
    }

    method WriteFile(rel: Path, data: Bytes)
      modifies this`disk
      ensures disk == Write(old(disk), rel, data)
    {
      disk := disk[PartName(rel) := data];
      disk := (disk - {PartName(rel)})[rel := disk[PartName(rel)]];
    }

    method RecordFile(source: Source, rel: Path, data: Bytes)
      modifies this
      ensures View() == Record(old(View()), source, rel, data) && saved == old(saved)
    {
      WriteFile(rel, data);
      manifest := manifest.(files := manifest.files[rel := InstalledFile(source, Sha256(data), |data|)]);
      updated := updated + [Stored(rel, data, source)];
    }

    method FetchIntoDist(server: Server, url: Url, rel: Path) returns (error: Option<Error>)
      modifies this
      ensures Outcome(View(), error) == FetchInto(server, old(View()), url, rel) && saved == old(saved)
    {
      var data := Fetch(server, url);
      if data.Err? {
        return Some(data.error);
      }
      RecordFile(FromUrl(url), rel, data.value);
      return None;
    }

    method ConvergeItems(server: Server, always: bool, items: seq<Item>) returns (error: Option<Error>)
      modifies this
      ensures Outcome(View(), error) == Converge(server, old(View()), always, items) && saved == old(saved)
    {
      for i := 0 to |items|
        invariant Converge(server, View(), always, items[i..]) == Converge(server, old(View()), always, items)
        invariant saved == old(saved)
      {
        assert items[i..][1..] == items[i + 1..];
        var rel := RelativeName(items[i].url, items[i].subdir);
        if rel.Err? {
          return Some(rel.error);
        }
        if always || !IsCurrent(View(), rel.value) {
          error := FetchIntoDist(server, items[i].url, rel.value);
          if error.Some? {
            return;
          }
        }
      }
      return None;
    }

    static method ExtractWanted(members: seq<Member>) returns (extracted: seq<Member>)
      ensures extracted == Extracted(members)
    {
      extracted := [];
      for i := 0 to |members|
        invariant extracted == Extracted(members[..i])
      {
        assert members[..i + 1][..i] == members[..i];
        var name := Basename(members[i].path);
        if Wanted(name) && !Holds(extracted, name) {
          extracted := extracted + [Member(name, members[i].data)];
        }
      }
      assert members[..|members|] == members;
    }

    method InstallSaftForm(server: Server) returns (error: Option<Error>)
      modifies this
      ensures Outcome(View(), error) == InstallSaft(server, old(View())) && saved == old(saved)
    {
      if SaftCurrent(View()) {
        current := current[SAFT_FORM := manifest.forms[SAFT_FORM]];
        return None;
      }
      if server.saft.None? {
        return Some(SaftDownloadFailed);
      }
      var extracted := ExtractWanted(server.saft.value.members);
      if !Holds(extracted, SAFT_VALIDATOR) {
        return Some(NoSaftValidator);
      }
      for i := 0 to |extracted|
        invariant RecordAll(View(), extracted[i..]) == RecordAll(old(View()), extracted)
        invariant saved == old(saved)
      {
        assert extracted[i..][1..] == extracted[i + 1..];
        RecordFile(FromZip(extracted[i].path), SaftRel(extracted[i].path), extracted[i].data);
      }
      FinishForm(SAFT_FORM, server.saft.value.version);
      return None;
    }

    method FinishForm(form: string, version: string)
      modifies this
      ensures View() == SetForm(old(View()), form, version) && saved == old(saved)
    {
      manifest := manifest.(forms := manifest.forms[form := version]);
      installed := installed[form := version];
    }

    method InstallOneForm(server: Server, feed: Feed, form: string, explicit: bool) returns (error: Option<Error>)
      modifies this
      ensures Outcome(View(), error) == InstallForm(server, feed, old(View()), form, explicit) && saved == old(saved)
    {
      if form == SAFT_FORM {
        if explicit {
          error := InstallSaftForm(server);
        } else {
          notes := notes + [form];
          error := None;
        }
        return;
      }
      if form !in feed.forms {
        if explicit {
          return Some(UnknownForm(form));
        }
        notes := notes + [form];
        return None;
      }
      var entry := feed.forms[form];
      error := FirstBadName(FormItems(entry));
      if error.Some? {
        return;
      }
      if FormCurrent(View(), form, entry) {
        current := current[form := entry.version];
        return None;
      }
      error := ConvergeItems(server, true, FormItems(entry));
      if error.None? {
        FinishForm(form, entry.version);
      }
    }

    /** The default targets, each once, in order. */
    method PickTargets() returns (targets: seq<string>)
      ensures Elements(targets) == DefaultTargets(View()) && Ordered(targets)
    {
      targets := Sorted(DefaultTargets(View()));
    }

    /** `sorted(...)`: the least name left, one after another. */
    static method Sorted(names: set<string>) returns (sorted: seq<string>)
      ensures Elements(sorted) == names && Ordered(sorted)
    {
      var left := names;
      sorted := [];
      while left != {}
        invariant Elements(sorted) + left == names
        invariant Ordered(sorted) && AllBefore(sorted, left)
        decreases |left|
      {
        LeastExists(left);
        var t :| t in left && Least(t, left);
        ElementsAppend(sorted, t);
        MoveOne(Elements(sorted), left, t);
        OrderedAppend(sorted, t, left);
        sorted := sorted + [t];
        left := left - {t};
      }
    }

    /** The loop over the target forms. */
    method InstallTargets(server: Server, feed: Feed, targets: seq<string>, explicit: bool) returns (error: Option<Error>)
      modifies this
      ensures Outcome(View(), error) == InstallForms(server, feed, old(View()), targets, explicit) && saved == old(saved)
    {
      for i := 0 to |targets|
        invariant InstallForms(server, feed, View(), targets[i..], explicit) == InstallForms(server, feed, old(View()), targets, explicit)
        invariant saved == old(saved)
      {
        assert targets[i..][1..] == targets[i + 1..];
        error := InstallOneForm(server, feed, targets[i], explicit);
        if error.Some? {
          return;
        }
      }
      return None;
    }

    /** `install(forms)` with the names already stripped and upper-cased. */
    method InstallDist(server: Server, feed: Feed, requested: seq<string>)
      returns (targets: seq<string>, error: Option<Error>)
      modifies this
      ensures Outcome(View(), error) == Install(server, feed, old(disk), old(saved), targets, requested != [])
      ensures requested != [] ==> targets == requested
      ensures requested == [] ==> Ordered(targets)
      ensures InstallBase(server, feed, old(disk), old(saved)).Went? ==>
                RightTargets(InstallBase(server, feed, old(disk), old(saved)).site, targets, requested != [])
      ensures saved == if error.None? then Some(manifest) else old(saved)
    {
      targets := requested;
      manifest := if saved.Some? then saved.value else EMPTY_MANIFEST;
      updated, installed, current, notes := [], map[], map[], [];
      if feed.rootJars == [] || feed.libJars == [] {
        return targets, Some(NoCoreJars);
      }
      error := ConvergeItems(server, manifest.coreVersion != feed.coreVersion, BaseItems(feed));
      if error.Some? {
        return;
      }
      if requested == [] {
        targets := PickTargets();
      }
      error := InstallTargets(server, feed, targets, requested != []);
      if error.Some? {
        return;
      }
      manifest := manifest.(coreVersion := feed.coreVersion);
      saved := Some(manifest);
    }
  }
}
