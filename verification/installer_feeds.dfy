/** What can be told from the feed alone, and feeds on which the installer does not do what
    it is for. Storing a file goes through a temporary name; a feed that lists that very
    name too can lose a file to it, depending on the order. */
module InstallerFeeds {
  import opened Installer
  import opened InstallerAgain
  import opened InstallerConvergence
  import opened NameOrder
  import opened Wrappers

  // ---- The order of a listing ----------------------------------------------------------------

  /** The listing's order saves every file: one named like a later file's temporary is
      listed again after that. */
  ghost predicate InOrder(items: seq<Item>) {
    forall i, j | 0 <= i < j < |items| && NameIsPartOf(items[i], items[j]) ::
      exists k :: j < k < |items| && SameName(items[k], items[i])
  }

  predicate NameIsPartOf(a: Item, b: Item) {
    var m, n := RelativeName(a.url, a.subdir), RelativeName(b.url, b.subdir);
    m.Ok? && n.Ok? && m.value == PartName(n.value)
  }

  predicate SameName(a: Item, b: Item) {
    RelativeName(a.url, a.subdir) == RelativeName(b.url, b.subdir)
  }

  /** `log` stores exactly the files of `items`, in order. */
  ghost predicate Stores(log: seq<Stored>, items: seq<Item>) {
    |log| == |items| && forall i | 0 <= i < |items| :: RelativeName(items[i].url, items[i].subdir) == Ok(log[i].rel)
  }

  lemma StoresThen(a: seq<Stored>, b: seq<Stored>, c: seq<Stored>, x: seq<Item>, y: seq<Item>)
    requires a <= b <= c && Stores(b[|a|..], x) && Stores(c[|b|..], y)
    ensures a <= c && Stores(c[|a|..], x + y)
  {
  }

  /** A stored listing is clean exactly when it is in order. */
  lemma CleanInOrder(log: seq<Stored>, items: seq<Item>)
    requires Stores(log, items)
    ensures Clean(log, Rels(items)) <==> InOrder(items)
  {
    if InOrder(items) {
      forall p | p in Rels(items) ensures !Clobbered(log, p) {
        var i :| 0 <= i < |items| && RelativeName(items[i].url, items[i].subdir) == Ok(p);
        InOrderKeeps(log, items, i, p);
      }
    } else {
      var i, j :| 0 <= i < j < |items| && NameIsPartOf(items[i], items[j]) && forall k | j < k < |items| :: !SameName(items[k], items[i]);
      OutOfOrderClobbers(log, items, i, j);
      assert log[i].rel in Rels(items);
    }
  }

  lemma InOrderKeeps(log: seq<Stored>, items: seq<Item>, i: nat, p: Path)
    requires Stores(log, items) && InOrder(items) && i < |items| && log[i].rel == p
    ensures !Clobbered(log, p)
  {
  }

  lemma OutOfOrderClobbers(log: seq<Stored>, items: seq<Item>, i: nat, j: nat)
    requires Stores(log, items) && i < j < |items| && NameIsPartOf(items[i], items[j])
    requires forall k | j < k < |items| :: !SameName(items[k], items[i])
    ensures Clobbered(log, log[i].rel)
  {
  }

  lemma {:induction false} FullPassStores(server: Server, s: Site, items: seq<Item>)
    requires Converge(server, s, true, items).Went?
    ensures var end := Converge(server, s, true, items).site;
            s.updated <= end.updated && Stores(end.updated[|s.updated|..], items)
    decreases |items|
  {
    if items == [] {
    } else {
      var rel := RelativeName(items[0].url, items[0].subdir).value;
      var s1, end := FetchInto(server, s, items[0].url, rel).site, Converge(server, s, true, items).site;
      FullPassStores(server, s1, items[1..]);
      var n := |s.updated|;
      assert s1.updated[n..] == [s1.updated[n]] && s1.updated[n].rel == rel;
      assert items == [items[0]] + items[1..];
      assert Stores(s1.updated[n..], [items[0]]);
      StoresThen(s.updated, s1.updated, end.updated, [items[0]], items[1..]);
    }
  }

  /** A full pass leaves all its files current exactly when its order saves them. */
  lemma FullPassExactly(server: Server, s: Site, items: seq<Item>)
    requires Converge(server, s, true, items).Went?
    ensures AllCurrent(Converge(server, s, true, items).site, items) <==> InOrder(items)
  {
    var end := Converge(server, s, true, items).site;
    FullPassStores(server, s, items);
    ConvergeReaches(server, s, true, items);
    ConvergeLogged(Rels(items), ItemSet(items), server, s, true, items);
    AllCurrentExactly(Rels(items), ItemSet(items), server, s, end, items);
    CleanInOrder(end.updated[|s.updated|..], items);
  }

  // ---- A first install -----------------------------------------------------------------------

  function ListedFor(feed: Feed, form: string): seq<Item> {
    if form != SAFT_FORM && form in feed.forms then FormItems(feed.forms[form]) else []
  }

  function ListedForAll(feed: Feed, targets: seq<string>): seq<Item> {
    if targets == [] then [] else ListedFor(feed, targets[0]) + ListedForAll(feed, targets[1..])
  }

  ghost predicate NewForms(m: Manifest, targets: seq<string>) {
    && (forall i | 0 <= i < |targets| :: targets[i] !in m.forms)
    && (forall i, j | 0 <= i < j < |targets| :: targets[i] != targets[j])
  }

  lemma {:induction false} NewFormsStore(server: Server, feed: Feed, s: Site, targets: seq<string>, explicit: bool)
    requires InstallForms(server, feed, s, targets, explicit).Went?
    requires NewForms(s.manifest, targets) && !(SAFT_FORM in targets && explicit)
    ensures var end := InstallForms(server, feed, s, targets, explicit).site;
            s.updated <= end.updated && Stores(end.updated[|s.updated|..], ListedForAll(feed, targets))
    decreases |targets|
  {
    if targets == [] {
    } else {
      var form, rest := targets[0], targets[1..];
      var s1, end := InstallForm(server, feed, s, form, explicit).site, InstallForms(server, feed, s, targets, explicit).site;
      var n := |s.updated|;
      assert form in targets;
      assert s.updated <= s1.updated && Stores(s1.updated[n..], ListedFor(feed, form)) by {
        if form != SAFT_FORM && form in feed.forms {
          FullPassStores(server, s, FormItems(feed.forms[form]));
          assert s1.updated == Converge(server, s, true, FormItems(feed.forms[form])).site.updated;
        }
      }
      OnlyOwnForm(server, feed, s, form, explicit);
      assert forall i | 0 <= i < |rest| :: rest[i] == targets[i + 1];
      NewFormsStore(server, feed, s1, rest, explicit);
      StoresThen(s.updated, s1.updated, end.updated, ListedFor(feed, form), ListedForAll(feed, rest));
    }
  }

  lemma {:induction false} CleanListed(feed: Feed, targets: seq<string>, log: seq<Stored>)
    ensures Clean(log, Rels(ListedForAll(feed, targets))) <==>
            forall i | 0 <= i < |targets| && targets[i] != SAFT_FORM :: Clean(log, NeededBy(feed, targets[i], false))
  {
    if targets == [] {
    } else {
      var rest := targets[1..];
      CleanListed(feed, rest, log);
      RelsConcat(ListedFor(feed, targets[0]), ListedForAll(feed, rest));
      assert targets[0] != SAFT_FORM ==> NeededBy(feed, targets[0], false) == Rels(ListedFor(feed, targets[0]));
      assert forall i | 0 <= i < |rest| :: rest[i] == targets[i + 1];
      assert forall i | 0 < i < |targets| :: targets[i] == rest[i - 1];
    }
  }

  lemma RelsConcat(a: seq<Item>, b: seq<Item>)
    ensures Rels(a + b) == Rels(a) + Rels(b)
  {
    assert forall i | 0 <= i < |a| :: (a + b)[i] == a[i];
    assert forall i | 0 <= i < |b| :: (a + b)[|a| + i] == b[i];
  }

  /** A first install converges exactly when the feed's order saves every file: a condition
      on the listing alone, whatever is on the disk. */
  lemma FirstInstallConverges(server: Server, feed: Feed, disk: Disk, targets: seq<string>, explicit: bool)
    requires Install(server, feed, disk, None, targets, explicit).Went? && feed.coreVersion != ""
    requires NewForms(EMPTY_MANIFEST, targets) && !(SAFT_FORM in targets && explicit)
    ensures Settled(feed, Install(server, feed, disk, None, targets, explicit).site, targets, explicit)
            <==> InOrder(BaseItems(feed) + ListedForAll(feed, targets))
  {
    var s, end := Opened(disk, None), Install(server, feed, disk, None, targets, explicit).site;
    var base := InstallBase(server, feed, disk, None).site;
    var items := BaseItems(feed);
    FullPassStores(server, s, items);
    ConvergeForms(server, s, true, items);
    NewFormsStore(server, feed, base, targets, explicit);
    StoresThen([], base.updated, end.updated, items, ListedForAll(feed, targets));
    assert end.updated[0..] == end.updated;
    CleanInOrder(end.updated, items + ListedForAll(feed, targets));
    RelsConcat(items, ListedForAll(feed, targets));
    CleanListed(feed, targets, end.updated);
    InstallConverges(server, feed, disk, None, targets, explicit);
    forall i | 0 <= i < |targets|
      ensures FormHolds(feed, s, end, targets[i], explicit)
              <==> (targets[i] != SAFT_FORM ==> Clean(end.updated, NeededBy(feed, targets[i], false)))
    {
      assert targets[i] == SAFT_FORM ==> !explicit;
    }
  }

  // ---- Feeds the parser lets through ---------------------------------------------------------

  predicate EndsWith(s: string, suffix: string) {
    |s| >= |suffix| && s[|s| - |suffix|..] == suffix
  }

  /** A URL of the allowed host, as its parts come out of a parse. */
  predicate IsHosted(url: Url) {
    url.host == ALLOWED_HOST && url.path != "" && url.path[0] == '/'
  }

  /** What the feed's parser keeps: root jars that are jars, and forms that have a name, a
      version and a validator. */
  ghost predicate Parsed(feed: Feed) {
    && (forall u | u in feed.rootJars :: IsHosted(u) && EndsWith(u.path, ".jar"))
    && (forall u | u in feed.libJars + feed.configFiles :: IsHosted(u))
    && forall f | f in feed.forms ::
         && f != "" && feed.forms[f].version != ""
         && IsHosted(feed.forms[f].validator) && EndsWith(feed.forms[f].validator.path, VALIDATOR_SUFFIX)
  }

  function Hosted(name: string): Url {
    Url(ALLOWED_HOST, "/" + name)
  }

  lemma {:induction false} SlashSegment(name: string)
    requires '/' !in name
    ensures LastSegment("/" + name) == name
  {
    var p := "/" + name;
    if name == "" {
    } else {
      SlashSegment(name[..|name| - 1]);
      assert p[..|p| - 1] == "/" + name[..|name| - 1];
      assert name == name[..|name| - 1] + [name[|name| - 1]];
    }
  }

  lemma PlainName(name: string, subdir: string)
    requires '/' !in name && name !in {"", ".", ".."}
    ensures RelativeName(Hosted(name), subdir) == Ok(if subdir == "" then name else subdir + "/" + name)
  {
    SlashSegment(name);
  }

  ghost predicate Served(server: Server, item: Item) {
    RelativeName(item.url, item.subdir).Ok? && item.url.host == ALLOWED_HOST && item.url in server.files
  }

  lemma {:induction false} ServedPassGoes(server: Server, s: Site, always: bool, items: seq<Item>)
    requires forall i | 0 <= i < |items| :: Served(server, items[i])
    ensures Converge(server, s, always, items).Went?
    decreases |items|
  {
    if items == [] {
    } else {
      assert Served(server, items[0]);
      assert forall i | 0 <= i < |items[1..]| :: items[1..][i] == items[i + 1];
      var rel := RelativeName(items[0].url, items[0].subdir).value;
      ServedPassGoes(server, FetchInto(server, s, items[0].url, rel).site, always, items[1..]);
      ServedPassGoes(server, s, always, items[1..]);
    }
  }

  lemma ServedFormGoes(server: Server, feed: Feed, s: Site, form: string, explicit: bool)
    requires form != SAFT_FORM && form in feed.forms
    requires forall i | 0 <= i < |FormItems(feed.forms[form])| :: Served(server, FormItems(feed.forms[form])[i])
    ensures InstallForm(server, feed, s, form, explicit).Went?
  {
    AllNamed(FormItems(feed.forms[form]));
    ServedPassGoes(server, s, true, FormItems(feed.forms[form]));
  }

  /** When every listed file of the targets is served, their turns go through. */
  lemma {:induction false} ServedFormsGo(server: Server, feed: Feed, s: Site, targets: seq<string>, explicit: bool)
    requires forall i | 0 <= i < |targets| :: targets[i] != SAFT_FORM && (explicit ==> targets[i] in feed.forms)
    requires forall item | item in FormListings(feed, targets) :: Served(server, item)
    ensures InstallForms(server, feed, s, targets, explicit).Went?
    decreases |targets|
  {
    if targets == [] {
    } else {
      var form, rest := targets[0], targets[1..];
      if form in feed.forms {
        var items := FormItems(feed.forms[form]);
        assert forall i | 0 <= i < |items| :: items[i] in FormListing(feed, form);
        ServedFormGoes(server, feed, s, form, explicit);
      }
      assert forall i | 0 <= i < |rest| :: rest[i] == targets[i + 1];
      ServedFormsGo(server, feed, InstallForm(server, feed, s, form, explicit).site, rest, explicit);
    }
  }

  lemma ServedBaseGoes(server: Server, feed: Feed, disk: Disk, saved: Option<Manifest>)
    requires feed.rootJars != [] && feed.libJars != []
    requires forall i | 0 <= i < |BaseItems(feed)| :: Served(server, BaseItems(feed)[i])
    ensures InstallBase(server, feed, disk, saved).Went?
  {
    var s := Opened(disk, saved);
    ServedPassGoes(server, s, s.manifest.coreVersion != feed.coreVersion, BaseItems(feed));
  }

  /** A name and the temporary name of the file it gives, both as feed names. */
  lemma PartOfName(name: string, subdir: string)
    requires '/' !in name && |name| > 2 && subdir != ""
    ensures RelativeName(Hosted(name), subdir) == Ok(subdir + "/" + name)
    ensures RelativeName(Hosted(name + PART_SUFFIX), subdir) == Ok(PartName(subdir + "/" + name))
    ensures NameIsPartOf(Item(Hosted(name + PART_SUFFIX), subdir), Item(Hosted(name), subdir))
  {
    PlainName(name, subdir);
    assert '/' !in PART_SUFFIX;
    PlainName(name + PART_SUFFIX, subdir);
    assert subdir + "/" + (name + PART_SUFFIX) == (subdir + "/" + name) + PART_SUFFIX;
  }

  const ROOT_JAR := Hosted("a.jar")
  const LIB_JAR := Hosted("b.jar")

  predicate ServesJars(server: Server) {
    ROOT_JAR in server.files && LIB_JAR in server.files
  }

  lemma JarsAreServed(server: Server)
    requires ServesJars(server)
    ensures Served(server, Item(ROOT_JAR, "")) && RelativeName(ROOT_JAR, "") == Ok("a.jar")
    ensures Served(server, Item(LIB_JAR, "lib")) && RelativeName(LIB_JAR, "lib") == Ok("lib/b.jar")
  {
    PlainName("a.jar", "");
    PlainName("b.jar", "lib");
    assert "lib" + "/" + "b.jar" == "lib/b.jar";
  }

  /** A feed of two jars, and what else is given. */
  function JarFeed(configFiles: seq<Url>, forms: map<string, FeedForm>): Feed {
    Feed("1", [ROOT_JAR], [LIB_JAR], configFiles, forms)
  }

  lemma JarFeedIsParsed(configFiles: seq<Url>, forms: map<string, FeedForm>)
    requires forall u | u in configFiles :: IsHosted(u)
    requires forall f | f in forms :: f != "" && forms[f].version != "" && IsHosted(forms[f].validator)
                                      && EndsWith(forms[f].validator.path, VALIDATOR_SUFFIX)
    ensures Parsed(JarFeed(configFiles, forms))
  {
  }

  lemma JarFeedItems(configFiles: seq<Url>, forms: map<string, FeedForm>)
    ensures BaseItems(JarFeed(configFiles, forms)) == [Item(ROOT_JAR, ""), Item(LIB_JAR, "lib")] + Items(configFiles, "config")
  {
  }

  // ---- A file lost to another one's temporary ----------------------------------------------------

  /** A feed with two config files `name` and its temporary name, the latter first, and one
      form. */
  function ClobberingFeed(name: string, validator: Url): Feed {
    JarFeed([Hosted(name + PART_SUFFIX), Hosted(name)], map["F" := FeedForm("1", validator, None, None)])
  }

  lemma ClobberingListing(name: string, validator: Url)
    ensures var feed := ClobberingFeed(name, validator);
            && FormListings(feed, ["F"]) == {Item(validator, "lib")}
            && ListedForAll(feed, ["F"]) == [Item(validator, "lib")]
            && BaseItems(feed) == [Item(ROOT_JAR, ""), Item(LIB_JAR, "lib"), Item(Hosted(name + PART_SUFFIX), "config"), Item(Hosted(name), "config")]
  {
    var feed := ClobberingFeed(name, validator);
    JarFeedItems(feed.configFiles, feed.forms);
    var form := FormItems(feed.forms["F"]);
    assert form == [Item(validator, "lib")];
    assert ["F"][1..] == [] && "F" != SAFT_FORM;
    assert FormListings(feed, []) == {} && ListedForAll(feed, []) == [];
    assert ItemSet(form) == {form[0]};
    assert ListedForAll(feed, ["F"]) == form;
  }

  lemma ClobberingOrder(name: string, validator: Url)
    requires '/' !in name && |name| > 2 && RelativeName(validator, "lib").Ok?
    ensures !InOrder(BaseItems(ClobberingFeed(name, validator)) + ListedForAll(ClobberingFeed(name, validator), ["F"]))
  {
    ClobberingListing(name, validator);
    PartOfName(name, "config");
    var items := BaseItems(ClobberingFeed(name, validator)) + ListedForAll(ClobberingFeed(name, validator), ["F"]);
    assert items[2] == Item(Hosted(name + PART_SUFFIX), "config") && items[3] == Item(Hosted(name), "config");
    assert NameIsPartOf(items[2], items[3]);
    assert |items| == 5 && !SameName(items[4], items[2]) by {
      assert RelativeName(validator, "lib").value[0] == 'l' && PartName("config" + "/" + name)[0] == 'c';
    }
  }

  lemma ClobberingGoes(server: Server, disk: Disk, name: string, validator: Url)
    requires '/' !in name && |name| > 2
    requires ServesJars(server) && Hosted(name) in server.files && Hosted(name + PART_SUFFIX) in server.files
    requires Served(server, Item(validator, "lib"))
    ensures Install(server, ClobberingFeed(name, validator), disk, None, ["F"], true).Went?
  {
    var feed := ClobberingFeed(name, validator);
    ClobberingListing(name, validator);
    JarsAreServed(server);
    PartOfName(name, "config");
    ServedBaseGoes(server, feed, disk, None);
    assert ["F"][0] != SAFT_FORM && ["F"][0] in feed.forms;
    ServedFormsGo(server, feed, InstallBase(server, feed, disk, None).site, ["F"], true);
  }

  /** Two config files, one called like the other's temporary and listed first: from any
      disk, with every file served, the first install completes and has lost it, and the
      same run again is not quiet. */
  lemma ClobberedInstall(server: Server, later: Server, disk: Disk, name: string, validator: Url)
    requires '/' !in name && |name| > 2 && IsHosted(validator) && EndsWith(validator.path, VALIDATOR_SUFFIX)
    requires ServesJars(server) && Hosted(name) in server.files && Hosted(name + PART_SUFFIX) in server.files
    requires Served(server, Item(validator, "lib"))
    ensures Parsed(ClobberingFeed(name, validator))
    ensures var step := Install(server, ClobberingFeed(name, validator), disk, None, ["F"], true);
            && step.Went? && !Settled(ClobberingFeed(name, validator), step.site, ["F"], true)
            && !Quiet(Install(later, ClobberingFeed(name, validator), step.site.disk, Some(step.site.manifest), ["F"], true))
  {
    var feed := ClobberingFeed(name, validator);
    JarFeedIsParsed(feed.configFiles, feed.forms);
    ClobberingGoes(server, disk, name, validator);
    ClobberingOrder(name, validator);
    FirstInstallConverges(server, feed, disk, ["F"], true);
    QuietExactly(later, feed, Install(server, feed, disk, None, ["F"], true).site, ["F"], true);
  }

  // ---- An archive without the viewer jar ---------------------------------------------------------------

  /** The base pass of a two-jar feed stores nothing but its two jars. */
  lemma JarBase(server: Server, forms: map<string, FeedForm>, disk: Disk)
    requires ServesJars(server)
    ensures var feed := JarFeed([], forms);
            var base := InstallBase(server, feed, disk, None);
            && base.Went? && base.site.manifest.forms == map[]
            && Logged({"a.jar", "lib/b.jar"}, ItemSet(BaseItems(feed)), server, Opened(disk, None), base.site)
  {
    var feed := JarFeed([], forms);
    var items := BaseItems(feed);
    JarFeedItems([], forms);
    JarsAreServed(server);
    assert items == [Item(ROOT_JAR, ""), Item(LIB_JAR, "lib")];
    ServedBaseGoes(server, feed, disk, None);
    ConvergeForms(server, Opened(disk, None), true, items);
    ConvergeLogged({"a.jar", "lib/b.jar"}, ItemSet(items), server, Opened(disk, None), true, items);
  }

  /** A named D406T completes from any site when the archive holds the validator jar only,
      and stays unsettled if the viewer jar was not there. */
  lemma SaftUnsettled(server: Server, base: Site, validator: Bytes)
    requires server.saft == Some(SaftZip([Member(SAFT_VALIDATOR, validator)], "unknown")) && !IsCurrent(base, SaftRel(SAFT_PDF))
    ensures var step := InstallForms(server, JarFeed([], map[]), base, [SAFT_FORM], true);
            step.Went? && !SaftCurrent(step.site)
  {
    var feed := JarFeed([], map[]);
    OnlyValidator(validator);
    SaftSettlesExactly(server, base);
    var after := InstallForm(server, feed, base, SAFT_FORM, true).site;
    assert InstallForms(server, feed, base, [SAFT_FORM], true) == InstallForms(server, feed, after, [SAFT_FORM][1..], true) == Went(after);
  }

  /** The archive holds the validator jar only: from any disk, a first install of D406T by
      name completes without settling, and the same run again downloads the archive again. */
  lemma ViewerJarMissing(server: Server, later: Server, disk: Disk, validator: Bytes)
    requires ServesJars(server) && server.saft == Some(SaftZip([Member(SAFT_VALIDATOR, validator)], "unknown"))
    ensures Parsed(JarFeed([], map[]))
    ensures var feed := JarFeed([], map[]);
            var step := Install(server, feed, disk, None, [SAFT_FORM], true);
            && step.Went? && !Settled(feed, step.site, [SAFT_FORM], true)
            && !Quiet(Install(later, feed, step.site.disk, Some(step.site.manifest), [SAFT_FORM], true))
  {
    var feed := JarFeed([], map[]);
    JarFeedIsParsed([], map[]);
    JarBase(server, map[], disk);
    var s, base := Opened(disk, None), InstallBase(server, feed, disk, None).site;
    NoViewerJar(server, feed, s, base);
    SaftUnsettled(server, base, validator);
    var after, end := InstallForms(server, feed, base, [SAFT_FORM], true).site, Install(server, feed, disk, None, [SAFT_FORM], true).site;
    assert IsCurrent(end, SaftRel(SAFT_PDF)) <==> IsCurrent(after, SaftRel(SAFT_PDF));
    assert IsCurrent(end, SaftRel(SAFT_VALIDATOR)) <==> IsCurrent(after, SaftRel(SAFT_VALIDATOR));
    assert !FormSettled(feed, end, [SAFT_FORM][0], true);
    QuietExactly(later, feed, end, [SAFT_FORM], true);
  }

  lemma NoViewerJar(server: Server, feed: Feed, s: Site, base: Site)
    requires s.manifest == EMPTY_MANIFEST && Logged({"a.jar", "lib/b.jar"}, ItemSet(BaseItems(feed)), server, s, base)
    ensures !IsCurrent(base, SaftRel(SAFT_PDF))
  {
    var pdf := SaftRel(SAFT_PDF);
    CurrentExactly({"a.jar", "lib/b.jar"}, ItemSet(BaseItems(feed)), server, s, base, pdf);
    assert |pdf| == 16 && |"lib/b.jar"| == 9 && |"a.jar"| == 5;
  }

  lemma OnlyValidator(validator: Bytes)
    ensures var e := Extracted([Member(SAFT_VALIDATOR, validator)]); Holds(e, SAFT_VALIDATOR) && !Holds(e, SAFT_PDF)
  {
    var members := [Member(SAFT_VALIDATOR, validator)];
    assert '/' !in SAFT_VALIDATOR;
    PlainSegment(SAFT_VALIDATOR);
    ExtractedAreWanted(members);
    assert Names(members, SAFT_VALIDATOR) by {
      assert Basename(members[0].path) == SAFT_VALIDATOR;
    }
    assert SAFT_VALIDATOR != SAFT_PDF;
  }

  lemma {:induction false} PlainSegment(p: string)
    requires '/' !in p
    ensures LastSegment(p) == p
  {
    if p == "" {
    } else {
      PlainSegment(p[..|p| - 1]);
      assert p == p[..|p| - 1] + [p[|p| - 1]];
    }
  }

  // ---- A form that brings another one in ----------------------------------------------------------------

  /** Where a form's own validator jar goes. */
  function JarOf(form: string): Path {
    "lib/" + (form + VALIDATOR_SUFFIX)
  }

  lemma OwnJar(form: string)
    requires '/' !in form && form != ""
    ensures var url := Hosted(form + VALIDATOR_SUFFIX);
            IsHosted(url) && EndsWith(url.path, VALIDATOR_SUFFIX) && RelativeName(url, "lib") == Ok(JarOf(form))
    ensures IsValidatorJar(JarOf(form)) && FormOfJar(JarOf(form)) == form
  {
    HostedEnds(form, VALIDATOR_SUFFIX);
    ValidatorName(form, VALIDATOR_SUFFIX);
    JarParts(form);
  }

  lemma HostedEnds(form: string, suffix: string)
    ensures IsHosted(Hosted(form + suffix)) && EndsWith(Hosted(form + suffix).path, suffix)
  {
  }

  lemma ValidatorName(form: string, suffix: string)
    requires '/' !in form && suffix == VALIDATOR_SUFFIX
    ensures RelativeName(Hosted(form + suffix), "lib") == Ok("lib/" + (form + suffix))
  {
    assert '/' !in suffix && |suffix| == 13;
    PlainName(form + suffix, "lib");
    assert "lib" + "/" == "lib/";
  }

  lemma JarParts(form: string)
    requires '/' !in form && form != ""
    ensures IsValidatorJar(JarOf(form)) && FormOfJar(JarOf(form)) == form
  {
    var jar, n := JarOf(form), |VALIDATOR_SUFFIX|;
    assert '/' !in VALIDATOR_SUFFIX;
    assert jar == "lib/" + form + VALIDATOR_SUFFIX;
    assert jar[..4] == "lib/" && jar[4..] == form + VALIDATOR_SUFFIX;
    assert jar[|jar| - n..] == VALIDATOR_SUFFIX && jar[4..|jar| - n] == form;
  }

  const OTHER_JAR := Hosted("D999" + VALIDATOR_SUFFIX)
  const BRINGING_FORMS := map["D100" := FeedForm("1", OTHER_JAR, None, None), "D999" := FeedForm("1", OTHER_JAR, None, None)]

  lemma BringsD999(targets: seq<string>)
    requires "D100" in targets && "D999" !in Elements(targets)
    ensures !BringsNoForm(JarFeed([], BRINGING_FORMS), targets)
  {
    var feed, jar := JarFeed([], BRINGING_FORMS), JarOf("D999");
    OwnJar("D999");
    assert FormItems(feed.forms["D100"])[0] == Item(OTHER_JAR, "lib");
    assert jar in TargetRels(feed, "D100");
    var i :| 0 <= i < |targets| && targets[i] == "D100";
    TargetRelsIn(feed, targets, i);
    assert FormOfJar(jar) in feed.forms && FormOfJar(jar) != SAFT_FORM;
  }

  /** D100's validator jar is called D999's: from an empty disk the bare install completes,
      and the next one, which finds D999 in the scan, is not quiet. */
  lemma FormBroughtIn(server: Server, later: Server, targets: seq<string>, targets': seq<string>)
    requires ServesJars(server) && OTHER_JAR in server.files
    requires Elements(targets) == PREINSTALL_FORMS
    ensures Parsed(JarFeed([], BRINGING_FORMS))
    ensures var feed := JarFeed([], BRINGING_FORMS);
            var step := Install(server, feed, map[], None, targets, false);
            && RightTargets(InstallBase(server, feed, map[], None).site, targets, false)
            && step.Went?
            && (RightTargets(InstallBase(later, feed, step.site.disk, Some(step.site.manifest)).site, targets', false) ==>
                  !Quiet(Install(later, feed, step.site.disk, Some(step.site.manifest), targets', false)))
  {
    var feed := JarFeed([], BRINGING_FORMS);
    OwnJar("D999");
    JarFeedIsParsed([], BRINGING_FORMS);
    BringingGoes(server, targets);
    Preinstalled(targets);
    BringsD999(targets);
    var s := Install(server, feed, map[], None, targets, false).site;
    if RightTargets(InstallBase(later, feed, s.disk, Some(s.manifest)).site, targets', false) {
      SecondBareRun(server, later, feed, map[], None, targets, targets');
    }
  }

  lemma Preinstalled(targets: seq<string>)
    requires Elements(targets) == PREINSTALL_FORMS
    ensures "D100" in targets && "D999" !in Elements(targets) && SAFT_FORM !in targets
  {
    assert "D100" in Elements(targets) && SAFT_FORM !in Elements(targets);
  }

  lemma BringingGoes(server: Server, targets: seq<string>)
    requires ServesJars(server) && OTHER_JAR in server.files
    requires Elements(targets) == PREINSTALL_FORMS
    ensures var feed := JarFeed([], BRINGING_FORMS);
            && RightTargets(InstallBase(server, feed, map[], None).site, targets, false)
            && Install(server, feed, map[], None, targets, false).Went?
  {
    var feed := JarFeed([], BRINGING_FORMS);
    JarBase(server, BRINGING_FORMS, map[]);
    var base := InstallBase(server, feed, map[], None).site;
    NothingScanned(server, feed, base);
    NoMoreTargets(base);
    BringingIsServed(server, targets);
    assert SAFT_FORM !in targets by {
      Preinstalled(targets);
    }
    ServedFormsGo(server, feed, base, targets, false);
  }

  lemma NoMoreTargets(base: Site)
    requires base.manifest.forms == map[] && ScannedForms(base.disk) == {}
    ensures DefaultTargets(base) == PREINSTALL_FORMS
  {
  }

  lemma NothingScanned(server: Server, feed: Feed, base: Site)
    requires Logged({"a.jar", "lib/b.jar"}, ItemSet(BaseItems(feed)), server, Opened(map[], None), base)
    ensures ScannedForms(base.disk) == {}
  {
    forall p | p in base.disk ensures !IsValidatorJar(p) {
      assert base.updated[0..] == base.updated;
      ReplayDomain(map[], base.updated, p);
      assert p in {"a.jar", "lib/b.jar"};
      assert |"a.jar"| == 5 && |"lib/b.jar"| == 9 && |VALIDATOR_SUFFIX| == 13;
    }
  }

  lemma {:induction false} BringingIsServed(server: Server, targets: seq<string>)
    requires OTHER_JAR in server.files
    ensures forall item | item in FormListings(JarFeed([], BRINGING_FORMS), targets) :: Served(server, item)
  {
    if targets == [] {
    } else {
      BringingIsServed(server, targets[1..]);
      OwnJar("D999");
      if targets[0] in BRINGING_FORMS {
        assert FormItems(BRINGING_FORMS[targets[0]]) == [Item(OTHER_JAR, "lib")];
      }
    }
  }
}
