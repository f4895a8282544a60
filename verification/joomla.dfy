/**
 * `JoomlaScanner` of `modules/joomla_scanner.py`: recognising a Joomla
 * site, reading its version, template and components, and the
 * vulnerability scan. The site is `Site`: `home` answers the scanner's own
 * URL and `fetch(path)` the URL joined with a path.
 */
module Joomla {
  import opened Wrappers
  import opened Text
  import opened Http
  import opened Patterns
  import opened Collections
  import opened Probe
  import Versions

  // ---------------------------------------------------------------------
  // Recognition

  /** `common_paths`, in the order they are requested. */
  const CommonPaths: seq<string> := [
    "/administrator/", "/administrator/index.php", "/administrator/manifests/files/joomla.xml",
    "/language/en-GB/en-GB.xml", "/robots.txt", "/htaccess.txt", "/README.txt", "/configuration.php",
    "/components/", "/modules/", "/templates/", "/plugins/", "/images/", "/includes/", "/cache/",
    "/libraries/", "/installation/"
  ]

  /** `joomla_indicators`: body substrings that give Joomla away. */
  const Indicators: seq<string> := ["joomla", "Joomla", "com_content", "com_users", "mod_", "/templates/", "/components/"]

  /** The header `verify_joomla` reads, and the word looked for in it and in the generator tag. */
  const GeneratorHeader: string := "generator"
  const Word: string := "joomla"

  /** A header `name` whose value, lower-cased, contains `word`. */
  predicate HeaderSays(h: Headers, name: string, word: string) {
    match Header(h, name)
    case Some(v) => Contains(Lower(v), word)
    case None => false
  }

  /**
   * The home-page tests in order: an indicator in the body, then the
   * header, then the `content` of the generator meta tag. `meta(body)`
   * stands for the HTML parser's lookup of that tag (`None` when there is
   * no such tag, the empty text when it has no `content`).
   */
  predicate HomeSignals(home: Option<Response>, indicators: seq<string>, header: string, word: string,
                        meta: string -> Option<string>) {
    Truthy(home) && (
      (exists i :: i in indicators && Contains(home.value.body, i))
      || HeaderSays(home.value.headers, header, word)
      || (meta(home.value.body).Some? && Contains(Lower(meta(home.value.body).value), word)))
  }

  /** `verify_joomla`: three answering paths settle it; otherwise the home page must show Joomla. */
  function VerifyJoomla(site: Site, meta: string -> Option<string>): (r: bool)
    ensures r <==> CountFound(site.fetch, CommonPaths) >= 3 || HomeSignals(site.home, Indicators, GeneratorHeader, Word, meta)
  {
    ThreeFound(site.fetch, CommonPaths) || HomeSignals(site.home, Indicators, GeneratorHeader, Word, meta)
  }

  /** A generator header naming Joomla in any letter case is enough on a true home page. */
  lemma GeneratorHeaderSuffices(site: Site, meta: string -> Option<string>, value: string)
    requires Truthy(site.home) && Header(site.home.value.headers, GeneratorHeader) == Some(value)
    requires Contains(Lower(value), Word)
    ensures VerifyJoomla(site, meta)
  {
  }

  /** Fewer than three paths and a home page that is missing or an error: not Joomla, whatever the tag says. */
  lemma FalsyHomeNotJoomla(site: Site, meta: string -> Option<string>)
    requires CountFound(site.fetch, CommonPaths) < 3 && !Truthy(site.home)
    ensures !VerifyJoomla(site, meta)
  {
  }

  // ---------------------------------------------------------------------
  // Version

  const ManifestPath: string := "/administrator/manifests/files/joomla.xml"
  const LanguagePath: string := "/language/en-GB/en-GB.xml"

  /** `<version>([\d.]+)</version>` */
  const VersionTag: Pattern := Pattern([Lit("<version>")], VersionChars, "</version>")

  /** The four version sources of `_get_joomla_version`, in order. */
  const JoomlaSources: seq<Method> := [
    Method(ManifestPath, VersionTag),
    Method(LanguagePath, VersionTag),
    Method("/README.txt", Pattern([Lit("Joomla!"), Run(Spaces)], VersionChars, "")),
    Method("/", Pattern([Lit("<meta"), Run(Spaces), Lit("name=\"generator\""), Run(Spaces),
                         Lit("content=\"Joomla!"), Run(Spaces)], VersionChars, ""))
  ]

  /** `_get_joomla_version`: the manifest, the language file, the readme, then the generator tag. */
  function JoomlaVersion(site: Site): (r: Option<string>)
    ensures r.Some? <==> exists m :: m in JoomlaSources && Yields(site.fetch)(m)
  {
    ResolveVersion(site.fetch, JoomlaSources)
  }

  /** The version read is a non-empty run of digits and dots. */
  lemma JoomlaVersionDigits(site: Site)
    ensures var r := JoomlaVersion(site);
      r.Some? ==> |r.value| > 0 && forall c :: 0 <= c < |r.value| ==> InClass(r.value[c], VersionChars)
  {
    ResolvedInClass(site.fetch, JoomlaSources, VersionChars);
  }

  /** A manifest that answers 200 with a `<version>` element decides the version. */
  lemma ManifestFirst(site: Site)
    requires Yields(site.fetch)(JoomlaSources[0])
    ensures JoomlaVersion(site) == Search(BodyOf(site.fetch(ManifestPath)), VersionTag)
  {
    FirstSourceWins(site.fetch, JoomlaSources, 0);
  }

  // ---------------------------------------------------------------------
  // Template and components

  /** What `_get_joomla_template` reports. */
  datatype Template = Template(name: string, version: Option<string>, author: Option<string>)

  /** `<author>(.+)</author>` */
  const AuthorTag: Pattern := Pattern([Lit("<author>")], NotNewline, "</author>")

  /** The template's details file. */
  function DetailsPath(name: string): string {
    "/templates/" + name + "/templateDetails.xml"
  }

  /**
   * `_get_joomla_template`: the first `/templates/NAME` of a home page
   * answering 200; its version and author come from `templateDetails.xml`
   * when that answers 200.
   */
  function TemplateOf(site: Site): (r: Option<Template>)
    ensures r.Some? <==> IsOk(site.home) && Search(site.home.value.body, After("/templates/", NotSlash)).Some?
    ensures r.Some? ==> Some(r.value.name) == Search(site.home.value.body, After("/templates/", NotSlash))
    ensures r.Some? && !IsOk(site.fetch(DetailsPath(r.value.name))) ==> r.value.version.None? && r.value.author.None?
    ensures r.Some? && IsOk(site.fetch(DetailsPath(r.value.name))) ==>
      var details := site.fetch(DetailsPath(r.value.name)).value.body;
      r.value.version == Search(details, VersionTag) && r.value.author == Search(details, AuthorTag)
  {
    if !IsOk(site.home) then None
    else
      var body := site.home.value.body;
      var names := FindAll(body, "/templates/", NotSlash);
      FindAllHeadIsSearch(body, "/templates/", NotSlash, 0);
      if |names| == 0 then None
      else
        var details := site.fetch(DetailsPath(names[0]));
        if IsOk(details) then
          Some(Template(names[0], Search(details.value.body, VersionTag), Search(details.value.body, AuthorTag)))
        else Some(Template(names[0], None, None))
  }

  /** Putting `com_` in front keeps distinct names distinct. */
  lemma ComNamesApart(names: seq<string>)
    requires NoDup(names)
    ensures forall i, j :: 0 <= i < j < |names| ==> "com_" + names[i] != "com_" + names[j]
  {
    forall i, j | 0 <= i < j < |names|
      ensures "com_" + names[i] != "com_" + names[j]
    {
      assert ("com_" + names[i])[4..] == names[i];
      assert ("com_" + names[j])[4..] == names[j];
    }
  }

  /** A component's manifest, read for its version. */
  function ComponentSource(name: string): Method {
    Method("/administrator/components/com_" + name + "/" + name + ".xml", VersionTag)
  }

  /** The component names of a home page: every `com_NAME`, each once. */
  function ComponentNames(home: Option<Response>): (r: seq<string>)
    ensures NoDup(r)
    ensures IsOk(home) ==> forall n :: n in r <==> n in FindAll(home.value.body, "com_", WordChars)
    ensures !IsOk(home) ==> r == []
  {
    if IsOk(home) then Distinct(FindAll(home.value.body, "com_", WordChars)) else []
  }

  /**
   * `_get_joomla_components`: one entry `com_NAME` per name, with the
   * version its manifest gives when that answers 200.
   */
  function ComponentsOf(site: Site): (r: seq<Asset>)
    ensures |r| == |ComponentNames(site.home)|
    ensures forall i :: 0 <= i < |r| ==> (r[i].name == "com_" + ComponentNames(site.home)[i]
      && (r[i].version.Some? <==> Yields(site.fetch)(ComponentSource(ComponentNames(site.home)[i])))
      && (r[i].version.Some? ==>
            r[i].version == Search(BodyOf(site.fetch(ComponentSource(ComponentNames(site.home)[i]).path)), VersionTag)))
    ensures forall i, j :: 0 <= i < j < |r| ==> r[i].name != r[j].name
  {
    var names := ComponentNames(site.home);
    ComNamesApart(names);
    var r := seq(|names|, i requires 0 <= i < |names| => ComponentOf(site, names[i]));
    assert forall i :: 0 <= i < |r| ==> r[i] == ComponentOf(site, names[i]);
    r
  }

  /** One component: `com_NAME`, with the version its manifest gives when that answers 200. */
  function ComponentOf(site: Site, name: string): (a: Asset)
    ensures a.name == "com_" + name
    ensures a.version.Some? <==> Yields(site.fetch)(ComponentSource(name))
    ensures a.version.Some? ==> a.version == Search(BodyOf(site.fetch(ComponentSource(name).path)), VersionTag)
  {
    var m := ComponentSource(name);
    Asset("com_" + name, if IsOk(site.fetch(m.path)) then Search(site.fetch(m.path).value.body, VersionTag) else None)
  }

  // ---------------------------------------------------------------------
  // Vulnerability checks

  /**
   * The pattern of an entry: text that `re.search` matches literally, or an
   * expression with one group, kept as its source text and its scanner.
   */
  datatype Expr = Plain(text: string) | Grouped(source: string, pattern: Pattern)

  /** The pattern as written in the table. */
  function Source(e: Expr): string {
    match e
    case Plain(t) => t
    case Grouped(s, _) => s
  }

  /** An entry of `common_vulnerabilities`. */
  datatype Check = Check(name: string, path: string, pattern: Option<Expr>, severity: Severity)

  const InstallationPath: string := "/installation/"
  const ConfigDistPath: string := "/configuration.php-dist"

  /** `<version>([\d.]+)</version>` as written. */
  const VersionTagSource: string := "<version>([\\d.]+)</version>"

  /** `common_vulnerabilities`, in list order. */
  const Checks: seq<Check> := [
    Check("كشف إصدار جوملا", ManifestPath, Some(Grouped(VersionTagSource, VersionTag)), Low),
    Check("كشف إصدار جوملا (طريقة بديلة)", LanguagePath, Some(Grouped(VersionTagSource, VersionTag)), Low),
    Check("وجود مجلد التثبيت", InstallationPath, None, High),
    Check("كشف قائمة المكونات", "/components/", Some(Plain("Index of")), Medium),
    Check("كشف قائمة الموديولات", "/modules/", Some(Plain("Index of")), Medium),
    Check("كشف قائمة القوالب", "/templates/", Some(Plain("Index of")), Medium),
    Check("كشف ملف التكوين", ConfigDistPath, None, High),
    Check("كشف ملف README", "/README.txt", Some(Plain("Joomla")), Low)
  ]

  /**
   * What a match of the entry's pattern reports as evidence: the group for
   * an expression with one, the pattern text otherwise.
   */
  function Evidence(body: string, e: Expr): (r: Option<string>)
    ensures e.Plain? ==> (r.Some? <==> Contains(body, e.text)) && (r.Some? ==> r.value == e.text)
    ensures e.Grouped? ==> r == Search(body, e.pattern)
  {
    match e
    case Plain(t) => if Contains(body, t) then Some(t) else None
    case Grouped(_, p) => Search(body, p)
  }

  /** Which of the table's pattern texts hold a `(`. */
  lemma SourcesParens()
    ensures '(' in VersionTagSource && '(' !in "Index of" && '(' !in "Joomla"
  {
    assert VersionTagSource[9] == '(';
  }

  /**
   * The table agrees with the `'(' in pattern` test the evidence depends
   * on: the group is reported exactly for the expressions with a `(`.
   */
  lemma EvidenceRuleMatchesTable()
    ensures forall i :: 0 <= i < |Checks| && Checks[i].pattern.Some? ==>
      ('(' in Source(Checks[i].pattern.value) <==> Checks[i].pattern.value.Grouped?)
  {
    SourcesParens();
    var grouped, listing, readme := Grouped(VersionTagSource, VersionTag), Plain("Index of"), Plain("Joomla");
    assert RuleAgrees(grouped) && RuleAgrees(listing) && RuleAgrees(readme);
    assert forall i :: 0 <= i < |Checks| ==> Checks[i].pattern in {None, Some(grouped), Some(listing), Some(readme)};
  }

  /** The `'(' in pattern` test picks the group exactly for an expression with one. */
  predicate RuleAgrees(e: Expr) {
    '(' in Source(e) <==> e.Grouped?
  }

  /** The text of a finding for a pattern found at a path. */
  function FoundText(evidence: string, path: string): string {
    "تم العثور على \"" + evidence + "\" في " + path
  }

  /** The text of a finding for an answering path, with its status code. */
  function StatusText(what: string, status: int): string {
    what + " متاح (رمز الحالة: " + IntToString(status) + ")"
  }

  /**
   * `_check_vulnerability`: nothing for a missing or error answer; a
   * pattern is searched for in the body; the installation folder and the
   * sample configuration count on any true answer that is not 404.
   */
  function CheckVulnerability(site: Site, c: Check): (r: Option<Finding>)
    ensures !Truthy(site.fetch(c.path)) ==> r.None?
    ensures r.Some? ==> r.value.name == c.name && r.value.severity == c.severity
    ensures Truthy(site.fetch(c.path)) && c.pattern.Some? && Source(c.pattern.value) != "" ==>
      r == match Evidence(site.fetch(c.path).value.body, c.pattern.value)
           case Some(ev) => Some(Finding(c.name, c.severity, FoundText(ev, c.path)))
           case None => None
  {
    var resp := site.fetch(c.path);
    if !Truthy(resp) then None
    else
      var a := resp.value;
      if c.pattern.Some? && Source(c.pattern.value) != "" then
        match Evidence(a.body, c.pattern.value)
        case Some(ev) => Some(Finding(c.name, c.severity, FoundText(ev, c.path)))
        case None => None
      else if c.path == InstallationPath && a.status != 404 then
        Some(Finding(c.name, c.severity, StatusText("مجلد التثبيت", a.status)))
      else if c.path == ConfigDistPath && a.status != 404 then
        Some(Finding(c.name, c.severity, StatusText("ملف التكوين النموذجي", a.status)))
      else None
  }

  /** The installation folder is reported on any true answer, with its status code. */
  lemma InstallationOnAnyAnswer(site: Site, c: Check)
    requires c.path == InstallationPath && c.pattern.None?
    ensures CheckVulnerability(site, c).Some? <==> Truthy(site.fetch(c.path))
    ensures CheckVulnerability(site, c).Some? ==>
      CheckVulnerability(site, c).value.evidence == StatusText("مجلد التثبيت", site.fetch(c.path).value.status)
  {
  }

  /** The sample configuration is reported on any true answer, with its status code. */
  lemma ConfigDistOnAnyAnswer(site: Site, c: Check)
    requires c.path == ConfigDistPath && c.pattern.None?
    ensures CheckVulnerability(site, c).Some? <==> Truthy(site.fetch(c.path))
    ensures CheckVulnerability(site, c).Some? ==>
      CheckVulnerability(site, c).value.evidence == StatusText("ملف التكوين النموذجي", site.fetch(c.path).value.status)
  {
    assert |InstallationPath| != |ConfigDistPath|;
  }

  /** An entry with a grouped expression reports what the group captured, a non-empty run of its class. */
  lemma GroupedEvidence(site: Site, c: Check, src: string, p: Pattern)
    requires c.pattern == Some(Grouped(src, p)) && src != ""
    requires CheckVulnerability(site, c).Some?
    ensures exists v :: (|v| > 0 && (forall k :: 0 <= k < |v| ==> InClass(v[k], p.capture))
      && Search(site.fetch(c.path).value.body, p) == Some(v)
      && CheckVulnerability(site, c).value.evidence == FoundText(v, c.path))
  {
    var body := site.fetch(c.path).value.body;
    SearchInClass(body, p);
    var v := Search(body, p).value;
    assert CheckVulnerability(site, c).value.evidence == FoundText(v, c.path);
  }

  /** The manifest entry reports the version it read, a non-empty run of digits and dots. */
  lemma ManifestEvidenceIsVersion(site: Site)
    requires CheckVulnerability(site, Checks[0]).Some?
    ensures exists v :: (|v| > 0 && (forall k :: 0 <= k < |v| ==> InClass(v[k], VersionChars))
      && Search(site.fetch(ManifestPath).value.body, VersionTag) == Some(v)
      && CheckVulnerability(site, Checks[0]).value.evidence == FoundText(v, ManifestPath))
  {
    assert |VersionTagSource| > 0;
    GroupedEvidence(site, Checks[0], VersionTagSource, VersionTag);
  }

  // ---------------------------------------------------------------------
  // The scan

  const OutdatedCoreName: string := "إصدار جوملا قديم"
  const AdminPath: string := "/administrator/"

  /** The checks of the table, in submission order. */
  function StaticFindings(site: Site): (r: seq<Finding>)
    ensures forall f :: f in r <==> exists c :: c in Checks && CheckVulnerability(site, c) == Some(f)
  {
    var results := seq(|Checks|, i requires 0 <= i < |Checks| => CheckVulnerability(site, Checks[i]));
    assert forall f :: Some(f) in results <==> exists c :: c in Checks && CheckVulnerability(site, c) == Some(f) by {
      forall f | exists c :: c in Checks && CheckVulnerability(site, c) == Some(f)
        ensures Some(f) in results
      {
        var c :| c in Checks && CheckVulnerability(site, c) == Some(f);
        var i :| 0 <= i < |Checks| && Checks[i] == c;
        assert results[i] == Some(f);
      }
    }
    Present(results)
  }

  const AdminName: string := "صفحة تسجيل الدخول الافتراضية"

  /** The default login page: reported with its URL when `/administrator/` answers 200. */
  function AdminFindings(site: Site, adminUrl: string): (r: seq<Finding>)
    ensures |r| <= 1
    ensures |r| == 1 <==> IsOk(site.fetch(AdminPath))
    ensures |r| == 1 ==> r[0] == Finding(AdminName, Low, adminUrl)
  {
    if IsOk(site.fetch(AdminPath)) then [Finding(AdminName, Low, adminUrl)] else []
  }

  /**
   * `scan_vulnerabilities`: the table's findings in order, then the
   * outdated-core finding, then the login page; `adminUrl` is the site's
   * URL joined with `/administrator/`. A version with a segment that is not
   * a number raises and the scan returns [].
   */
  function ScanVulnerabilities(site: Site, adminUrl: string): (r: seq<Finding>)
    ensures OutdatedCore(JoomlaVersion(site), Versions.JoomlaLatest, OutdatedCoreName).Err? ==> r == []
  {
    Assemble(StaticFindings(site), OutdatedCore(JoomlaVersion(site), Versions.JoomlaLatest, OutdatedCoreName),
      AdminFindings(site, adminUrl))
  }

  /**
   * With a readable version, the table's findings come first, the
   * outdated-core finding (when the version is below 4.3.3) next, and the
   * login page last.
   */
  lemma ScanOrder(site: Site, adminUrl: string)
    requires OutdatedCore(JoomlaVersion(site), Versions.JoomlaLatest, OutdatedCoreName).Ok?
    ensures var s := StaticFindings(site);
      var core := OutdatedCore(JoomlaVersion(site), Versions.JoomlaLatest, OutdatedCoreName).value;
      var r := ScanVulnerabilities(site, adminUrl);
      && r[..|s|] == s
      && r[|s|..|s| + |core|] == core
      && r[|s| + |core|..] == AdminFindings(site, adminUrl)
      && (|core| == 1 <==> (JoomlaVersion(site).Some?
            && Versions.IsOutdated(JoomlaVersion(site).value, Versions.JoomlaLatest) == Ok(true)))
  {
    var v := JoomlaVersion(site);
    var core := OutdatedCore(v, Versions.JoomlaLatest, OutdatedCoreName);
    assert ScanVulnerabilities(site, adminUrl) == Assemble(StaticFindings(site), core, AdminFindings(site, adminUrl));
  }

  /** A version with an empty segment, such as `4.3.`, throws away every finding, the login page's too. */
  lemma MalformedVersionEmpties(site: Site, adminUrl: string)
    requires JoomlaVersion(site).Some? && Versions.ParseVersion(JoomlaVersion(site).value).Err?
    ensures ScanVulnerabilities(site, adminUrl) == []
  {
  }
}
