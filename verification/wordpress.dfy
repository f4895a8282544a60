/**
 * `WordpressScanner` of `modules/wordpress_scanner.py`: recognising a
 * WordPress site, reading its version, theme and plugins, and the
 * vulnerability scan. The site is `Site`: `home` answers the scanner's own
 * URL and `fetch(path)` the URL joined with a path.
 */
module WordPress {
  import opened Wrappers
  import opened Text
  import opened Http
  import opened Patterns
  import opened Collections
  import opened Probe
  import Versions

  // ---------------------------------------------------------------------
  // Recognition

  /** `common_paths`, in the order they are requested. */
  const CommonPaths: seq<string> := [
    "/wp-login.php", "/wp-admin/", "/wp-content/", "/wp-includes/", "/wp-json/",
    "/xmlrpc.php", "/wp-config.php", "/wp-cron.php", "/readme.html", "/license.txt"
  ]

  /** `wp_indicators`: body substrings that give WordPress away. */
  const Indicators: seq<string> := ["wp-content", "wp-includes", "WordPress", "wp-json"]

  /** Whether the home page shows one of `indicators`. */
  predicate HomeShows(home: Option<Response>, indicators: seq<string>) {
    Truthy(home) && exists i :: i in indicators && Contains(home.value.body, i)
  }

  /**
   * `verify_wordpress`: three answering paths settle it; otherwise the home
   * page must be a true answer whose body holds an indicator.
   */
  function VerifyWordPress(site: Site): (r: bool)
    ensures r <==> CountFound(site.fetch, CommonPaths) >= 3 || HomeShows(site.home, Indicators)
  {
    ThreeFound(site.fetch, CommonPaths) || HomeShows(site.home, Indicators)
  }

  /** A site answering three of the paths is recognised without looking at its home page. */
  lemma ThreePathsSuffice(site: Site, other: Option<Response>)
    requires CountFound(site.fetch, CommonPaths) >= 3
    ensures VerifyWordPress(site) && VerifyWordPress(Site(other, site.fetch))
  {
  }

  /** Fewer than three paths and a home page that is missing or an error: not WordPress. */
  lemma FalsyHomeNotWordPress(site: Site)
    requires CountFound(site.fetch, CommonPaths) < 3 && !Truthy(site.home)
    ensures !VerifyWordPress(site)
  {
  }

  // ---------------------------------------------------------------------
  // Version

  /** The feed's generator line around the unescaped dot of `wordpress.org`. */
  const FeedHead := "<generator>https://wordpress"
  const FeedRest := "org/?v="

  /** The three version sources of `_get_wordpress_version`, in order. */
  const WordPressSources: seq<Method> := [
    Method("/readme.html", After("Version ", VersionChars)),
    Method("/", Pattern([Lit("<meta name=\"generator\" content=\"WordPress ")], VersionChars, "\">")),
    Method("/feed/", Pattern([Lit(FeedHead), One(NotNewline), Lit(FeedRest)], VersionChars, "</generator>"))
  ]

  /** `_get_wordpress_version`: the readme, then the root page, then the feed. */
  function WordPressVersion(site: Site): (r: Option<string>)
    ensures r.Some? <==> exists m :: m in WordPressSources && Yields(site.fetch)(m)
  {
    ResolveVersion(site.fetch, WordPressSources)
  }

  /** The version read is a non-empty run of digits and dots. */
  lemma WordPressVersionDigits(site: Site)
    ensures var r := WordPressVersion(site);
      r.Some? ==> |r.value| > 0 && forall c :: 0 <= c < |r.value| ==> InClass(r.value[c], VersionChars)
  {
    ResolvedInClass(site.fetch, WordPressSources, VersionChars);
  }

  /** A readme that answers 200 with a `Version x.y` line decides the version. */
  lemma ReadmeFirst(site: Site)
    requires Yields(site.fetch)(WordPressSources[0])
    ensures WordPressVersion(site) == Search(BodyOf(site.fetch("/readme.html")), After("Version ", VersionChars))
  {
    FirstSourceWins(site.fetch, WordPressSources, 0);
  }

  /** With neither the readme nor the root page yielding, the feed decides. */
  lemma FeedLast(site: Site)
    requires !Yields(site.fetch)(WordPressSources[0]) && !Yields(site.fetch)(WordPressSources[1])
    ensures WordPressVersion(site) ==
      if Yields(site.fetch)(WordPressSources[2]) then Search(BodyOf(site.fetch("/feed/")), WordPressSources[2].pattern) else None
  {
    if Yields(site.fetch)(WordPressSources[2]) {
      FirstSourceWins(site.fetch, WordPressSources, 2);
    }
  }

  /**
   * The feed's `wordpress.org` has an unescaped dot: any character but a
   * newline stands in for it, and the version after `?v=` is read.
   */
  lemma FeedDotMatchesAnyChar(x: char, v: string)
    requires x != '\n' && |v| > 0 && forall c :: 0 <= c < |v| ==> InClass(v[c], VersionChars)
    ensures Search(FeedHead + [x] + FeedRest + v + "</generator>", WordPressSources[2].pattern) == Some(v)
  {
    SearchLitOneLit(FeedHead, x, FeedRest, v, NotNewline, VersionChars, "</generator>");
  }

  // ---------------------------------------------------------------------
  // Theme and plugins

  /** What `_get_wordpress_theme` reports: the theme's name and what else it found. */
  datatype Theme = Theme(name: string, version: Option<string>, author: Option<string>)

  /** `Author: (.+)` */
  const AuthorPattern: Pattern := After("Author: ", NotNewline)

  /**
   * `_get_wordpress_theme`: the first `wp-content/themes/NAME` of a home page
   * answering 200. `lookup` is the search for `wp-content/themes/NAME[^>]+ver=`
   * built from that name; when it raises, the report keeps only the name.
   * The author comes from the theme's `style.css` when that answers 200.
   */
  function ThemeOf(site: Site, lookup: string -> Lookup): (r: Option<Theme>)
    ensures r.Some? <==> IsOk(site.home) && Search(site.home.value.body, After("wp-content/themes/", NotSlash)).Some?
    ensures r.Some? ==> Some(r.value.name) == Search(site.home.value.body, After("wp-content/themes/", NotSlash))
    ensures r.Some? ==> (r.value.version.Some? <==> lookup(r.value.name).Found?)
    ensures r.Some? && lookup(r.value.name).Found? ==> r.value.version == Some(lookup(r.value.name).version)
    ensures r.Some? && lookup(r.value.name).PatternError? ==> r.value.author.None?
    ensures r.Some? && !lookup(r.value.name).PatternError? ==>
      var style := site.fetch(StylePath(r.value.name));
      r.value.author == if IsOk(style) then Search(style.value.body, AuthorPattern) else None
  {
    if !IsOk(site.home) then None
    else
      var body := site.home.value.body;
      var names := FindAll(body, "wp-content/themes/", NotSlash);
      FindAllHeadIsSearch(body, "wp-content/themes/", NotSlash, 0);
      if |names| == 0 then None
      else
        var name := names[0];
        match lookup(name)
        case PatternError => Some(Theme(name, None, None))
        case Found(v) => Some(Styled(site, name, Some(v)))
        case NotFound => Some(Styled(site, name, None))
  }

  /** Where a theme's stylesheet lives. */
  function StylePath(name: string): string {
    "/wp-content/themes/" + name + "/style.css"
  }

  /** The theme with the author its `style.css` names, when that file answers 200. */
  function Styled(site: Site, name: string, version: Option<string>): (r: Theme)
    ensures r.name == name && r.version == version
    ensures IsOk(site.fetch(StylePath(name))) ==> r.author == Search(site.fetch(StylePath(name)).value.body, AuthorPattern)
    ensures !IsOk(site.fetch(StylePath(name))) ==> r.author.None?
  {
    var style := site.fetch(StylePath(name));
    Theme(name, version, if IsOk(style) then Search(style.value.body, AuthorPattern) else None)
  }

  /**
   * The plugin loop: one entry per name, in order, with the version the
   * name's search found. A search that raises ends the loop, and the
   * entries made so far are what `_get_wordpress_plugins` returns.
   */
  function PluginList(names: seq<string>, lookup: string -> Lookup): (r: seq<Asset>)
    ensures |r| <= |names|
    ensures forall i :: 0 <= i < |r| ==> (r[i].name == names[i] && lookup(names[i]) != PatternError
      && (r[i].version.Some? <==> lookup(names[i]).Found?)
      && (r[i].version.Some? ==> r[i].version.value == lookup(names[i]).version))
    ensures |r| < |names| ==> lookup(names[|r|]) == PatternError
    decreases |names|
  {
    if |names| == 0 || lookup(names[0]).PatternError? then []
    else
      var version := if lookup(names[0]).Found? then Some(lookup(names[0]).version) else None;
      var rest := PluginList(names[1..], lookup);
      var r := [Asset(names[0], version)] + rest;
      assert forall i :: 1 <= i < |r| ==> r[i] == rest[i - 1] && names[i] == names[1..][i - 1];
      r
  }

  /** The plugin names of a home page: every `wp-content/plugins/NAME`, each once. */
  function PluginNames(home: Option<Response>): (r: seq<string>)
    ensures NoDup(r)
    ensures IsOk(home) ==> forall n :: n in r <==> n in FindAll(home.value.body, "wp-content/plugins/", NotSlash)
    ensures !IsOk(home) ==> r == []
  {
    if IsOk(home) then Distinct(FindAll(home.value.body, "wp-content/plugins/", NotSlash)) else []
  }

  /** `_get_wordpress_plugins` */
  function PluginsOf(site: Site, lookup: string -> Lookup): seq<Asset> {
    PluginList(PluginNames(site.home), lookup)
  }

  /** Plugin names as listed. */
  function AssetNames(xs: seq<Asset>): (r: seq<string>)
    ensures |r| == |xs|
  {
    MapSeq(xs, (a: Asset) => a.name)
  }

  /**
   * When no search raises, every plugin of the home page is listed exactly
   * once, whether or not a version was found for it.
   */
  lemma PluginsListedOnce(site: Site, lookup: string -> Lookup)
    requires forall n :: n in PluginNames(site.home) ==> lookup(n) != PatternError
    ensures AssetNames(PluginsOf(site, lookup)) == PluginNames(site.home)
    ensures NoDup(AssetNames(PluginsOf(site, lookup)))
  {
  }

  // ---------------------------------------------------------------------
  // Vulnerability checks

  /** One element of a decoded JSON list of users, as the name comprehension sees it. */
  datatype JsonItem =
    | Named(name: string)  // an object with a string "name"
    | Unnamed              // an element without "name"
    | Faulty               // an element the comprehension or the join raises on

  /** What `response.json()` gives: not JSON at all, JSON that is not a list, or a list. */
  datatype JsonDoc = NotJson | NotList | JsonList(items: seq<JsonItem>)

  /** An entry of `common_vulnerabilities`; `pattern` is None for the entries checked case by case. */
  datatype Check = Check(name: string, path: string, pattern: Option<string>, severity: Severity)

  const UsersPath: string := "/wp-json/wp/v2/users"
  const XmlrpcPath: string := "/xmlrpc.php"
  const PostsPath: string := "/wp-json/wp/v2/posts"

  /** `common_vulnerabilities`, in list order. */
  const Checks: seq<Check> := [
    Check("كشف إصدار ووردبريس", "/readme.html", Some("Version ([\\d.]+)"), Low),
    Check("كشف المستخدمين", UsersPath, None, Medium),
    Check("تمكين xmlrpc.php", XmlrpcPath, None, Medium),
    Check("كشف قائمة المقالات", PostsPath, None, Low),
    Check("كشف قائمة القوالب", "/wp-content/themes/", Some("Index of"), Medium),
    Check("كشف قائمة الإضافات", "/wp-content/plugins/", Some("Index of"), Medium)
  ]

  /** The names the users comprehension collects; None when it raises. */
  function UserNames(items: seq<JsonItem>): (r: Option<seq<string>>)
    ensures r.None? <==> Faulty in items
    decreases |items|
  {
    if |items| == 0 then Some([])
    else
      assert forall x :: x in items <==> x == items[0] || x in items[1..];
      match UserNames(items[1..])
      case None => None
      case Some(rest) =>
        match items[0]
        case Faulty => None
        case Unnamed => Some(rest)
        case Named(n) => Some([n] + rest)
  }

  /** The users case: a non-empty list with a readable name for every element that has one. */
  function UsersFinding(c: Check, doc: JsonDoc): (r: Option<Finding>)
    ensures r.Some? <==> doc.JsonList? && |doc.items| > 0 && Faulty !in doc.items
  {
    if doc.JsonList? && |doc.items| > 0 then
      match UserNames(doc.items)
      case None => None
      case Some(names) =>
        Some(Finding(c.name, c.severity, "تم العثور على " + NatToString(|names|) + " مستخدم: " + Join(names, ", ")))
    else None
  }

  /**
   * `_check_vulnerability`: nothing for a missing or error answer; a
   * pattern is looked for as a plain substring; the users and posts
   * endpoints count only when they answer 200 with a non-empty JSON list;
   * `xmlrpc.php` counts on any true answer that is not 404.
   * `json(body)` stands for `response.json()`.
   */
  function CheckVulnerability(site: Site, json: string -> JsonDoc, c: Check): (r: Option<Finding>)
    ensures !Truthy(site.fetch(c.path)) ==> r.None?
    ensures r.Some? ==> r.value.name == c.name && r.value.severity == c.severity
  {
    var resp := site.fetch(c.path);
    if !Truthy(resp) then None
    else
      var a := resp.value;
      if c.pattern.Some? && c.pattern.value != "" then
        if Contains(a.body, c.pattern.value) then
          Some(Finding(c.name, c.severity, "تم العثور على النمط \"" + c.pattern.value + "\" في " + c.path))
        else None
      else if c.path == UsersPath && a.status == 200 then UsersFinding(c, json(a.body))
      else if c.path == XmlrpcPath && a.status != 404 then
        Some(Finding(c.name, c.severity, "ملف xmlrpc.php متاح (رمز الحالة: " + IntToString(a.status) + ")"))
      else if c.path == PostsPath && a.status == 200 then
        match json(a.body)
        case JsonList(items) =>
          if |items| > 0 then Some(Finding(c.name, c.severity, "تم العثور على " + NatToString(|items|) + " مقالة"))
          else None
        case _ => None
      else None
  }

  /** An entry with a pattern reports exactly when its answer is true and holds the pattern as a substring. */
  lemma PatternIsSubstring(site: Site, json: string -> JsonDoc, c: Check)
    requires c.pattern.Some? && c.pattern.value != ""
    ensures CheckVulnerability(site, json, c).Some? <==>
      Truthy(site.fetch(c.path)) && Contains(site.fetch(c.path).value.body, c.pattern.value)
  {
  }

  /** The users endpoint reports only on a 200 answer whose JSON is a non-empty list. */
  lemma UsersNeedList(site: Site, json: string -> JsonDoc, c: Check)
    requires c.path == UsersPath && c.pattern.None?
    ensures CheckVulnerability(site, json, c).Some? <==>
      IsOk(site.fetch(c.path)) && UsersFinding(c, json(site.fetch(c.path).value.body)).Some?
  {
    assert UsersPath != XmlrpcPath by { assert UsersPath[1] != XmlrpcPath[1]; }
  }

  /** `xmlrpc.php` reports on any true answer: 404 is a client error, so no such answer has it. */
  lemma XmlrpcOnAnyAnswer(site: Site, json: string -> JsonDoc, c: Check)
    requires c.path == XmlrpcPath && c.pattern.None?
    ensures CheckVulnerability(site, json, c).Some? <==> Truthy(site.fetch(c.path))
  {
    assert UsersPath != XmlrpcPath by { assert UsersPath[1] != XmlrpcPath[1]; }
  }

  /**
   * The readme entry's pattern is the text of a regular expression, yet it
   * is looked for as a plain substring: a readme reading `Version 6.4.2`
   * does not set it off.
   */
  lemma ReadmePatternIsLiteral(site: Site, json: string -> JsonDoc)
    requires site.fetch("/readme.html") == Some(Response(200, "Version 6.4.2", map[], []))
    ensures CheckVulnerability(site, json, Checks[0]).None?
  {
    NotContainsLonger("Version 6.4.2", "Version ([\\d.]+)");
  }

  // ---------------------------------------------------------------------
  // The scan

  const OutdatedCoreName: string := "إصدار ووردبريس قديم"

  /** A plugin with a version that `_is_outdated_plugin` flags. */
  predicate OutdatedPlugin(p: Asset) {
    p.version.Some? && Versions.IsOutdatedPlugin(p.version.value)
  }

  /** The outdated-plugin findings: only plugins with a version, and only versions `_is_outdated_plugin` flags. */
  function PluginFindings(plugins: seq<Asset>): (r: seq<Finding>)
    ensures forall f :: f in r <==> exists p :: p in plugins && OutdatedPlugin(p) && f == PluginFinding(p)
    ensures |r| <= |plugins|
    decreases |plugins|
  {
    if |plugins| == 0 then []
    else
      assert forall x :: x in plugins <==> x == plugins[0] || x in plugins[1..];
      var p := plugins[0];
      (if OutdatedPlugin(p) then [PluginFinding(p)] else []) + PluginFindings(plugins[1..])
  }

  const PluginNamePrefix: string := "إضافة قديمة: "
  const PluginLabel: string := "الإضافة: "
  const PluginVersionLabel: string := ", الإصدار: "

  /** The finding for one outdated plugin. */
  function PluginFinding(p: Asset): Finding
    requires p.version.Some?
  {
    Finding(PluginNamePrefix + p.name, Medium, PluginLabel + p.name + PluginVersionLabel + p.version.value)
  }

  /** Two plugins with versions give the same finding exactly when they are the same plugin. */
  lemma PluginFindingInjective(p: Asset, q: Asset)
    requires p.version.Some? && q.version.Some?
    ensures PluginFinding(p) == PluginFinding(q) <==> p == q
  {
    if PluginFinding(p) == PluginFinding(q) {
      assert (PluginNamePrefix + p.name)[|PluginNamePrefix|..] == p.name;
      assert (PluginNamePrefix + q.name)[|PluginNamePrefix|..] == q.name;
      var lead := PluginLabel + p.name + PluginVersionLabel;
      assert (lead + p.version.value)[|lead|..] == p.version.value;
      assert (lead + q.version.value)[|lead|..] == q.version.value;
    }
  }

  /** A plugin listed once is reported at most once. */
  lemma {:induction false} PluginFindingsNoDup(plugins: seq<Asset>)
    requires NoDup(plugins)
    ensures NoDup(PluginFindings(plugins))
    decreases |plugins|
  {
    if |plugins| > 0 {
      var p := plugins[0];
      var rest := PluginFindings(plugins[1..]);
      assert NoDup(plugins[1..]);
      PluginFindingsNoDup(plugins[1..]);
      if OutdatedPlugin(p) {
        forall j | 0 <= j < |plugins[1..]|
          ensures plugins[1..][j] != p
        {
          assert plugins[1..][j] == plugins[j + 1];
        }
        forall q | q in plugins[1..] && OutdatedPlugin(q)
          ensures PluginFinding(q) != PluginFinding(p)
        {
          PluginFindingInjective(p, q);
        }
        NoDupAppend([PluginFinding(p)], rest);
      } else {
        assert PluginFindings(plugins) == [] + rest;
      }
    }
  }

  /** The findings follow the plugin list: those of a joined list are those of its parts, in order. */
  lemma {:induction false} PluginFindingsAppend(a: seq<Asset>, b: seq<Asset>)
    ensures PluginFindings(a + b) == PluginFindings(a) + PluginFindings(b)
    decreases |a|
  {
    if |a| == 0 {
      assert a + b == b;
    } else {
      var head := if OutdatedPlugin(a[0]) then [PluginFinding(a[0])] else [];
      assert (a + b)[0] == a[0] && (a + b)[1..] == a[1..] + b;
      assert PluginFindings(a + b) == head + PluginFindings(a[1..] + b);
      assert PluginFindings(a) == head + PluginFindings(a[1..]);
      PluginFindingsAppend(a[1..], b);
    }
  }

  /** One plugin gives its finding exactly when it is outdated. */
  lemma PluginFindingsOne(p: Asset)
    ensures PluginFindings([p]) == if OutdatedPlugin(p) then [PluginFinding(p)] else []
  {
    assert [p][1..] == [];
  }

  /** The checks of the table, in submission order. */
  function StaticFindings(site: Site, json: string -> JsonDoc): (r: seq<Finding>)
    ensures forall f :: f in r <==> exists c :: c in Checks && CheckVulnerability(site, json, c) == Some(f)
  {
    var results := seq(|Checks|, i requires 0 <= i < |Checks| => CheckVulnerability(site, json, Checks[i]));
    assert forall f :: Some(f) in results <==> exists c :: c in Checks && CheckVulnerability(site, json, c) == Some(f) by {
      forall f | exists c :: c in Checks && CheckVulnerability(site, json, c) == Some(f)
        ensures Some(f) in results
      {
        var c :| c in Checks && CheckVulnerability(site, json, c) == Some(f);
        var i :| 0 <= i < |Checks| && Checks[i] == c;
        assert results[i] == Some(f);
      }
    }
    Present(results)
  }

  /**
   * `scan_vulnerabilities`: the table's findings in order, then the
   * outdated-core finding, then the outdated-plugin findings; a version
   * with a segment that is not a number raises and the scan returns [].
   */
  function ScanVulnerabilities(site: Site, json: string -> JsonDoc, lookup: string -> Lookup): (r: seq<Finding>)
    ensures OutdatedCore(WordPressVersion(site), Versions.WordPressLatest, OutdatedCoreName).Err? ==> r == []
  {
    Assemble(StaticFindings(site, json), OutdatedCore(WordPressVersion(site), Versions.WordPressLatest, OutdatedCoreName),
      PluginFindings(PluginsOf(site, lookup)))
  }

  /**
   * The order of the scan: with a readable version, the table's findings
   * come first, the outdated-core finding (when the version is below
   * 6.4.2) next, and the plugin findings last.
   */
  lemma ScanOrder(site: Site, json: string -> JsonDoc, lookup: string -> Lookup)
    requires OutdatedCore(WordPressVersion(site), Versions.WordPressLatest, OutdatedCoreName).Ok?
    ensures var s := StaticFindings(site, json);
      var core := OutdatedCore(WordPressVersion(site), Versions.WordPressLatest, OutdatedCoreName).value;
      var r := ScanVulnerabilities(site, json, lookup);
      && r[..|s|] == s
      && r[|s|..|s| + |core|] == core
      && r[|s| + |core|..] == PluginFindings(PluginsOf(site, lookup))
      && (|core| == 1 <==> (WordPressVersion(site).Some?
            && Versions.IsOutdated(WordPressVersion(site).value, Versions.WordPressLatest) == Ok(true)))
  {
    var v := WordPressVersion(site);
    var core := OutdatedCore(v, Versions.WordPressLatest, OutdatedCoreName);
    assert ScanVulnerabilities(site, json, lookup)
      == Assemble(StaticFindings(site, json), core, PluginFindings(PluginsOf(site, lookup)));
  }

  /** A version with an empty segment, such as `6.4.`, throws away every finding. */
  lemma MalformedVersionEmpties(site: Site, json: string -> JsonDoc, lookup: string -> Lookup)
    requires WordPressVersion(site).Some? && Versions.ParseVersion(WordPressVersion(site).value).Err?
    ensures ScanVulnerabilities(site, json, lookup) == []
  {
  }
}
