/**
 * `WebScanner` of `modules/web_scanner.py`: technology detection, version
 * extraction, the vulnerability checks and the port scan. Each is a pure
 * function of the answer to the scanner's URL (body, headers, cookies), the
 * URL itself and the scanner's static tables.
 */
module Web {
  import opened Wrappers
  import opened Text
  import opened Http
  import opened Patterns
  import opened Collections
  import Urls
  import Utils

  // ---------------------------------------------------------------------
  // Technologies

  /** The version shown for a technology whose version was not found. */
  const UnknownVersion: string := "غير معروف"

  /** `'عالية'` or `'متوسطة'` in the technology list. */
  datatype Confidence = HighConfidence | MediumConfidence

  /** One entry of the technology list. */
  datatype Tech = Tech(name: string, version: string, confidence: Confidence)

  /** One entry of `common_technologies`: a name and the body substrings that reveal it. */
  datatype TechSignature = TechSignature(name: string, patterns: seq<string>)

  /** `common_technologies`, in list order. */
  const CommonTechnologies: seq<TechSignature> := [
    TechSignature("WordPress", ["wp-content", "wp-includes", "WordPress"]),
    TechSignature("Joomla", ["joomla", "Joomla!", "/administrator/"]),
    TechSignature("Drupal", ["Drupal", "drupal"]),
    TechSignature("Magento", ["Magento", "magento"]),
    TechSignature("Shopify", ["Shopify", "shopify"]),
    TechSignature("WooCommerce", ["woocommerce", "WooCommerce"]),
    TechSignature("PrestaShop", ["PrestaShop", "prestashop"]),
    TechSignature("OpenCart", ["OpenCart", "opencart"]),
    TechSignature("Laravel", ["Laravel", "laravel"]),
    TechSignature("Django", ["Django", "django"]),
    TechSignature("Ruby on Rails", ["Ruby on Rails", "rails"]),
    TechSignature("ASP.NET", ["ASP.NET", "asp.net"]),
    TechSignature("PHP", ["PHP", "php"]),
    TechSignature("jQuery", ["jQuery", "jquery"]),
    TechSignature("Bootstrap", ["Bootstrap", "bootstrap"]),
    TechSignature("React", ["React", "react"]),
    TechSignature("Angular", ["Angular", "angular"]),
    TechSignature("Vue.js", ["Vue", "vue"]),
    TechSignature("Node.js", ["Node.js", "node"]),
    TechSignature("Express", ["Express", "express"]),
    TechSignature("Apache", ["Apache", "apache"]),
    TechSignature("Nginx", ["Nginx", "nginx"]),
    TechSignature("IIS", ["IIS", "iis"]),
    TechSignature("Cloudflare", ["Cloudflare", "cloudflare"]),
    TechSignature("Akamai", ["Akamai", "akamai"]),
    TechSignature("Fastly", ["Fastly", "fastly"]),
    TechSignature("Sucuri", ["Sucuri", "sucuri"]),
    TechSignature("Imperva", ["Imperva", "imperva"]),
    TechSignature("ModSecurity", ["ModSecurity", "modsecurity"])
  ]

  /** `[\d.]+` after a literal prefix. */
  function VersionAfter(prefix: string): Pattern {
    After(prefix, VersionChars)
  }

  /** The body expressions of `_detect_version`, per technology, in the order they are tried. */
  const VersionPatterns: map<string, seq<Pattern>> := map[
    "WordPress" := [
      VersionAfter("WordPress "),
      Pattern([Lit("wp-content/themes/"), Run(NotSlash), Lit("/style.css?ver=")], VersionChars, "")],
    "Joomla" := [
      Pattern([Lit("Joomla!"), Run(Spaces)], VersionChars, ""),
      VersionAfter("<meta name=\"generator\" content=\"Joomla! ")],
    "Drupal" := [
      VersionAfter("Drupal "),
      VersionAfter("<meta name=\"generator\" content=\"Drupal ")],
    "PHP" := [VersionAfter("PHP/"), VersionAfter("X-Powered-By: PHP/")],
    "Apache" := [VersionAfter("Apache/"), VersionAfter("Server: Apache/")],
    "Nginx" := [VersionAfter("nginx/"), VersionAfter("Server: nginx/")]
  ]

  /** Whether `re.search(p, s)` finds something. */
  function Finds(s: string): Pattern -> bool {
    p => Search(s, p).Some?
  }

  /** The capture of the first of `patterns` that matches `s`, or None. */
  function FirstSearch(patterns: seq<Pattern>, s: string): (r: Option<string>)
    ensures r.Some? <==> exists p :: p in patterns && Search(s, p).Some?
  {
    var k := FirstWhere(patterns, Finds(s));
    if k < |patterns| then Search(s, patterns[k]) else None
  }

  /** Every version expression captures `[\d.]+`. */
  lemma VersionPatternsCaptureVersions()
    ensures forall t, p :: t in VersionPatterns && p in VersionPatterns[t] ==> p.capture == VersionChars
  {
  }

  /** A non-empty run of `[\d.]`. */
  predicate VersionText(v: string) {
    |v| > 0 && forall c :: 0 <= c < |v| ==> InClass(v[c], VersionChars)
  }

  /** The version the body shows for `tech`: the first of its expressions that matches. */
  function BodyVersion(tech: string, body: string): (r: Option<string>)
    ensures r.Some? ==> VersionText(r.value)
  {
    if tech in VersionPatterns then
      VersionPatternsCaptureVersions();
      VersionsAreVersionChars(VersionPatterns[tech], body);
      FirstSearch(VersionPatterns[tech], body)
    else None
  }

  /** The header fallback: `PHP/` in `X-Powered-By` for PHP, `Apache/` or `Nginx/` in `Server` for those two. */
  function HeaderVersion(tech: string, headers: Headers): (r: Option<string>)
    ensures r.Some? ==> VersionText(r.value)
    ensures r.Some? ==> tech in {"PHP", "Apache", "Nginx"}
  {
    if tech == "PHP" && HasHeader(headers, "X-Powered-By") then
      var v := Header(headers, "X-Powered-By").value;
      SearchInClass(v, VersionAfter("PHP/"));
      Search(v, VersionAfter("PHP/"))
    else if (tech == "Apache" || tech == "Nginx") && HasHeader(headers, "Server") then
      var v := Header(headers, "Server").value;
      SearchInClass(v, VersionAfter(tech + "/"));
      Search(v, VersionAfter(tech + "/"))
    else None
  }

  /** `_detect_version`: the body first, and the headers only when the body shows nothing. */
  function DetectVersion(tech: string, body: string, headers: Headers): (r: Option<string>)
    ensures r.Some? ==> VersionText(r.value)
    ensures BodyVersion(tech, body).Some? ==> r == BodyVersion(tech, body)
    ensures tech !in VersionPatterns ==> r == None
  {
    if BodyVersion(tech, body).Some? then BodyVersion(tech, body) else HeaderVersion(tech, headers)
  }

  /** Every version expression captures `[\d.]+`, so the first that matches yields version characters. */
  lemma VersionsAreVersionChars(patterns: seq<Pattern>, body: string)
    requires forall p :: p in patterns ==> p.capture == VersionChars
    ensures var r := FirstSearch(patterns, body); r.Some? ==> VersionText(r.value)
  {
    var k := FirstWhere(patterns, Finds(body));
    if k < |patterns| {
      SearchInClass(body, patterns[k]);
    }
  }

  /** The header answers for PHP, Apache and Nginx come only when the body shows no version. */
  lemma HeaderOnlyAsFallback(tech: string, body: string, headers: Headers)
    ensures DetectVersion(tech, body, headers).Some? && BodyVersion(tech, body).None? ==>
      tech in {"PHP", "Apache", "Nginx"}
  {
  }

  /** The body expressions are tried in order: the version is the capture of the first that matches. */
  lemma BodyFirstMatchWins(tech: string, body: string, headers: Headers, k: nat)
    requires tech in VersionPatterns && k < |VersionPatterns[tech]|
    requires Search(body, VersionPatterns[tech][k]).Some?
    requires forall j :: 0 <= j < k ==> Search(body, VersionPatterns[tech][j]).None?
    ensures DetectVersion(tech, body, headers) == Search(body, VersionPatterns[tech][k])
  {
    assert FirstWhere(VersionPatterns[tech], Finds(body)) == k;
  }

  /** A technology without body expressions has no version at all. */
  lemma UnlistedHasNoVersion(tech: string, body: string, headers: Headers)
    requires tech !in VersionPatterns
    ensures DetectVersion(tech, body, headers) == None
  {
  }

  /** For Apache and Nginx a silent body leaves the version to the `Server` header's `NAME/x.y` text. */
  lemma ServerHeaderVersion(tech: string, body: string, headers: Headers)
    requires tech == "Apache" || tech == "Nginx"
    requires BodyVersion(tech, body).None? && HasHeader(headers, "Server")
    ensures DetectVersion(tech, body, headers) == Search(Header(headers, "Server").value, VersionAfter(tech + "/"))
  {
  }

  /** Whether the body shows `p` (`pattern in page_content`). */
  function Shows(body: string): string -> bool {
    p => Contains(body, p)
  }

  /** A signature fires when one of its substrings occurs in the body; the first such one stops the scan. */
  predicate Fires(sig: TechSignature, body: string) {
    FirstWhere(sig.patterns, Shows(body)) < |sig.patterns|
  }

  /** A signature fires exactly when some substring of it occurs in the body. */
  lemma FiresIff(sig: TechSignature, body: string)
    ensures Fires(sig, body) <==> exists p :: p in sig.patterns && Contains(body, p)
  {
    FirstWhereFinds(sig.patterns, Shows(body));
  }

  /**
   * The entry for a fired signature: high confidence and the version when
   * one was found, otherwise medium confidence and "unknown".
   */
  function TechOf(sig: TechSignature, body: string, headers: Headers): (t: Tech)
    ensures t.name == sig.name
    ensures t.confidence == HighConfidence <==> DetectVersion(sig.name, body, headers).Some?
    ensures t.confidence == HighConfidence ==> t.version == DetectVersion(sig.name, body, headers).value && VersionText(t.version)
    ensures t.confidence == MediumConfidence ==> t.version == UnknownVersion
  {
    match DetectVersion(sig.name, body, headers)
    case Some(v) => Tech(sig.name, v, HighConfidence)
    case None => Tech(sig.name, UnknownVersion, MediumConfidence)
  }

  /** The names of a list of entries. */
  function Names(techs: seq<Tech>): (r: seq<string>)
    ensures |r| == |techs|
  {
    MapSeq(techs, (t: Tech) => t.name)
  }

  /** The names of a signature table. */
  function SignatureNames(table: seq<TechSignature>): (r: seq<string>)
    ensures |r| == |table|
  {
    MapSeq(table, (sig: TechSignature) => sig.name)
  }

  /**
   * The body pass of `detect_technologies`: one entry per fired signature,
   * in table order; `entry` builds the entry of a fired signature.
   */
  function BodyPass(table: seq<TechSignature>, body: string, entry: TechSignature -> Tech): (r: seq<Tech>)
    requires forall sig :: entry(sig).name == sig.name
    ensures forall t :: t in r <==> exists sig :: sig in table && Fires(sig, body) && t == entry(sig)
    ensures IsSubsequence(Names(r), SignatureNames(table))
    decreases |table|
  {
    if |table| == 0 then []
    else
      var rest := BodyPass(table[1..], body, entry);
      assert SignatureNames(table)[1..] == SignatureNames(table[1..]);
      assert forall sig :: sig in table <==> sig == table[0] || sig in table[1..];
      if Fires(table[0], body) then
        var t := entry(table[0]);
        assert Names([t] + rest)[1..] == Names(rest);
        [t] + rest
      else rest
  }

  /** The entry builder of the body pass for one answer. */
  function EntryFor(body: string, headers: Headers): (entry: TechSignature -> Tech)
    ensures forall sig :: entry(sig).name == sig.name
  {
    sig => TechOf(sig, body, headers)
  }

  /** The body pass over `common_technologies` for one answer. */
  function BodyTechs(body: string, headers: Headers): (r: seq<Tech>)
    ensures forall t :: t in r <==> exists sig :: sig in CommonTechnologies && Fires(sig, body) && t == TechOf(sig, body, headers)
    ensures IsSubsequence(Names(r), SignatureNames(CommonTechnologies))
  {
    BodyPass(CommonTechnologies, body, EntryFor(body, headers))
  }

  /** With distinct names in the table, no technology is listed twice by the body pass. */
  lemma BodyPassNoDup(table: seq<TechSignature>, body: string, entry: TechSignature -> Tech)
    requires forall sig :: entry(sig).name == sig.name
    requires NoDup(SignatureNames(table))
    ensures NoDup(Names(BodyPass(table, body, entry)))
  {
    SubsequenceNoDup(Names(BodyPass(table, body, entry)), SignatureNames(table));
  }

  /** `server not in [tech['name'] for tech in technologies]`, then the header's own high-confidence entry. */
  function WithHeader(techs: seq<Tech>, headers: Headers, name: string): (r: seq<Tech>)
    ensures HasHeader(headers, name) && Header(headers, name).value !in Names(techs) ==>
      r == techs + [Tech(Header(headers, name).value, UnknownVersion, HighConfidence)]
    ensures !HasHeader(headers, name) || Header(headers, name).value in Names(techs) ==> r == techs
  {
    if HasHeader(headers, name) && Header(headers, name).value !in Names(techs) then
      techs + [Tech(Header(headers, name).value, UnknownVersion, HighConfidence)]
    else techs
  }

  /**
   * The header step on any list: the list is kept whole and at most one
   * entry follows it, the header's value at high confidence with an unknown
   * version, under a name not listed before.
   */
  lemma WithHeaderShape(techs: seq<Tech>, headers: Headers, name: string)
    ensures var r := WithHeader(techs, headers, name);
      && |techs| <= |r| <= |techs| + 1
      && r[..|techs|] == techs
      && (|r| > |techs| ==> r[|techs|] == Tech(Header(headers, name).value, UnknownVersion, HighConfidence)
                            && r[|techs|].name !in Names(techs))
  {
    assert techs[..|techs|] == techs;
  }

  /** The two header steps: what is listed stays, and each header adds at most its own entry. */
  function HeaderPass(techs: seq<Tech>, headers: Headers, first: string, second: string): (r: seq<Tech>)
    ensures |techs| <= |r| <= |techs| + 2
    ensures r[..|techs|] == techs
    ensures forall i :: |techs| <= i < |r| ==>
      && r[i].version == UnknownVersion && r[i].confidence == HighConfidence
      && (Header(headers, first) == Some(r[i].name) || Header(headers, second) == Some(r[i].name))
      && r[i].name !in Names(r[..i])
  {
    var s := WithHeader(techs, headers, first);
    WithHeaderShape(techs, headers, first);
    WithHeaderShape(s, headers, second);
    var r := WithHeader(s, headers, second);
    assert r[..|s|] == s;
    assert r[..|techs|] == s[..|techs|];
    assert |s| > |techs| ==> r[..|techs|] == techs && r[|techs|] == s[|techs|] && r[..|techs|] == techs;
    r
  }

  /**
   * `detect_technologies`: nothing when the answer is missing or an error;
   * otherwise the body pass, then `Server`, then `X-Powered-By`, each
   * header only under a name not already listed.
   */
  function DetectTechnologies(home: Option<Response>): (r: seq<Tech>)
    ensures !Truthy(home) ==> r == []
  {
    if !Truthy(home) then []
    else
      var h := home.value.headers;
      HeaderPass(BodyTechs(home.value.body, h), h, "Server", "X-Powered-By")
  }

  /** Equal values under both headers give one entry, not two. */
  lemma SameHeadersOnce(techs: seq<Tech>, headers: Headers, first: string, second: string)
    requires Header(headers, first).Some? && Header(headers, first) == Header(headers, second)
    ensures |HeaderPass(techs, headers, first, second)| <= |techs| + 1
  {
    var s := WithHeader(techs, headers, first);
    if s != techs {
      assert Names(s)[|techs|] == Header(headers, first).value;
    }
  }

  /** A header value no signature fired under is listed right after the body pass. */
  lemma HeaderListed(techs: seq<Tech>, headers: Headers, first: string, second: string)
    requires Header(headers, first).Some? && Header(headers, first).value !in Names(techs)
    ensures HeaderPass(techs, headers, first, second)[|techs|] == Tech(Header(headers, first).value, UnknownVersion, HighConfidence)
  {
    var s := WithHeader(techs, headers, first);
    assert s[|techs|] == Tech(Header(headers, first).value, UnknownVersion, HighConfidence);
  }

  /** The names of `common_technologies`, in two halves. */
  const FirstTechNames: seq<string> := ["WordPress", "Joomla", "Drupal", "Magento", "Shopify", "WooCommerce",
    "PrestaShop", "OpenCart", "Laravel", "Django", "Ruby on Rails", "ASP.NET", "PHP", "jQuery", "Bootstrap"]
  const LastTechNames: seq<string> := ["React", "Angular", "Vue.js", "Node.js", "Express", "Apache", "Nginx",
    "IIS", "Cloudflare", "Akamai", "Fastly", "Sucuri", "Imperva", "ModSecurity"]

  lemma TechNamesHalves()
    ensures SignatureNames(CommonTechnologies) == FirstTechNames + LastTechNames
  {
  }

  lemma FirstTechNamesDistinct()
    ensures NoDup(FirstTechNames)
  {
  }

  lemma LastTechNamesDistinct()
    ensures NoDup(LastTechNames)
  {
  }

  lemma TechNameHalvesApart()
    ensures forall x :: x in FirstTechNames ==> x !in LastTechNames
  {
  }

  /** No two entries of `common_technologies` share a name. */
  lemma CommonNamesDistinct()
    ensures NoDup(SignatureNames(CommonTechnologies))
  {
    TechNamesHalves();
    FirstTechNamesDistinct();
    LastTechNamesDistinct();
    TechNameHalvesApart();
    NoDupAppend(FirstTechNames, LastTechNames);
  }

  /** The header steps keep a repeat-free list of names repeat-free. */
  lemma HeaderPassNoDup(techs: seq<Tech>, headers: Headers, first: string, second: string)
    requires NoDup(Names(techs))
    ensures NoDup(Names(HeaderPass(techs, headers, first, second)))
  {
    var r := HeaderPass(techs, headers, first, second);
    forall i, j | 0 <= i < j < |r|
      ensures r[i].name != r[j].name
    {
      if j < |techs| {
        assert r[i] == r[..|techs|][i] && r[j] == r[..|techs|][j];
        assert Names(techs)[i] != Names(techs)[j];
      } else {
        assert Names(r[..j])[i] == r[i].name;
      }
    }
  }

  /** Every technology is listed at most once: the body pass lists each name once, and the header steps add only new names. */
  lemma DetectTechnologiesNoDup(home: Option<Response>)
    ensures NoDup(Names(DetectTechnologies(home)))
  {
    if Truthy(home) {
      var h := home.value.headers;
      CommonNamesDistinct();
      BodyPassNoDup(CommonTechnologies, home.value.body, EntryFor(home.value.body, h));
      HeaderPassNoDup(BodyTechs(home.value.body, h), h, "Server", "X-Powered-By");
    }
  }

  /** The header steps list everything they were given, and add only header entries. */
  lemma HeaderPassEntries(techs: seq<Tech>, headers: Headers, first: string, second: string)
    ensures var r := HeaderPass(techs, headers, first, second);
      && (forall t :: t in techs ==> t in r)
      && (forall t :: t in r ==> (t in techs
            || (t.version == UnknownVersion && t.confidence == HighConfidence
                && (Header(headers, first) == Some(t.name) || Header(headers, second) == Some(t.name)))))
  {
    var r := HeaderPass(techs, headers, first, second);
    forall t | t in techs
      ensures t in r
    {
      var i :| 0 <= i < |techs| && techs[i] == t;
      assert r[..|techs|][i] == t;
    }
    forall t | t in r
      ensures t in techs || (t.version == UnknownVersion && t.confidence == HighConfidence
        && (Header(headers, first) == Some(t.name) || Header(headers, second) == Some(t.name)))
    {
      var i :| 0 <= i < |r| && r[i] == t;
      if i < |techs| {
        assert r[..|techs|][i] == t;
      }
    }
  }

  /** A signature that fires on the answer's body gets its entry in the list. */
  lemma FiredListed(home: Option<Response>, sig: TechSignature)
    requires Truthy(home) && sig in CommonTechnologies && Fires(sig, home.value.body)
    ensures TechOf(sig, home.value.body, home.value.headers) in DetectTechnologies(home)
  {
    HeaderPassEntries(BodyTechs(home.value.body, home.value.headers), home.value.headers, "Server", "X-Powered-By");
  }

  /**
   * Every listed entry is either the entry of a fired signature or a
   * header value at high confidence with an unknown version.
   */
  lemma ListedEntries(home: Option<Response>)
    requires Truthy(home)
    ensures var body := home.value.body; var h := home.value.headers;
      forall t :: t in DetectTechnologies(home) ==>
        || (exists sig :: sig in CommonTechnologies && Fires(sig, body) && t == TechOf(sig, body, h))
        || (t.version == UnknownVersion && t.confidence == HighConfidence
            && (Header(h, "Server") == Some(t.name) || Header(h, "X-Powered-By") == Some(t.name)))
  {
    HeaderPassEntries(BodyTechs(home.value.body, home.value.headers), home.value.headers, "Server", "X-Powered-By");
  }

  // ---------------------------------------------------------------------
  // Vulnerabilities

  /** One entry of `common_vulnerabilities`: a name, its body substrings and its severity. */
  datatype VulnSignature = VulnSignature(name: string, patterns: seq<string>, severity: Severity)

  /** `common_vulnerabilities`, in list order; the last three are checked elsewhere and have no substrings. */
  const CommonVulnerabilities: seq<VulnSignature> := [
    VulnSignature("XSS (Cross-Site Scripting)", ["<script>", "alert(", "onerror=", "onload="], High),
    VulnSignature("SQL Injection", ["SQL syntax", "mysql_fetch_array", "ORA-", "Microsoft SQL Server"], High),
    VulnSignature("Directory Listing", ["Index of /", "Directory Listing"], Medium),
    VulnSignature("Information Disclosure", ["phpinfo()", "PHP Version", "Server at", "Apache Version"], Medium),
    VulnSignature("Insecure HTTP Headers", [], Low),
    VulnSignature("Outdated Software", [], Medium),
    VulnSignature("Insecure Cookies", [], Medium)
  ]

  /** `if pattern and pattern in page_content` */
  function Hits(body: string): string -> bool {
    p => p != "" && Contains(body, p)
  }

  /** The finding of one signature: the first of its substrings present in the body is the evidence. */
  function PatternFinding(sig: VulnSignature, body: string): (r: Option<Finding>)
    ensures r.Some? ==> r.value.name == sig.name && r.value.severity == sig.severity
    ensures r.Some? <==> exists p :: p in sig.patterns && p != "" && Contains(body, p)
    ensures r.Some? ==> exists k :: (0 <= k < |sig.patterns|
      && r.value == Finding(sig.name, sig.severity, sig.patterns[k])
      && sig.patterns[k] != "" && Contains(body, sig.patterns[k])
      && forall j :: 0 <= j < k ==> sig.patterns[j] == "" || !Contains(body, sig.patterns[j]))
  {
    var k := FirstWhere(sig.patterns, Hits(body));
    FirstWhereFinds(sig.patterns, Hits(body));
    if k < |sig.patterns| then Some(Finding(sig.name, sig.severity, sig.patterns[k])) else None
  }

  /** The pattern loop of `scan_vulnerabilities`: at most one finding per signature, in table order. */
  function PatternFindings(table: seq<VulnSignature>, body: string): (r: seq<Finding>)
    ensures |r| <= |table|
    ensures forall f :: f in r <==> exists sig :: sig in table && PatternFinding(sig, body) == Some(f)
    decreases |table|
  {
    if |table| == 0 then []
    else
      assert forall sig :: sig in table <==> sig == table[0] || sig in table[1..];
      match PatternFinding(table[0], body)
      case Some(f) => [f] + PatternFindings(table[1..], body)
      case None => PatternFindings(table[1..], body)
  }

  /** A signature without substrings never reports from the pattern loop. */
  lemma EmptySignatureSilent(sig: VulnSignature, body: string)
    requires sig.patterns == []
    ensures PatternFinding(sig, body) == None
  {
  }

  /** The headers whose absence `_check_missing_security_headers` reports, in its order. */
  const SecurityHeaders: seq<string> := [
    "Strict-Transport-Security", "Content-Security-Policy", "X-Content-Type-Options",
    "X-Frame-Options", "X-XSS-Protection", "Referrer-Policy"
  ]

  /** The names among `names` that the headers lack, in their order. */
  function Absent(names: seq<string>, headers: Headers): (r: seq<string>)
    ensures forall n :: n in r <==> n in names && !HasHeader(headers, n)
    ensures IsSubsequence(r, names)
    decreases |names|
  {
    if |names| == 0 then []
    else
      assert forall n :: n in names <==> n == names[0] || n in names[1..];
      var rest := Absent(names[1..], headers);
      if HasHeader(headers, names[0]) then rest else [names[0]] + rest
  }

  /** `_check_missing_security_headers` */
  function MissingHeaders(headers: Headers): (r: seq<string>)
    ensures forall n :: n in r <==> n in SecurityHeaders && !HasHeader(headers, n)
    ensures IsSubsequence(r, SecurityHeaders)
  {
    Absent(SecurityHeaders, headers)
  }

  /** The two suffixes of `_check_insecure_cookies`. */
  const NoSecure: string := " (بدون Secure)"
  const NoHttpOnly: string := " (بدون HttpOnly)"

  /** What one cookie contributes: a line for a missing `Secure`, then one for a missing `HttpOnly`. */
  function CookieLines(c: Cookie): (r: seq<string>)
    ensures |r| == (if c.secure then 0 else 1) + (if c.httpOnly then 0 else 1)
    ensures (c.name + NoSecure in r) <==> !c.secure
    ensures (c.name + NoHttpOnly in r) <==> !c.httpOnly
  {
    assert (c.name + NoSecure)[|c.name| + 7] == 'S' && (c.name + NoHttpOnly)[|c.name| + 7] == 'H';
    (if c.secure then [] else [c.name + NoSecure]) + (if c.httpOnly then [] else [c.name + NoHttpOnly])
  }

  /** `_check_insecure_cookies`: the lines of every cookie, cookie by cookie. */
  function InsecureCookies(cookies: seq<Cookie>): (r: seq<string>)
    ensures |r| == 0 <==> forall c :: c in cookies ==> c.secure && c.httpOnly
    decreases |cookies|
  {
    if |cookies| == 0 then []
    else
      assert forall c :: c in cookies <==> c == cookies[0] || c in cookies[1..];
      CookieLines(cookies[0]) + InsecureCookies(cookies[1..])
  }

  /** The cookie lines of two cookie lists are the lines of each, in order. */
  lemma {:induction false} InsecureCookiesAppend(a: seq<Cookie>, b: seq<Cookie>)
    ensures InsecureCookies(a + b) == InsecureCookies(a) + InsecureCookies(b)
    decreases |a|
  {
    if |a| > 0 {
      assert (a + b)[0] == a[0] && (a + b)[1..] == a[1..] + b;
      InsecureCookiesAppend(a[1..], b);
      var x := CookieLines(a[0]);
      assert InsecureCookies(a + b) == x + InsecureCookies(a[1..] + b);
      assert x + (InsecureCookies(a[1..]) + InsecureCookies(b)) == (x + InsecureCookies(a[1..])) + InsecureCookies(b);
    } else {
      assert a + b == b;
    }
  }

  /** A cookie lacking an attribute is named in the matching line. */
  lemma {:induction false} InsecureCookieNamed(cookies: seq<Cookie>, i: nat)
    requires i < |cookies|
    ensures !cookies[i].secure ==> cookies[i].name + NoSecure in InsecureCookies(cookies)
    ensures !cookies[i].httpOnly ==> cookies[i].name + NoHttpOnly in InsecureCookies(cookies)
    decreases i
  {
    if i > 0 {
      InsecureCookieNamed(cookies[1..], i - 1);
    }
  }

  /** The names and severities of the findings `scan_vulnerabilities` adds after the pattern loop. */
  const MissingHeadersName: string := "رؤوس HTTP أمنية مفقودة"
  const InsecureCookiesName: string := "ملفات تعريف ارتباط غير آمنة"
  const NoHttpsName: string := "عدم استخدام HTTPS"
  const ListingName: string := "قائمة المجلدات مفعلة"
  const ListingEvidence: string := "Index of / أو Directory Listing"

  /** The names of the four findings added after the pattern loop. */
  const LaterNames: set<string> := {MissingHeadersName, InsecureCookiesName, NoHttpsName, ListingName}

  /** The finding for missing security headers among `important`, if any is missing. */
  function MissingHeadersFinding(important: seq<string>, headers: Headers): (r: seq<Finding>)
    ensures |r| <= 1
    ensures |r| == 1 <==> exists n :: n in important && !HasHeader(headers, n)
    ensures |r| == 1 ==> r[0] == Finding(MissingHeadersName, Low, Join(Absent(important, headers), ", "))
    ensures forall f :: f in r ==> f == Finding(MissingHeadersName, Low, Join(Absent(important, headers), ", "))
  {
    var m := Absent(important, headers);
    if |m| > 0 then
      assert m[0] in m;
      [Finding(MissingHeadersName, Low, Join(m, ", "))]
    else []
  }

  /** The finding for insecure cookies, if any cookie lacks an attribute. */
  function InsecureCookiesFinding(cookies: seq<Cookie>): (r: seq<Finding>)
    ensures |r| <= 1
    ensures |r| == 1 <==> exists c :: c in cookies && !(c.secure && c.httpOnly)
    ensures |r| == 1 ==> r[0] == Finding(InsecureCookiesName, Medium, Join(InsecureCookies(cookies), ", "))
    ensures forall f :: f in r ==> f == Finding(InsecureCookiesName, Medium, Join(InsecureCookies(cookies), ", "))
  {
    var ic := InsecureCookies(cookies);
    if |ic| > 0 then [Finding(InsecureCookiesName, Medium, Join(ic, ", "))] else []
  }

  /** The finding for a URL that does not start with `https`. */
  function NoHttpsFinding(url: string): (r: seq<Finding>)
    ensures |r| == 1 <==> !StartsWith(url, "https")
    ensures |r| <= 1 && (|r| == 1 ==> r[0] == Finding(NoHttpsName, High, url))
    ensures forall f :: f in r ==> f == Finding(NoHttpsName, High, url)
  {
    if StartsWith(url, "https") then [] else [Finding(NoHttpsName, High, url)]
  }

  /** The finding for a body that looks like a directory listing. */
  function ListingFinding(body: string): (r: seq<Finding>)
    ensures |r| == 1 <==> Contains(body, "Index of /") || Contains(body, "Directory Listing")
    ensures |r| <= 1 && (|r| == 1 ==> r[0] == Finding(ListingName, Medium, ListingEvidence))
    ensures forall f :: f in r ==> f == Finding(ListingName, Medium, ListingEvidence)
  {
    if Contains(body, "Index of /") || Contains(body, "Directory Listing") then [Finding(ListingName, Medium, ListingEvidence)] else []
  }

  /**
   * `scan_vulnerabilities`: nothing when the answer is missing or an error;
   * otherwise the pattern findings in table order, then missing headers,
   * insecure cookies, plain HTTP and directory listing, each when it applies.
   */
  function ScanVulnerabilities(url: string, home: Option<Response>): (r: seq<Finding>)
    ensures !Truthy(home) ==> r == []
    ensures Truthy(home) ==> forall f :: f in PatternFindings(CommonVulnerabilities, home.value.body) ==> f in r
    ensures Truthy(home) ==> forall f :: f in r ==> f in PatternFindings(CommonVulnerabilities, home.value.body) || f.name in LaterNames
  {
    ScanWith(CommonVulnerabilities, SecurityHeaders, url, home)
  }

  /** The scan for a given signature table and list of security headers. */
  function ScanWith(table: seq<VulnSignature>, important: seq<string>, url: string, home: Option<Response>): (r: seq<Finding>)
    ensures !Truthy(home) ==> r == []
    ensures Truthy(home) ==> forall f :: f in PatternFindings(table, home.value.body) ==> f in r
    ensures Truthy(home) ==> forall f :: f in r ==> f in PatternFindings(table, home.value.body) || f.name in LaterNames
  {
    if !Truthy(home) then []
    else
      var a := home.value;
      var later := LaterFindings(important, a, url);
      PatternFindings(table, a.body) + later
  }

  /** The findings after the pattern loop: missing headers, insecure cookies, plain HTTP, directory listing. */
  function LaterFindings(important: seq<string>, a: Response, url: string): (r: seq<Finding>)
    ensures forall f :: f in r ==> f.name in LaterNames
  {
    MissingHeadersFinding(important, a.headers)
      + InsecureCookiesFinding(a.cookies)
      + NoHttpsFinding(url)
      + ListingFinding(a.body)
  }

  /** The status-map values of `_check_security_headers`. */
  const HeaderPresent: string := "موجود"
  const HeaderMissing: string := "غير موجود"

  /** The headers `_check_security_headers` reports on: the six above and two policy headers. */
  const ImportantHeaders: seq<string> := SecurityHeaders + ["Feature-Policy", "Permissions-Policy"]

  /** `_check_security_headers`: every important header, marked present or missing. */
  function SecurityHeaderStatus(headers: Headers): (m: map<string, string>)
    ensures forall n :: n in m <==> n in ImportantHeaders
    ensures forall n :: n in m ==> (m[n] == HeaderPresent <==> HasHeader(headers, n))
    ensures forall n :: n in m ==> m[n] == HeaderPresent || m[n] == HeaderMissing
  {
    map n | n in ImportantHeaders :: if HasHeader(headers, n) then HeaderPresent else HeaderMissing
  }

  /** The status map and the missing-header list agree on the six headers they share. */
  lemma StatusAgreesWithMissing(headers: Headers)
    ensures forall n :: n in MissingHeaders(headers) <==>
      n in SecurityHeaders && n in SecurityHeaderStatus(headers) && SecurityHeaderStatus(headers)[n] == HeaderMissing
  {
  }

  /** A name no signature carries is the name of no pattern finding. */
  lemma PatternFindingsNamed(table: seq<VulnSignature>, body: string, name: string)
    requires forall sig :: sig in table ==> sig.name != name
    ensures forall f :: f in PatternFindings(table, body) ==> f.name != name
  {
  }

  /** Every signature name of the pattern table starts with one of `X`, `S`, `D`, `I`, `O`. */
  lemma TableNameInitials()
    ensures forall sig :: sig in CommonVulnerabilities ==> |sig.name| > 0 && sig.name[0] in "XSDIO"
  {
  }

  /** No signature of the pattern table carries the name of a finding added after the pattern loop. */
  lemma TableNamesApart()
    ensures forall sig :: sig in CommonVulnerabilities ==>
      sig.name != MissingHeadersName && sig.name != InsecureCookiesName && sig.name != NoHttpsName && sig.name != ListingName
  {
    TableNameInitials();
    assert MissingHeadersName[0] == 'ر' && InsecureCookiesName[0] == 'م';
    assert NoHttpsName[0] == 'ع' && ListingName[0] == 'ق';
  }

  /** A URL that does not start with `https` is always reported, with the URL as evidence. */
  lemma PlainHttpReported(url: string, home: Option<Response>)
    requires Truthy(home) && !StartsWith(url, "https")
    ensures Finding(NoHttpsName, High, url) in ScanVulnerabilities(url, home)
  {
  }

  /** The findings of a true answer's scan: the table's, then the four later checks'. */
  lemma ScanMembers(table: seq<VulnSignature>, important: seq<string>, url: string, home: Option<Response>)
    requires Truthy(home)
    ensures var a := home.value;
      forall f :: f in ScanWith(table, important, url, home) <==>
        || f in PatternFindings(table, a.body)
        || f in MissingHeadersFinding(important, a.headers)
        || f in InsecureCookiesFinding(a.cookies)
        || f in NoHttpsFinding(url)
        || f in ListingFinding(a.body)
  {
  }

  /** When the findings of a list named `name` are exactly those of one part, the name occurs exactly when that part is non-empty. */
  lemma SingledOut(r: seq<Finding>, m: seq<Finding>, name: string)
    requires forall f :: f in r && f.name == name ==> f in m
    requires forall f :: f in m ==> f in r && f.name == name
    ensures (exists f :: f in r && f.name == name) <==> |m| > 0
  {
    if |m| > 0 {
      assert m[0] in r;
    }
  }

  /** The four findings after the pattern loop carry four different names. */
  lemma LaterNamesDistinct()
    ensures MissingHeadersName != InsecureCookiesName && MissingHeadersName != NoHttpsName && MissingHeadersName != ListingName
    ensures InsecureCookiesName != NoHttpsName && InsecureCookiesName != ListingName
    ensures NoHttpsName != ListingName
  {
    assert MissingHeadersName[0] == 'ر' && InsecureCookiesName[0] == 'م';
    assert NoHttpsName[0] == 'ع' && ListingName[0] == 'ق';
  }

  /** For any table whose names differ from it, the missing-headers finding is there exactly when a header is absent. */
  lemma MissingHeadersReportedWith(table: seq<VulnSignature>, important: seq<string>, url: string, home: Option<Response>)
    requires Truthy(home)
    requires forall sig :: sig in table ==> sig.name != MissingHeadersName
    ensures (exists f :: f in ScanWith(table, important, url, home) && f.name == MissingHeadersName)
      <==> exists n :: n in important && !HasHeader(home.value.headers, n)
    ensures forall f :: f in ScanWith(table, important, url, home) && f.name == MissingHeadersName ==>
      f == Finding(MissingHeadersName, Low, Join(Absent(important, home.value.headers), ", "))
  {
    var a := home.value;
    var r := ScanWith(table, important, url, home);
    var m := MissingHeadersFinding(important, a.headers);
    ScanMembers(table, important, url, home);
    PatternFindingsNamed(table, a.body, MissingHeadersName);
    LaterNamesDistinct();
    SingledOut(r, m, MissingHeadersName);
  }

  /** The missing-headers finding is there exactly when a security header is absent, and names them all. */
  lemma MissingHeadersReported(url: string, home: Option<Response>)
    requires Truthy(home)
    ensures (exists f :: f in ScanVulnerabilities(url, home) && f.name == MissingHeadersName)
      <==> exists n :: n in SecurityHeaders && !HasHeader(home.value.headers, n)
    ensures forall f :: f in ScanVulnerabilities(url, home) && f.name == MissingHeadersName ==>
      f == Finding(MissingHeadersName, Low, Join(MissingHeaders(home.value.headers), ", "))
  {
    TableNamesApart();
    MissingHeadersReportedWith(CommonVulnerabilities, SecurityHeaders, url, home);
  }

  /** For any table whose names differ from it, the insecure-cookies finding is there exactly when a cookie is insecure. */
  lemma InsecureCookiesReportedWith(table: seq<VulnSignature>, important: seq<string>, url: string, home: Option<Response>)
    requires Truthy(home)
    requires forall sig :: sig in table ==> sig.name != InsecureCookiesName
    ensures (exists f :: f in ScanWith(table, important, url, home) && f.name == InsecureCookiesName)
      <==> exists c :: c in home.value.cookies && !(c.secure && c.httpOnly)
    ensures forall f :: f in ScanWith(table, important, url, home) && f.name == InsecureCookiesName ==>
      f == Finding(InsecureCookiesName, Medium, Join(InsecureCookies(home.value.cookies), ", "))
  {
    var a := home.value;
    var r := ScanWith(table, important, url, home);
    var m := InsecureCookiesFinding(a.cookies);
    ScanMembers(table, important, url, home);
    PatternFindingsNamed(table, a.body, InsecureCookiesName);
    LaterNamesDistinct();
    SingledOut(r, m, InsecureCookiesName);
  }

  /** The insecure-cookies finding is there exactly when some cookie lacks `Secure` or `HttpOnly`, and lists every such line. */
  lemma InsecureCookiesReported(url: string, home: Option<Response>)
    requires Truthy(home)
    ensures (exists f :: f in ScanVulnerabilities(url, home) && f.name == InsecureCookiesName)
      <==> exists c :: c in home.value.cookies && !(c.secure && c.httpOnly)
    ensures forall f :: f in ScanVulnerabilities(url, home) && f.name == InsecureCookiesName ==>
      f == Finding(InsecureCookiesName, Medium, Join(InsecureCookies(home.value.cookies), ", "))
  {
    TableNamesApart();
    InsecureCookiesReportedWith(CommonVulnerabilities, SecurityHeaders, url, home);
  }

  /** A finding with a name of its own is reported exactly when a signature of the table reports it. */
  lemma PatternFindingsReported(url: string, home: Option<Response>, f: Finding)
    requires Truthy(home) && f.name !in LaterNames
    ensures f in ScanVulnerabilities(url, home) <==>
      exists sig :: sig in CommonVulnerabilities && PatternFinding(sig, home.value.body) == Some(f)
  {
  }

  /** For any table whose names differ from it, the no-HTTPS finding is there exactly when the URL does not start with `https`. */
  lemma NoHttpsReportedWith(table: seq<VulnSignature>, important: seq<string>, url: string, home: Option<Response>)
    requires Truthy(home)
    requires forall sig :: sig in table ==> sig.name != NoHttpsName
    ensures (exists f :: f in ScanWith(table, important, url, home) && f.name == NoHttpsName) <==> !StartsWith(url, "https")
    ensures forall f :: f in ScanWith(table, important, url, home) && f.name == NoHttpsName ==> f == Finding(NoHttpsName, High, url)
  {
    var a := home.value;
    var r := ScanWith(table, important, url, home);
    var m := NoHttpsFinding(url);
    ScanMembers(table, important, url, home);
    PatternFindingsNamed(table, a.body, NoHttpsName);
    LaterNamesDistinct();
    SingledOut(r, m, NoHttpsName);
  }

  /** The no-HTTPS finding is there exactly when the URL does not start with `https`, and carries the URL. */
  lemma NoHttpsReported(url: string, home: Option<Response>)
    requires Truthy(home)
    ensures (exists f :: f in ScanVulnerabilities(url, home) && f.name == NoHttpsName) <==> !StartsWith(url, "https")
    ensures forall f :: f in ScanVulnerabilities(url, home) && f.name == NoHttpsName ==> f == Finding(NoHttpsName, High, url)
  {
    TableNamesApart();
    NoHttpsReportedWith(CommonVulnerabilities, SecurityHeaders, url, home);
  }

  /** For any table whose names differ from it, the listing finding is there exactly when the body looks like a listing. */
  lemma ListingReportedWith(table: seq<VulnSignature>, important: seq<string>, url: string, home: Option<Response>)
    requires Truthy(home)
    requires forall sig :: sig in table ==> sig.name != ListingName
    ensures (exists f :: f in ScanWith(table, important, url, home) && f.name == ListingName)
      <==> Contains(home.value.body, "Index of /") || Contains(home.value.body, "Directory Listing")
    ensures forall f :: f in ScanWith(table, important, url, home) && f.name == ListingName ==>
      f == Finding(ListingName, Medium, ListingEvidence)
  {
    var a := home.value;
    var r := ScanWith(table, important, url, home);
    var m := ListingFinding(a.body);
    ScanMembers(table, important, url, home);
    PatternFindingsNamed(table, a.body, ListingName);
    LaterNamesDistinct();
    SingledOut(r, m, ListingName);
  }

  /** The directory-listing finding is there exactly when the body holds `Index of /` or `Directory Listing`. */
  lemma ListingReported(url: string, home: Option<Response>)
    requires Truthy(home)
    ensures (exists f :: f in ScanVulnerabilities(url, home) && f.name == ListingName)
      <==> Contains(home.value.body, "Index of /") || Contains(home.value.body, "Directory Listing")
    ensures forall f :: f in ScanVulnerabilities(url, home) && f.name == ListingName ==>
      f == Finding(ListingName, Medium, ListingEvidence)
  {
    TableNamesApart();
    ListingReportedWith(CommonVulnerabilities, SecurityHeaders, url, home);
  }

  /** `Index of /` in the body is reported twice: by the table's `Directory Listing` entry and by the listing check. */
  lemma ListingReportedTwice(url: string, home: Option<Response>)
    requires Truthy(home) && Contains(home.value.body, "Index of /")
    ensures Finding("Directory Listing", Medium, "Index of /") in ScanVulnerabilities(url, home)
    ensures Finding(ListingName, Medium, ListingEvidence) in ScanVulnerabilities(url, home)
  {
    var sig := CommonVulnerabilities[2];
    assert Hits(home.value.body)(sig.patterns[0]);
    assert PatternFinding(sig, home.value.body) == Some(Finding("Directory Listing", Medium, "Index of /"));
  }

  // ---------------------------------------------------------------------
  // Ports

  /** One open port: its number, `'open'` and the service guessed from the number. */
  datatype OpenPort = OpenPort(port: int, state: string, service: string)

  /** The service name of an unlisted port. */
  const UnknownService: string := "غير معروف"

  /** `common_ports` of `_get_service_name`. */
  const CommonPorts: map<int, string> := map[
    21 := "FTP", 22 := "SSH", 23 := "Telnet", 25 := "SMTP", 53 := "DNS", 80 := "HTTP",
    110 := "POP3", 143 := "IMAP", 443 := "HTTPS", 465 := "SMTPS", 587 := "SMTP (Submission)",
    993 := "IMAPS", 995 := "POP3S", 3306 := "MySQL", 3389 := "RDP", 5432 := "PostgreSQL",
    8080 := "HTTP Proxy", 8443 := "HTTPS Alternate"
  ]

  /** `_get_service_name`: the listed name, or "unknown" for any other port. */
  function ServiceName(port: int): (r: string)
    ensures |r| > 0
    ensures r == UnknownService <==> port !in CommonPorts
  {
    if port in CommonPorts then CommonPorts[port] else UnknownService
  }

  /** The eighteen listed ports. */
  lemma ListedPorts()
    ensures CommonPorts.Keys == {21, 22, 23, 25, 53, 80, 110, 143, 443, 465, 587, 993, 995, 3306, 3389, 5432, 8080, 8443}
  {
  }

  /** A port outside the list is an unknown service. */
  lemma UnlistedPortUnknown(port: int)
    requires port !in {21, 22, 23, 25, 53, 80, 110, 143, 443, 465, 587, 993, 995, 3306, 3389, 5432, 8080, 8443}
    ensures ServiceName(port) == UnknownService
  {
    ListedPorts();
  }

  /** Port 443 is HTTPS. */
  lemma HttpsPort()
    ensures ServiceName(443) == "HTTPS"
  {
  }

  /**
   * `_check_port`: `connect(ip, port)` stands for `connect_ex`, with `None`
   * for an exception; only a result of 0 makes the port open.
   */
  function CheckPort(ip: string, port: int, connect: (string, int) -> Option<int>): (r: Option<OpenPort>)
    ensures r.Some? <==> connect(ip, port) == Some(0)
    ensures r.Some? ==> r.value.port == port && r.value.state == "open" && r.value.service == ServiceName(port)
  {
    if connect(ip, port) == Some(0) then Some(OpenPort(port, "open", ServiceName(port))) else None
  }

  /** The port numbers of a list of open ports. */
  function PortsOf(open: seq<OpenPort>): (r: seq<int>)
    ensures |r| == |open|
  {
    seq(|open|, i requires 0 <= i < |open| => open[i].port)
  }

  /** The futures read in submission order: the open ports among `ports`, in their order. */
  function OpenPorts(ip: string, ports: seq<int>, connect: (string, int) -> Option<int>): (r: seq<OpenPort>)
    ensures forall o :: o in r <==> exists p :: p in ports && CheckPort(ip, p, connect) == Some(o)
    ensures IsSubsequence(PortsOf(r), ports)
    decreases |ports|
  {
    if |ports| == 0 then []
    else
      assert forall p :: p in ports <==> p == ports[0] || p in ports[1..];
      var rest := OpenPorts(ip, ports[1..], connect);
      match CheckPort(ip, ports[0], connect)
      case Some(o) =>
        assert PortsOf([o] + rest)[1..] == PortsOf(rest);
        [o] + rest
      case None => rest
  }

  /** The ports scanned: the ones asked for, or 80 and 443 when none are. */
  function TargetPorts(ports: seq<int>): (r: seq<int>)
    ensures |ports| > 0 ==> r == ports
    ensures |ports| == 0 ==> r == [80, 443]
  {
    if |ports| > 0 then ports else [80, 443]
  }

  /**
   * The address the ports are tried on: the URL's domain as it is when it is
   * an IPv4 address, and what it resolves to otherwise (`resolve` stands for
   * `gethostbyname`, `None` for its exception).
   */
  function Address(url: string, resolve: string -> Option<string>): Option<string> {
    var domain := Urls.ExtractDomain(url);
    if Utils.IsIpAddress(domain) then Some(domain) else resolve(domain)
  }

  /**
   * `scan_ports`: every target port tried on the address, keeping the open
   * ones; an exception from resolving empties the result.
   */
  function ScanPorts(url: string, ports: seq<int>, resolve: string -> Option<string>,
                     connect: (string, int) -> Option<int>): (r: seq<OpenPort>)
    ensures forall o :: o in r ==> o.state == "open" && o.port in TargetPorts(ports) && o.service == ServiceName(o.port)
    ensures forall o :: o in r ==> Address(url, resolve).Some? && connect(Address(url, resolve).value, o.port) == Some(0)
    ensures Address(url, resolve).Some? ==>
      (forall p :: p in TargetPorts(ports) && connect(Address(url, resolve).value, p) == Some(0) ==>
         OpenPort(p, "open", ServiceName(p)) in r)
    ensures Address(url, resolve).None? ==> r == []
    ensures IsSubsequence(PortsOf(r), TargetPorts(ports))
  {
    var ip := Address(url, resolve);
    if ip.None? then [] else OpenPorts(ip.value, TargetPorts(ports), connect)
  }

  /** A port is reported exactly when the address answers 0 to a connection on it. */
  lemma PortReportedIff(url: string, ports: seq<int>, resolve: string -> Option<string>,
                        connect: (string, int) -> Option<int>, ip: string, p: int)
    requires Address(url, resolve) == Some(ip)
    requires p in TargetPorts(ports)
    ensures OpenPort(p, "open", ServiceName(p)) in ScanPorts(url, ports, resolve, connect) <==> connect(ip, p) == Some(0)
  {
  }

  /** For an IPv4 domain the address is the domain itself. */
  lemma IpDomainIsAddress(url: string, resolve: string -> Option<string>)
    requires Utils.IsIpAddress(Urls.ExtractDomain(url))
    ensures Address(url, resolve) == Some(Urls.ExtractDomain(url))
  {
  }

  /** An address given as an IPv4 dotted quad is never resolved. */
  lemma AddressNotResolved(url: string, ports: seq<int>, r1: string -> Option<string>, r2: string -> Option<string>,
                           connect: (string, int) -> Option<int>)
    requires Utils.IsIpAddress(Urls.ExtractDomain(url))
    ensures ScanPorts(url, ports, r1, connect) == ScanPorts(url, ports, r2, connect)
  {
  }

  /** A host name that does not resolve gives no open port. */
  lemma UnresolvedNoPorts(url: string, ports: seq<int>, resolve: string -> Option<string>,
                          connect: (string, int) -> Option<int>)
    requires !Utils.IsIpAddress(Urls.ExtractDomain(url)) && resolve(Urls.ExtractDomain(url)).None?
    ensures ScanPorts(url, ports, resolve, connect) == []
  {
  }
}
