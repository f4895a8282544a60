/**
 * The probing steps `modules/wordpress_scanner.py` and
 * `modules/joomla_scanner.py` share: counting the well-known paths a site
 * answers with a stop at the third, reading a version from the first of
 * several sources that answers, the outdated-core finding, and collecting
 * the results of the checks in the order they were submitted.
 */
module Probe {
  import opened Wrappers
  import opened Text
  import opened Http
  import opened Patterns
  import opened Collections
  import Versions

  // ---------------------------------------------------------------------
  // Counting well-known paths

  /** How many of `paths` answer with a true, non-404 response. */
  function CountFound(fetch: string -> Option<Response>, paths: seq<string>): (n: nat)
    ensures n <= |paths|
    decreases |paths|
  {
    if |paths| == 0 then 0
    else (if Reachable(fetch(paths[0])) then 1 else 0) + CountFound(fetch, paths[1..])
  }

  /** Counting over two consecutive stretches of paths adds up. */
  lemma {:induction false} CountFoundAppend(fetch: string -> Option<Response>, a: seq<string>, b: seq<string>)
    ensures CountFound(fetch, a + b) == CountFound(fetch, a) + CountFound(fetch, b)
    decreases |a|
  {
    if |a| == 0 {
      assert a + b == b;
    } else {
      assert (a + b)[0] == a[0] && (a + b)[1..] == a[1..] + b;
      CountFoundAppend(fetch, a[1..], b);
    }
  }

  /**
   * The path loop from position `k` with `found` hits so far: the verdict
   * and how many paths have been requested when it stops. It stops with
   * true at the third hit, and with false after the last path.
   */
  function PathScan(fetch: string -> Option<Response>, paths: seq<string>, k: nat, found: nat): (r: (bool, nat))
    requires k <= |paths| && found < 3
    ensures k <= r.1 <= |paths|
    ensures r.0 <==> found + CountFound(fetch, paths[k..]) >= 3
    ensures r.0 ==> r.1 > k && found + CountFound(fetch, paths[k..r.1]) == 3 && Reachable(fetch(paths[r.1 - 1]))
    ensures !r.0 ==> r.1 == |paths|
    decreases |paths| - k
  {
    if k == |paths| then (false, k)
    else
      assert paths[k..][1..] == paths[k + 1..];
      var hit := Reachable(fetch(paths[k]));
      var now := if hit then found + 1 else found;
      if now >= 3 then
        assert paths[k..k + 1][1..] == [];
        (true, k + 1)
      else
        var r := PathScan(fetch, paths, k + 1, now);
        assert r.0 ==> paths[k..r.1][1..] == paths[k + 1..r.1];
        r
  }

  /** `found_paths >= 3` is reached exactly when at least three of the paths answer. */
  function ThreeFound(fetch: string -> Option<Response>, paths: seq<string>): (r: bool)
    ensures r <==> CountFound(fetch, paths) >= 3
  {
    assert paths[0..] == paths;
    PathScan(fetch, paths, 0, 0).0
  }

  /** How many paths are requested before the loop ends. */
  function PathsRequested(fetch: string -> Option<Response>, paths: seq<string>): (n: nat)
    ensures n <= |paths|
  {
    PathScan(fetch, paths, 0, 0).1
  }

  /**
   * The loop requests paths up to and including the third one that answers
   * and no further; when fewer than three answer it requests them all.
   */
  lemma StopsAtThird(fetch: string -> Option<Response>, paths: seq<string>)
    ensures var n := PathsRequested(fetch, paths);
      && (ThreeFound(fetch, paths) ==> n > 0 && CountFound(fetch, paths[..n]) == 3 && Reachable(fetch(paths[n - 1])))
      && (!ThreeFound(fetch, paths) ==> n == |paths|)
  {
    assert paths[0..] == paths;
    var n := PathsRequested(fetch, paths);
    assert paths[0..n] == paths[..n];
  }

  /** Paths past the third hit make no difference to the verdict. */
  lemma LaterPathsIgnored(fetch: string -> Option<Response>, paths: seq<string>, more: seq<string>)
    requires CountFound(fetch, paths) >= 3
    ensures ThreeFound(fetch, paths + more)
  {
    CountFoundAppend(fetch, paths, more);
  }

  // ---------------------------------------------------------------------
  // Versions from ordered sources

  /** One source of a version: a path and the expression its answer is searched with. */
  datatype Method = Method(path: string, pattern: Pattern)

  /** The body of an answer, empty when there is none. */
  function BodyOf(r: Option<Response>): string {
    if r.Some? then r.value.body else ""
  }

  /** A source yields a version: the answer has status 200 and the expression matches its body. */
  function Yields(fetch: string -> Option<Response>): Method -> bool {
    (m: Method) => IsOk(fetch(m.path)) && Search(BodyOf(fetch(m.path)), m.pattern).Some?
  }

  /** The sources are tried in order and the first that yields a version wins. */
  function ResolveVersion(fetch: string -> Option<Response>, methods: seq<Method>): (r: Option<string>)
    ensures r.Some? <==> exists m :: m in methods && Yields(fetch)(m)
    ensures r.Some? ==> exists k :: (0 <= k < |methods| && Yields(fetch)(methods[k])
      && r == Search(BodyOf(fetch(methods[k].path)), methods[k].pattern)
      && forall j :: 0 <= j < k ==> !Yields(fetch)(methods[j]))
  {
    var k := FirstWhere(methods, Yields(fetch));
    FirstWhereFinds(methods, Yields(fetch));
    if k < |methods| then Search(BodyOf(fetch(methods[k].path)), methods[k].pattern) else None
  }

  /** The first source that yields gives the version, whatever the later ones would say. */
  lemma FirstSourceWins(fetch: string -> Option<Response>, methods: seq<Method>, k: nat)
    requires k < |methods| && Yields(fetch)(methods[k])
    requires forall j :: 0 <= j < k ==> !Yields(fetch)(methods[j])
    ensures ResolveVersion(fetch, methods) == Search(BodyOf(fetch(methods[k].path)), methods[k].pattern)
  {
    assert FirstWhere(methods, Yields(fetch)) == k;
  }

  /** Only answers with status 200 are read: a source whose answer has another status is skipped. */
  lemma OnlyOkRead(fetch: string -> Option<Response>, methods: seq<Method>, m: Method)
    requires !IsOk(fetch(m.path))
    ensures !Yields(fetch)(m)
  {
  }

  /** When every source captures the same class, the version found is a non-empty run of it. */
  lemma ResolvedInClass(fetch: string -> Option<Response>, methods: seq<Method>, cls: Class)
    requires forall m :: m in methods ==> m.pattern.capture == cls
    ensures var r := ResolveVersion(fetch, methods);
      r.Some? ==> |r.value| > 0 && forall c :: 0 <= c < |r.value| ==> InClass(r.value[c], cls)
  {
    var r := ResolveVersion(fetch, methods);
    if r.Some? {
      var k :| 0 <= k < |methods| && r == Search(BodyOf(fetch(methods[k].path)), methods[k].pattern);
      assert methods[k] in methods;
      SearchInClass(BodyOf(fetch(methods[k].path)), methods[k].pattern);
    }
  }

  // ---------------------------------------------------------------------
  // Findings

  /** One result of the name-based lookups: what a search built from a name found. */
  datatype Lookup = Found(version: string) | NotFound | PatternError

  /** A plugin or component: its name and, when one was found, its version. */
  datatype Asset = Asset(name: string, version: Option<string>)

  /** The results of the submitted checks read in submission order, empty ones dropped. */
  function Present(checks: seq<Option<Finding>>): (r: seq<Finding>)
    ensures |r| <= |checks|
    ensures forall f :: f in r <==> Some(f) in checks
    decreases |checks|
  {
    if |checks| == 0 then []
    else
      assert forall x :: x in checks <==> x == checks[0] || x in checks[1..];
      (if checks[0].Some? then [checks[0].value] else []) + Present(checks[1..])
  }

  /** Reading the checks in order keeps their order. */
  lemma {:induction false} PresentAppend(a: seq<Option<Finding>>, b: seq<Option<Finding>>)
    ensures Present(a + b) == Present(a) + Present(b)
    decreases |a|
  {
    if |a| == 0 {
      assert a + b == b;
    } else {
      assert (a + b)[0] == a[0] && (a + b)[1..] == a[1..] + b;
      PresentAppend(a[1..], b);
    }
  }

  /** The evidence of an outdated-core finding. */
  function VersionEvidence(v: string): string {
    "الإصدار: " + v
  }

  /**
   * The outdated-core step of `scan_vulnerabilities`: nothing without a
   * version, one high-severity finding for a version below `latest`, and
   * `Err` when a segment of the version is not a number (the `ValueError`
   * that makes the whole scan return an empty list).
   */
  function OutdatedCore(version: Option<string>, latest: string, name: string): (r: Result<seq<Finding>>)
    ensures version.None? ==> r == Ok([])
    ensures version.Some? ==> (r.Err? <==> Versions.IsOutdated(version.value, latest).Err?)
    ensures r.Ok? ==> |r.value| <= 1
    ensures r.Ok? && |r.value| == 1 <==> version.Some? && Versions.IsOutdated(version.value, latest) == Ok(true)
    ensures r.Ok? && |r.value| == 1 ==> r.value[0] == Finding(name, High, VersionEvidence(version.value))
  {
    match version
    case None => Ok([])
    case Some(v) =>
      match Versions.IsOutdated(v, latest)
      case Err(e) => Err(e)
      case Ok(outdated) => Ok(if outdated then [Finding(name, High, VersionEvidence(v))] else [])
  }

  /**
   * The end of `scan_vulnerabilities`: the checks' findings, then the
   * outdated-core step's, then the rest; when the core step raised, the
   * whole scan is empty.
   */
  function Assemble(checks: seq<Finding>, core: Result<seq<Finding>>, rest: seq<Finding>): (r: seq<Finding>)
    ensures core.Err? ==> r == []
    ensures core.Ok? ==> |r| == |checks| + |core.value| + |rest|
    ensures core.Ok? ==> r[..|checks|] == checks
    ensures core.Ok? ==> r[|checks|..|checks| + |core.value|] == core.value
    ensures core.Ok? ==> r[|checks| + |core.value|..] == rest
  {
    match core
    case Err(_) => []
    case Ok(c) =>
      var r := checks + c + rest;
      assert r[..|checks|] == checks;
      assert r[|checks|..|checks| + |c|] == c;
      assert r[|checks| + |c|..] == rest;
      r
  }
}
