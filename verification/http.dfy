/**
 * The data every scanner works on: one HTTP answer, the cookies it set, the
 * findings reported about it, and a site seen as "path -> answer".
 */
module Http {
  import opened Wrappers
  import opened Text

  /** The three severity tiers the scanners report. */
  datatype Severity = High | Medium | Low

  /** The label a finding carries for its tier. */
  function SeverityLabel(s: Severity): string {
    match s
    case High => "عالية"
    case Medium => "متوسطة"
    case Low => "منخفضة"
  }

  /** A cookie with the two attributes the cookie check looks at. */
  datatype Cookie = Cookie(name: string, secure: bool, httpOnly: bool)

  /**
   * Response headers, keyed by lower-cased name: `requests` keeps them in a
   * case-insensitive dictionary, so a lookup only sees the name's lower case.
   */
  type Headers = map<string, string>

  /** An answer to one request: status code, body text, headers and cookies. */
  datatype Response = Response(status: int, body: string, headers: Headers, cookies: seq<Cookie>)

  /** The values of the fields whose name is `k` up to case, in the order they came. */
  function ValuesOf(fields: seq<(string, string)>, k: string): (vs: seq<string>)
    ensures |vs| > 0 <==> exists i :: 0 <= i < |fields| && Lower(fields[i].0) == k
    decreases |fields|
  {
    if |fields| == 0 then []
    else
      var rest := ValuesOf(fields[1..], k);
      assert forall i :: 1 <= i < |fields| ==> fields[1..][i - 1] == fields[i];
      if Lower(fields[0].0) == k then [fields[0].1] + rest else rest
  }

  /**
   * Building the header dictionary: a name is present when some field has it
   * up to case, and repeated fields of one name are joined with `", "` in the
   * order they came, as urllib3's header dictionary does.
   */
  function HeaderMap(fields: seq<(string, string)>): (h: Headers)
    ensures forall k :: k in h <==> exists i :: 0 <= i < |fields| && Lower(fields[i].0) == k
    ensures forall k :: k in h ==> h[k] == Join(ValuesOf(fields, k), ", ")
    decreases |fields|
  {
    if |fields| == 0 then map[]
    else
      var key := Lower(fields[0].0);
      var rest := HeaderMap(fields[1..]);
      assert forall i :: 1 <= i < |fields| ==> fields[1..][i - 1] == fields[i];
      assert forall k :: k != key ==> ValuesOf(fields, k) == ValuesOf(fields[1..], k);
      if key in rest then
        var vs := ValuesOf(fields[1..], key);
        assert ValuesOf(fields, key) == [fields[0].1] + vs && |vs| > 0;
        JoinCons(fields[0].1, vs, ", ");
        rest[key := fields[0].1 + ", " + rest[key]]
      else
        assert ValuesOf(fields, key) == [fields[0].1];
        rest[key := fields[0].1]
  }

  /** `name in headers` */
  predicate HasHeader(h: Headers, name: string) {
    Lower(name) in h
  }

  /** `headers.get(name)` */
  function Header(h: Headers, name: string): (r: Option<string>)
    ensures r.Some? <==> HasHeader(h, name)
  {
    if Lower(name) in h then Some(h[Lower(name)]) else None
  }

  /** Header lookup ignores the case of the name asked for. */
  lemma HeaderIgnoresCase(h: Headers, a: string, b: string)
    requires Lower(a) == Lower(b)
    ensures Header(h, a) == Header(h, b)
  {
  }

  /**
   * `if response:`: a missing answer (the request failed) is false, and a
   * `requests.Response` is true exactly when `raise_for_status` would not
   * raise, that is unless its status is a client or server error (400-599).
   */
  predicate Truthy(r: Option<Response>) {
    r.Some? && !(400 <= r.value.status < 600)
  }

  /** `response and response.status_code != 404` */
  predicate Reachable(r: Option<Response>) {
    Truthy(r) && r.value.status != 404
  }

  /** `response and response.status_code == 200` */
  predicate IsOk(r: Option<Response>) {
    Truthy(r) && r.value.status == 200
  }

  /** The 404 test adds nothing to truthiness: 404 is a client error, so no true answer has it. */
  lemma ReachableIsTruthy(r: Option<Response>)
    ensures Reachable(r) <==> Truthy(r)
  {
  }

  /** One reported weakness. */
  datatype Finding = Finding(name: string, severity: Severity, evidence: string)

  /**
   * A target site: `home` answers the scanner's own URL, `fetch(path)`
   * answers that URL joined with an absolute path (`urljoin(url, path)`).
   * A missing answer is a request that failed after its retries.
   */
  datatype Site = Site(home: Option<Response>, fetch: string -> Option<Response>)
}
