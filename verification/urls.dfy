/**
 * `validate_url` and `extract_domain` of `modules/utils.py`: a missing
 * scheme becomes `http://`, then `urlparse` splits off the scheme and the
 * network location (the authority of section 3.2 of RFC 3986: everything
 * after `//` up to the first `/`, `?` or `#`).
 */
module Urls {
  import opened Wrappers
  import opened Text

  /** Tab, carriage return and line feed: `urlsplit` deletes them anywhere in the URL. */
  const UnsafeUrlChars: set<char> := {'\t', '\r', '\n'}

  /** The characters that end the network location. */
  const NetlocEnd: set<char> := {'/', '?', '#'}

  /** `url.startswith(('http://', 'https://'))` */
  predicate HasWebScheme(url: string) {
    StartsWith(url, "http://") || StartsWith(url, "https://")
  }

  /** `url = 'http://' + url` unless a web scheme is already there. */
  function WithScheme(url: string): (r: string)
    ensures HasWebScheme(r)
    ensures HasWebScheme(url) ==> r == url
    ensures !HasWebScheme(url) ==> r == "http://" + url
  {
    if HasWebScheme(url) then url else "http://" + url
  }

  /** Prefixing twice is prefixing once: the URL keeps the scheme it was given. */
  lemma WithSchemeIdempotent(url: string)
    ensures WithScheme(WithScheme(url)) == WithScheme(url)
  {
  }

  /** The position of the first character of `stop` in `s`, or `|s|` when there is none. */
  function FirstOf(s: string, stop: set<char>): (k: nat)
    ensures k <= |s|
    ensures forall i :: 0 <= i < k ==> s[i] !in stop
    ensures k < |s| ==> s[k] in stop
    decreases |s|
  {
    if |s| == 0 || s[0] in stop then 0 else 1 + FirstOf(s[1..], stop)
  }

  /** The scheme `urlparse` reads off the prefixed URL. */
  function Scheme(url: string): (r: string)
    ensures r == "http" || r == "https"
  {
    if StartsWith(url, "https://") then "https" else "http"
  }

  /** What follows `scheme://` in the prefixed URL. */
  function Remainder(url: string): string {
    if StartsWith(url, "https://") then url[8..]
    else if StartsWith(url, "http://") then url[7..]
    else url
  }

  /** The two parts of `urlparse`'s answer that the helpers read. */
  datatype Parsed = Parsed(scheme: string, netloc: string)

  /**
   * `urlparse(url)` after the prefixing step: the scheme is the text before
   * the first colon, tab, carriage return and line feed are deleted, the
   * network location runs from after `//` to the first `/`, `?` or `#`, and
   * a location with only one of `[` and `]` raises `ValueError`.
   */
  function UrlParse(url: string): Result<Parsed> {
    var rest := Without(Remainder(url), UnsafeUrlChars);
    var netloc := rest[..FirstOf(rest, NetlocEnd)];
    if ('[' in netloc) != (']' in netloc) then Err("Invalid IPv6 URL")
    else Ok(Parsed(Scheme(url), netloc))
  }

  /** The scheme and the remainder split the prefixed URL exactly. */
  lemma SchemeSplit(url: string)
    ensures WithScheme(url) == Scheme(url) + "://" + Remainder(url)
  {
  }

  /** Neither web-scheme prefix holds an unsafe character. */
  lemma PrefixClean(p: string)
    requires p == "http://" || p == "https://"
    ensures Without(p, UnsafeUrlChars) == p
  {
    assert NoneOf(p, UnsafeUrlChars);
    WithoutNone(p, UnsafeUrlChars);
  }

  /** Cleaning the prefixed URL cleans only its remainder. */
  lemma CleanSplit(url: string)
    ensures Without(WithScheme(url), UnsafeUrlChars)
      == Scheme(url) + "://" + Without(Remainder(url), UnsafeUrlChars)
  {
    var p := Scheme(url) + "://";
    SchemeSplit(url);
    WithoutAppend(p, Remainder(url), UnsafeUrlChars);
    PrefixClean(p);
  }

  /** Behind a web-scheme prefix, the remainder is what follows it. */
  lemma PrefixRemainder(p: string, x: string)
    requires p == "http://" || p == "https://"
    ensures Remainder(p + x) == x && Scheme(p + x) == p[..|p| - 3]
  {
    assert (p + x)[..|p|] == p;
    assert (p + x)[|p|..] == x;
    if p == "http://" {
      assert (p + x)[4] == ':';
    }
  }

  /** `validate_url`: non-empty, parsed, with a scheme and a network location, and the scheme is a web one. */
  predicate ValidateUrl(url: string) {
    && |url| > 0
    && UrlParse(url).Ok?
    && |UrlParse(url).value.scheme| > 0
    && |UrlParse(url).value.netloc| > 0
    && UrlParse(url).value.scheme in ["http", "https"]
  }

  /**
   * `extract_domain`: the network location without a leading `www.`; the
   * empty URL gives the empty string and a URL that fails to parse comes
   * back with the prefix the function added.
   */
  function ExtractDomain(url: string): string {
    if |url| == 0 then ""
    else
      match UrlParse(url)
      case Err(_) => WithScheme(url)
      case Ok(p) => if StartsWith(p.netloc, "www.") then p.netloc[4..] else p.netloc
  }

  /** The prefixing step always leaves a web scheme, so validity comes down to a non-empty network location. */
  lemma ValidateUrlIff(url: string)
    ensures ValidateUrl(url) <==> |url| > 0 && UrlParse(url).Ok? && |UrlParse(url).value.netloc| > 0
  {
  }

  /** A host name: no unsafe character, nothing that ends the location, no bracket. */
  predicate HostName(h: string) {
    NoneOf(h, UnsafeUrlChars + NetlocEnd + {'[', ']'})
  }

  /** What may follow a host: nothing, or a path, query or fragment with no unsafe character. */
  predicate HostTail(t: string) {
    (|t| == 0 || t[0] in NetlocEnd) && NoneOf(t, UnsafeUrlChars)
  }

  /** A prefix without stop characters is passed over; the search stops where the tail starts one. */
  lemma {:induction false} FirstOfStops(h: string, t: string, stop: set<char>)
    requires NoneOf(h, stop)
    requires |t| == 0 || t[0] in stop
    ensures FirstOf(h + t, stop) == |h|
    decreases |h|
  {
    if |h| > 0 {
      assert (h + t)[1..] == h[1..] + t;
      FirstOfStops(h[1..], t, stop);
    } else {
      assert h + t == t;
    }
  }

  /** A remainder made of a host and a tail parses to that host. */
  lemma NetlocOfRemainder(url: string, h: string, t: string)
    requires Remainder(url) == h + t
    requires HostName(h) && HostTail(t)
    ensures UrlParse(url) == Ok(Parsed(Scheme(url), h))
  {
    assert NoneOf(h + t, UnsafeUrlChars) by {
      assert forall i :: 0 <= i < |h + t| ==> (h + t)[i] == if i < |h| then h[i] else t[i - |h|];
    }
    WithoutNone(h + t, UnsafeUrlChars);
    FirstOfStops(h, t, NetlocEnd);
    assert (h + t)[..|h|] == h;
  }

  /** A host behind either web scheme is a valid URL whose domain is the host without `www.`. */
  lemma HostUrl(p: string, h: string, t: string)
    requires p == "http://" || p == "https://"
    requires |h| > 0 && HostName(h) && HostTail(t)
    ensures ValidateUrl(p + h + t)
    ensures UrlParse(p + h + t) == Ok(Parsed(p[..|p| - 3], h))
    ensures ExtractDomain(p + h + t) == if StartsWith(h, "www.") then h[4..] else h
  {
    assert p + h + t == p + (h + t);
    PrefixRemainder(p, h + t);
    NetlocOfRemainder(p + h + t, h, t);
  }

  /** A host without a scheme gets `http://` in front and is then read the same way. */
  lemma BareHost(h: string, t: string)
    requires |h| > 0 && HostName(h) && HostTail(t) && !HasWebScheme(h + t)
    ensures ValidateUrl(h + t)
    ensures UrlParse(h + t) == Ok(Parsed("http", h))
    ensures ExtractDomain(h + t) == if StartsWith(h, "www.") then h[4..] else h
  {
    NetlocOfRemainder(h + t, h, t);
  }

  /** Only unsafe characters: nothing survives. */
  lemma {:induction false} WithoutAllBad(j: string, bad: set<char>)
    requires forall i :: 0 <= i < |j| ==> j[i] in bad
    ensures Without(j, bad) == []
    decreases |j|
  {
    if |j| > 0 {
      WithoutAllBad(j[1..], bad);
    }
  }

  /** The two web schemes exclude each other. */
  lemma HttpNotHttps(s: string)
    requires StartsWith(s, "http://")
    ensures !StartsWith(s, "https://")
  {
    assert s[4] == s[..7][4] == ':';
  }

  /** Tabs and line breaks appended to a URL that carries a web scheme change nothing in its parse. */
  lemma UnsafeTailIgnored(url: string, junk: string)
    requires HasWebScheme(url)
    requires forall i :: 0 <= i < |junk| ==> junk[i] in UnsafeUrlChars
    ensures UrlParse(url + junk) == UrlParse(url)
  {
    var n := if StartsWith(url, "https://") then 8 else 7;
    assert (url + junk)[..n] == url[..n];
    if !StartsWith(url, "https://") {
      assert (url + junk)[..7] == url[..7];
      HttpNotHttps(url + junk);
    }
    assert Remainder(url + junk) == Remainder(url) + junk by {
      assert (url + junk)[n..] == url[n..] + junk;
    }
    WithoutAppend(Remainder(url), junk, UnsafeUrlChars);
    WithoutAllBad(junk, UnsafeUrlChars);
    assert Without(Remainder(url), UnsafeUrlChars) + [] == Without(Remainder(url), UnsafeUrlChars);
  }

  /** Characters a host name may hold. */
  predicate HostChar(c: char) {
    c !in UnsafeUrlChars && c !in NetlocEnd && c != '[' && c != ']'
  }

  /** A host name is a run of host characters. */
  lemma HostNameChars(h: string)
    requires forall i :: 0 <= i < |h| ==> HostChar(h[i])
    ensures HostName(h)
  {
  }

  /** `example.com` is a valid URL whose domain is itself. */
  lemma ExampleIsValid()
    ensures ValidateUrl("example.com")
    ensures ExtractDomain("example.com") == "example.com"
  {
    var h := "example.com";
    assert h[0] == 'e';
    assert !StartsWith(h, "www.") by { assert h[..4][0] == 'e'; }
    assert h + "" == h;
    HostNameChars(h);
    BareHost(h, "");
  }

  /** `extract_domain` drops a leading `www.`. */
  lemma ExampleDropsWww()
    ensures ExtractDomain("www.example.com") == "example.com"
  {
    var h := "www.example.com";
    assert h[0] == 'w';
    assert h + "" == h;
    assert h[..4] == "www.";
    HostNameChars(h);
    BareHost(h, "");
  }

  /** An opening bracket without its closing one raises: the URL is invalid and `extract_domain` returns it prefixed. */
  lemma UnbalancedBracket()
    ensures !ValidateUrl("[::1")
    ensures ExtractDomain("[::1") == "http://[::1"
  {
    var u := "[::1";
    assert u[0] == '[';
    assert Remainder(u) == u;
    WithoutNone(u, UnsafeUrlChars);
    assert u + "" == u;
    FirstOfStops(u, "", NetlocEnd);
    assert u[..4] == u;
    assert '[' in u && ']' !in u;
  }
}
