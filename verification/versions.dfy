/**
 * The version comparator of the two CMS scanners: a dotted version is split
 * on '.', every segment goes through `int()`, and the segment lists are
 * compared left to right against a fixed baseline, the shorter list losing a
 * tie. A segment `int()` refuses makes the whole comparison raise.
 */
module Versions {
  import opened Wrappers
  import opened Text

  /** Converting every segment with `conv`, in order; the first segment it refuses raises. */
  function ConvertAll(parts: seq<string>, conv: string -> Option<int>): (r: Result<seq<int>>)
    ensures r.Ok? <==> forall k :: 0 <= k < |parts| ==> conv(parts[k]).Some?
    ensures r.Ok? ==> |r.value| == |parts| && forall k :: 0 <= k < |parts| ==> conv(parts[k]) == Some(r.value[k])
    decreases |parts|
  {
    if |parts| == 0 then Ok([])
    else if conv(parts[0]).None? then Err("invalid literal for int() with base 10")
    else
      var rest := ConvertAll(parts[1..], conv);
      assert forall k :: 1 <= k < |parts| ==> parts[1..][k - 1] == parts[k];
      if rest.Err? then rest else Ok([conv(parts[0]).value] + rest.value)
  }

  /** `list(map(int, parts))`: every segment goes through `int()`. */
  function ParseSegments(parts: seq<string>): (r: Result<seq<int>>)
    ensures r.Ok? <==> forall k :: 0 <= k < |parts| ==> PyInt(parts[k]).Some?
    ensures r.Ok? ==> |r.value| == |parts| && forall k :: 0 <= k < |parts| ==> PyInt(parts[k]) == Some(r.value[k])
  {
    ConvertAll(parts, PyInt)
  }

  /** `list(map(int, version.split('.')))` */
  function ParseVersion(version: string): Result<seq<int>> {
    ParseSegments(Split(version, '.'))
  }

  /** The comparison loop of `_is_outdated_version`, read recursively. */
  function Below(a: seq<int>, b: seq<int>): bool
    decreases |a|
  {
    if |a| == 0 || |b| == 0 then |a| < |b|
    else if a[0] < b[0] then true
    else if a[0] > b[0] then false
    else Below(a[1..], b[1..])
  }

  /**
   * The strict lexicographic order on segment lists: `a` and `b` agree up to
   * some `k`, where either `a` has the smaller segment or `a` has ended while
   * `b` goes on.
   */
  ghost predicate LexLess(a: seq<int>, b: seq<int>) {
    exists k :: 0 <= k <= |a| && k <= |b| && a[..k] == b[..k]
      && ((k < |a| && k < |b| && a[k] < b[k]) || (k == |a| && k < |b|))
  }

  /** The loop decides exactly the lexicographic order. */
  lemma {:induction false} BelowIsLexLess(a: seq<int>, b: seq<int>)
    ensures Below(a, b) <==> LexLess(a, b)
    decreases |a|
  {
    if |a| == 0 || |b| == 0 {
      if |a| < |b| {
        assert a[..0] == b[..0];
      }
    } else if a[0] < b[0] {
      assert a[..0] == b[..0];
    } else if a[0] > b[0] {
      forall k | 0 <= k <= |a| && k <= |b|
        ensures !(a[..k] == b[..k]
          && ((k < |a| && k < |b| && a[k] < b[k]) || (k == |a| && k < |b|)))
      {
        if k > 0 {
          assert a[..k][0] != b[..k][0];
        }
      }
    } else {
      BelowIsLexLess(a[1..], b[1..]);
      if LexLess(a[1..], b[1..]) {
        var k :| 0 <= k <= |a[1..]| && k <= |b[1..]| && a[1..][..k] == b[1..][..k]
          && ((k < |a[1..]| && k < |b[1..]| && a[1..][k] < b[1..][k]) || (k == |a[1..]| && k < |b[1..]|));
        assert a[..k + 1] == [a[0]] + a[1..][..k];
        assert b[..k + 1] == [b[0]] + b[1..][..k];
      }
      if LexLess(a, b) {
        var k :| 0 <= k <= |a| && k <= |b| && a[..k] == b[..k]
          && ((k < |a| && k < |b| && a[k] < b[k]) || (k == |a| && k < |b|));
        assert k > 0;
        assert a[1..][..k - 1] == a[..k][1..];
        assert b[1..][..k - 1] == b[..k][1..];
      }
    }
  }

  /**
   * The loop of `_is_outdated_version` over the parsed segments: compare up
   * to the shorter length, decide at the first difference, else the shorter
   * list is the older one.
   */
  method OutdatedSegments(a: seq<int>, b: seq<int>) returns (outdated: bool)
    ensures outdated <==> LexLess(a, b)
  {
    var n := if |a| < |b| then |a| else |b|;
    var i := 0;
    while i < n
      invariant 0 <= i <= n
      invariant Below(a, b) == Below(a[i..], b[i..])
    {
      assert a[i..][1..] == a[i + 1..] && b[i..][1..] == b[i + 1..];
      if a[i] < b[i] {
        BelowIsLexLess(a, b);
        return true;
      } else if a[i] > b[i] {
        BelowIsLexLess(a, b);
        return false;
      }
      i := i + 1;
    }
    BelowIsLexLess(a, b);
    return |a| < |b|;
  }

  /** No version is below itself. */
  lemma {:induction false} BelowIrreflexive(a: seq<int>)
    ensures !Below(a, a)
    decreases |a|
  {
    if |a| > 0 {
      BelowIrreflexive(a[1..]);
    }
  }

  /** Of two different versions exactly one is below the other. */
  lemma {:induction false} BelowTrichotomy(a: seq<int>, b: seq<int>)
    ensures a == b ==> !Below(a, b) && !Below(b, a)
    ensures a != b ==> Below(a, b) != Below(b, a)
    decreases |a|
  {
    if a == b {
      BelowIrreflexive(a);
    } else if |a| > 0 && |b| > 0 && a[0] == b[0] {
      BelowTrichotomy(a[1..], b[1..]);
      assert a == [a[0]] + a[1..] && b == [b[0]] + b[1..];
    }
  }

  /** Being below is transitive. */
  lemma {:induction false} BelowTransitive(a: seq<int>, b: seq<int>, c: seq<int>)
    requires Below(a, b) && Below(b, c)
    ensures Below(a, c)
    decreases |a|
  {
    if |a| > 0 && |b| > 0 && |c| > 0 && a[0] == b[0] && b[0] == c[0] {
      BelowTransitive(a[1..], b[1..], c[1..]);
    }
  }

  /** `_is_outdated_version(version)` against `latest`; `Err` is the `ValueError` a bad segment raises. */
  function IsOutdated(version: string, latest: string): (r: Result<bool>)
    ensures r.Ok? <==> ParseVersion(version).Ok? && ParseVersion(latest).Ok?
    ensures r.Ok? ==> (r.value <==> LexLess(ParseVersion(version).value, ParseVersion(latest).value))
  {
    match ParseVersion(version)
    case Err(e) => Err(e)
    case Ok(a) =>
      match ParseVersion(latest)
      case Err(e) => Err(e)
      case Ok(b) =>
        BelowIsLexLess(a, b);
        Ok(Below(a, b))
  }

  /** A version is never outdated against itself. */
  lemma EqualNotOutdated(version: string)
    requires ParseVersion(version).Ok?
    ensures IsOutdated(version, version) == Ok(false)
  {
    BelowIrreflexive(ParseVersion(version).value);
  }

  /** The WordPress baseline. */
  const WordPressLatest: string := "6.4.2"

  /** The Joomla baseline. */
  const JoomlaLatest: string := "4.3.3"

  /** Reading one digit segment. */
  lemma ParseDigit(d: string)
    requires |d| == 1 && IsDigit(d[0])
    ensures PyInt(d) == Some(d[0] as int - '0' as int)
  {
    PyIntDigits(d);
    assert d[..0] == "";
  }

  /** A version of three one-digit segments. */
  lemma ParseThree(v: string)
    requires |v| == 5 && IsDigit(v[0]) && v[1] == '.' && IsDigit(v[2]) && v[3] == '.' && IsDigit(v[4])
    ensures ParseVersion(v) == Ok([v[0] as int - '0' as int, v[2] as int - '0' as int, v[4] as int - '0' as int])
  {
    SplitThree(v);
    ParseDigit(v[0..1]);
    ParseDigit(v[2..3]);
    ParseDigit(v[4..5]);
    ConvertThree(v[0..1], v[2..3], v[4..5], PyInt);
  }

  /** Three segments that all convert give their three values. */
  lemma ConvertThree(a: string, b: string, c: string, conv: string -> Option<int>)
    requires conv(a).Some? && conv(b).Some? && conv(c).Some?
    ensures ConvertAll([a, b, c], conv) == Ok([conv(a).value, conv(b).value, conv(c).value])
  {
    var parts := [a, b, c];
    assert forall k :: 0 <= k < 3 ==> conv(parts[k]).Some?;
    var r := ConvertAll(parts, conv);
    assert conv(parts[0]) == Some(r.value[0]) && conv(parts[1]) == Some(r.value[1]) && conv(parts[2]) == Some(r.value[2]);
    assert r.value == [r.value[0], r.value[1], r.value[2]];
  }

  /** Three one-character segments with dots between split back into those segments. */
  lemma SplitThree(v: string)
    requires |v| == 5 && v[0] != '.' && v[1] == '.' && v[2] != '.' && v[3] == '.' && v[4] != '.'
    ensures Split(v, '.') == [v[0..1], v[2..3], v[4..5]]
  {
    var parts := [v[0..1], v[2..3], v[4..5]];
    assert Join(parts[2..], ".") == v[4..5];
    assert Join(parts[1..], ".") == v[2..3] + "." + v[4..5];
    assert Join(parts, ".") == v[0..1] + "." + (v[2..3] + "." + v[4..5]);
    assert v == v[0..1] + "." + (v[2..3] + "." + v[4..5]);
    JoinSplit(parts, '.');
  }

  /** A version of two one-digit segments. */
  lemma ParseTwo(v: string)
    requires |v| == 3 && IsDigit(v[0]) && v[1] == '.' && IsDigit(v[2])
    ensures ParseVersion(v) == Ok([v[0] as int - '0' as int, v[2] as int - '0' as int])
  {
    var parts := [v[0..1], v[2..3]];
    assert Join(parts[1..], ".") == v[2..3];
    assert Join(parts, ".") == v[0..1] + "." + v[2..3];
    assert v == v[0..1] + "." + v[2..3];
    JoinSplit(parts, '.');
    ParseDigit(v[0..1]);
    ParseDigit(v[2..3]);
    assert Split(v, '.') == parts;
    var r := ParseSegments(parts);
    assert r.Ok? && |r.value| == 2;
    assert r.value == [r.value[0], r.value[1]];
  }

  /** Once both sides parse, the answer is the segment comparison. */
  lemma OutdatedOf(v: string, latest: string, a: seq<int>, b: seq<int>)
    requires ParseVersion(v) == Ok(a) && ParseVersion(latest) == Ok(b)
    ensures IsOutdated(v, latest) == Ok(Below(a, b))
  {
  }

  /** The Joomla cases: "4.3" is outdated, "4.4" and "4.3.3" are not. */
  lemma JoomlaExamples()
    ensures IsOutdated("4.3", JoomlaLatest) == Ok(true)
    ensures IsOutdated("4.4", JoomlaLatest) == Ok(false)
    ensures IsOutdated("4.3.3", JoomlaLatest) == Ok(false)
  {
    ParseThree(JoomlaLatest);
    ParseTwo("4.3");
    ParseTwo("4.4");
    OutdatedOf("4.3", JoomlaLatest, [4, 3], [4, 3, 3]);
    OutdatedOf("4.4", JoomlaLatest, [4, 4], [4, 3, 3]);
    OutdatedOf("4.3.3", JoomlaLatest, [4, 3, 3], [4, 3, 3]);
    BelowIrreflexive([4, 3, 3]);
  }

  /** The WordPress cases: a prefix is outdated, a larger later segment is not, an equal version is not. */
  lemma WordPressExamples()
    ensures IsOutdated("6.4", WordPressLatest) == Ok(true)
    ensures IsOutdated("6.4.2", WordPressLatest) == Ok(false)
    ensures IsOutdated("6.3.9", WordPressLatest) == Ok(true)
    ensures IsOutdated("6.5", WordPressLatest) == Ok(false)
  {
    ParseThree(WordPressLatest);
    ParseThree("6.3.9");
    ParseTwo("6.4");
    ParseTwo("6.5");
    OutdatedOf("6.4", WordPressLatest, [6, 4], [6, 4, 2]);
    OutdatedOf("6.4.2", WordPressLatest, [6, 4, 2], [6, 4, 2]);
    OutdatedOf("6.3.9", WordPressLatest, [6, 3, 9], [6, 4, 2]);
    OutdatedOf("6.5", WordPressLatest, [6, 5], [6, 4, 2]);
    BelowIrreflexive([6, 4, 2]);
  }

  /** An empty segment ("6.4.") makes `int('')` raise. */
  lemma TrailingDotRaises(v: string)
    requires |v| > 0 && v[|v| - 1] == '.'
    ensures IsOutdated(v, WordPressLatest).Err? && IsOutdated(v, JoomlaLatest).Err?
  {
    SplitJoin(v, '.');
    var parts := Split(v, '.');
    var last := parts[|parts| - 1];
    LastPieceIsSuffix(parts, '.');
    assert last == "";
    assert PyInt(last).None?;
  }

  /** The last piece of a join is a suffix of it. */
  lemma {:induction false} LastPieceIsSuffix(parts: seq<string>, c: char)
    requires |parts| >= 1
    ensures var j := Join(parts, [c]); var last := parts[|parts| - 1];
      |last| <= |j| && j[|j| - |last|..] == last
    decreases |parts|
  {
    if |parts| > 1 {
      LastPieceIsSuffix(parts[1..], c);
      assert parts[1..][|parts[1..]| - 1] == parts[|parts| - 1];
    }
  }

  /** `_is_outdated_plugin`: a version starting with "1." or "2." counts as outdated. */
  function IsOutdatedPlugin(version: string): (r: bool)
    ensures r <==> |version| >= 2 && (version[0] == '1' || version[0] == '2') && version[1] == '.'
  {
    StartsWith(version, "1.") || StartsWith(version, "2.")
  }

  /** "10.0" and "1" are not outdated plugins; "1.9" and "2.0.1" are. */
  lemma PluginExamples()
    ensures !IsOutdatedPlugin("10.0") && !IsOutdatedPlugin("1")
    ensures IsOutdatedPlugin("1.9") && IsOutdatedPlugin("2.0.1")
  {
  }
}
