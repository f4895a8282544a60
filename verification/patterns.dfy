/**
 * Hand-written scanners for the fixed regular expressions the scanners use.
 *
 * Every such expression has the shape `lead (capture) trail`: a lead made of
 * literals, single characters of a class (an unescaped `.`) and
 * one-or-more runs of a character class (`\s+`, `[^/]+`), one
 * captured run (`([\d.]+)`, `([^/]+)`, `(.+)`, `([a-zA-Z0-9_]+)`), then a
 * literal trail. `MatchAt` evaluates one greedily; `Captures` is the
 * relational reading of the same expression (every capture a backtracking
 * matcher could produce), and `MatchAtIsLongest` shows the greedy evaluation
 * returns the longest of them, which is what Python's `re` returns.
 */
module Patterns {
  import opened Wrappers
  import opened Text

  /** The character classes the fixed expressions use. */
  datatype Class =
    | VersionChars  // [\d.]
    | NotSlash      // [^/]
    | WordChars     // [a-zA-Z0-9_]
    | NotNewline    // .
    | Spaces        // \s

  predicate InClass(c: char, cls: Class) {
    match cls
    case VersionChars => IsDigit(c) || c == '.'
    case NotSlash => c != '/'
    case WordChars => ('a' <= c <= 'z') || ('A' <= c <= 'Z') || IsDigit(c) || c == '_'
    case NotNewline => c != '\n'
    case Spaces => IsSpace(c)
  }

  /** Every character of `s[i..j]` is in `cls`. */
  predicate AllIn(s: string, i: nat, j: nat, cls: Class)
    requires i <= j <= |s|
  {
    forall k :: i <= k < j ==> InClass(s[k], cls)
  }

  /** Where the maximal run of `cls` characters starting at `i` ends. */
  function RunEnd(s: string, i: nat, cls: Class): (e: nat)
    requires i <= |s|
    ensures i <= e <= |s| && AllIn(s, i, e, cls)
    ensures e == |s| || !InClass(s[e], cls)
    decreases |s| - i
  {
    if i < |s| && InClass(s[i], cls) then RunEnd(s, i + 1, cls) else i
  }

  /** No run of `cls` characters extends past `RunEnd`. */
  lemma RunEndMaximal(s: string, i: nat, j: nat, cls: Class)
    requires i <= j <= |s| && AllIn(s, i, j, cls)
    ensures j <= RunEnd(s, i, cls)
  {
  }

  /** One element of a lead: a literal, exactly one character of a class, or one or more of them. */
  datatype Tok = Lit(text: string) | One(cls: Class) | Run(cls: Class)

  /** `lead (capture+) trail` */
  datatype Pattern = Pattern(lead: seq<Tok>, capture: Class, trail: string)

  /** `prefix(cls+)`: a literal followed by a captured run. */
  function After(prefix: string, cls: Class): Pattern {
    Pattern([Lit(prefix)], cls, "")
  }

  /** The largest `j` with `k < j <= e` at which `trail` follows. */
  function LastTrail(s: string, k: nat, e: nat, trail: string): (r: Option<nat>)
    requires k <= e <= |s|
    ensures r.Some? ==> k < r.value <= e && StartsWith(s[r.value..], trail)
    ensures r.Some? ==> forall j :: r.value < j <= e ==> !StartsWith(s[j..], trail)
    ensures r.None? ==> forall j :: k < j <= e ==> !StartsWith(s[j..], trail)
    decreases e - k
  {
    if e <= k then None
    else if StartsWith(s[e..], trail) then Some(e)
    else LastTrail(s, k, e - 1, trail)
  }

  /** Greedy evaluation of `lead (capture+) trail` anchored at offset `i`. */
  function MatchAt(s: string, i: nat, lead: seq<Tok>, cls: Class, trail: string): Option<string>
    requires i <= |s|
    decreases |lead|
  {
    if |lead| == 0 then
      match LastTrail(s, i, RunEnd(s, i, cls), trail)
      case None => None
      case Some(j) => Some(s[i..j])
    else
      match lead[0]
      case Lit(t) =>
        if StartsWith(s[i..], t) then MatchAt(s, i + |t|, lead[1..], cls, trail) else None
      case One(c) =>
        if i < |s| && InClass(s[i], c) then MatchAt(s, i + 1, lead[1..], cls, trail) else None
      case Run(c) =>
        var e := RunEnd(s, i, c);
        if e > i then MatchAt(s, e, lead[1..], cls, trail) else None
  }

  /** `v` is a capture some backtracking match of `lead (capture+) trail` at `i` produces. */
  ghost predicate Captures(s: string, i: nat, lead: seq<Tok>, cls: Class, trail: string, v: string)
    requires i <= |s|
    decreases |lead|
  {
    if |lead| == 0 then
      && i < i + |v| <= |s| && v == s[i..i + |v|]
      && AllIn(s, i, i + |v|, cls) && StartsWith(s[i + |v|..], trail)
    else
      match lead[0]
      case Lit(t) =>
        StartsWith(s[i..], t) && Captures(s, i + |t|, lead[1..], cls, trail, v)
      case One(c) =>
        i < |s| && InClass(s[i], c) && Captures(s, i + 1, lead[1..], cls, trail, v)
      case Run(c) =>
        exists k :: i < k <= |s| && AllIn(s, i, k, c) && Captures(s, k, lead[1..], cls, trail, v)
  }

  /** `a` and `b` share no character (the pairs the expressions rely on). */
  predicate Disjoint(a: Class, b: Class) {
    (a == Spaces && b == VersionChars) || (a == VersionChars && b == Spaces)
  }

  lemma DisjointSound(a: Class, b: Class, c: char)
    requires Disjoint(a, b) && InClass(c, a)
    ensures !InClass(c, b)
  {
  }

  /**
   * A lead run is followed by a literal that cannot start inside the run, or
   * by a capture of a disjoint class: then the run has a single way to end.
   */
  predicate WellFormed(lead: seq<Tok>, cls: Class) {
    forall m {:trigger lead[m]} :: 0 <= m < |lead| && lead[m].Run? ==>
      if m + 1 < |lead| then
        lead[m + 1].Lit? && |lead[m + 1].text| > 0 && !InClass(lead[m + 1].text[0], lead[m].cls)
      else Disjoint(lead[m].cls, cls)
  }

  lemma WellFormedTail(lead: seq<Tok>, cls: Class)
    requires |lead| > 0 && WellFormed(lead, cls)
    ensures WellFormed(lead[1..], cls)
  {
    forall m | 0 <= m < |lead[1..]| && lead[1..][m].Run?
      ensures if m + 1 < |lead[1..]| then
          lead[1..][m + 1].Lit? && |lead[1..][m + 1].text| > 0
          && !InClass(lead[1..][m + 1].text[0], lead[1..][m].cls)
        else Disjoint(lead[1..][m].cls, cls)
    {
      assert lead[1..][m] == lead[m + 1];
      if m + 1 < |lead[1..]| {
        assert lead[1..][m + 1] == lead[m + 2];
      } else {
        var n := m + 1;
        assert n + 1 == |lead| && lead[n].Run?;
        assert Disjoint(lead[n].cls, cls);
      }
    }
  }

  /** What the greedy evaluation returns is a capture. */
  lemma {:induction false} MatchAtSound(s: string, i: nat, lead: seq<Tok>, cls: Class, trail: string)
    requires i <= |s| && MatchAt(s, i, lead, cls, trail).Some?
    ensures Captures(s, i, lead, cls, trail, MatchAt(s, i, lead, cls, trail).value)
    decreases |lead|, 1
  {
    if |lead| == 0 {
      var v := MatchAt(s, i, lead, cls, trail).value;
      var j := LastTrail(s, i, RunEnd(s, i, cls), trail).value;
      assert v == s[i..j] && |v| == j - i;
    } else {
      match lead[0]
      case Lit(t) => SoundLit(s, i, lead, cls, trail);
      case One(c) => SoundOne(s, i, lead, cls, trail);
      case Run(c) => SoundRun(s, i, lead, cls, trail);
    }
  }

  /** `MatchAtSound` when the lead starts with a literal. */
  lemma {:induction false} SoundLit(s: string, i: nat, lead: seq<Tok>, cls: Class, trail: string)
    requires i <= |s| && |lead| > 0 && lead[0].Lit? && MatchAt(s, i, lead, cls, trail).Some?
    ensures Captures(s, i, lead, cls, trail, MatchAt(s, i, lead, cls, trail).value)
    decreases |lead|, 0
  {
    MatchLit(s, i, lead, cls, trail);
    MatchAtSound(s, i + |lead[0].text|, lead[1..], cls, trail);
  }

  /** `MatchAtSound` when the lead starts with a single character of a class. */
  lemma {:induction false} SoundOne(s: string, i: nat, lead: seq<Tok>, cls: Class, trail: string)
    requires i <= |s| && |lead| > 0 && lead[0].One? && MatchAt(s, i, lead, cls, trail).Some?
    ensures Captures(s, i, lead, cls, trail, MatchAt(s, i, lead, cls, trail).value)
    decreases |lead|, 0
  {
    MatchOne(s, i, lead, cls, trail);
    MatchAtSound(s, i + 1, lead[1..], cls, trail);
  }

  /** `MatchAtSound` when the lead starts with a run of a class. */
  lemma {:induction false} SoundRun(s: string, i: nat, lead: seq<Tok>, cls: Class, trail: string)
    requires i <= |s| && |lead| > 0 && lead[0].Run? && MatchAt(s, i, lead, cls, trail).Some?
    ensures Captures(s, i, lead, cls, trail, MatchAt(s, i, lead, cls, trail).value)
    decreases |lead|, 0
  {
    var e := RunEnd(s, i, lead[0].cls);
    MatchRun(s, i, lead, cls, trail);
    MatchAtSound(s, e, lead[1..], cls, trail);
  }

  /** A capture whose lead starts outside `c` (or whose capture class is disjoint from `c`) does not start inside `c`. */
  lemma CaptureStart(s: string, i: nat, lead: seq<Tok>, cls: Class, trail: string, v: string, c: Class)
    requires i <= |s| && Captures(s, i, lead, cls, trail, v)
    requires if |lead| == 0 then Disjoint(c, cls)
      else lead[0].Lit? && |lead[0].text| > 0 && !InClass(lead[0].text[0], c)
    ensures i < |s| ==> !InClass(s[i], c)
  {
    if |lead| == 0 {
      assert InClass(s[i], cls);
      if InClass(s[i], c) {
        DisjointSound(c, cls, s[i]);
      }
    } else {
      assert s[i..][0] == lead[0].text[0];
    }
  }

  /** Every capture is matched by the greedy evaluation, and is no longer than what it returns. */
  lemma {:induction false} MatchAtComplete(s: string, i: nat, lead: seq<Tok>, cls: Class, trail: string, v: string)
    requires i <= |s| && WellFormed(lead, cls) && Captures(s, i, lead, cls, trail, v)
    ensures MatchAt(s, i, lead, cls, trail).Some?
    ensures |v| <= |MatchAt(s, i, lead, cls, trail).value|
    decreases |lead|, 1
  {
    if |lead| == 0 {
      CaptureComplete(s, i, lead, cls, trail, v);
    } else {
      match lead[0]
      case Lit(t) => CompleteLit(s, i, lead, cls, trail, v);
      case One(c) => CompleteOne(s, i, lead, cls, trail, v);
      case Run(c) => CompleteRun(s, i, lead, cls, trail, v);
    }
  }

  /** `MatchAtComplete` when the lead starts with a literal. */
  lemma {:induction false} CompleteLit(s: string, i: nat, lead: seq<Tok>, cls: Class, trail: string, v: string)
    requires i <= |s| && |lead| > 0 && lead[0].Lit? && WellFormed(lead, cls) && Captures(s, i, lead, cls, trail, v)
    ensures MatchAt(s, i, lead, cls, trail).Some?
    ensures |v| <= |MatchAt(s, i, lead, cls, trail).value|
    decreases |lead|, 0
  {
    WellFormedTail(lead, cls);
    MatchAtComplete(s, i + |lead[0].text|, lead[1..], cls, trail, v);
    MatchLit(s, i, lead, cls, trail);
  }

  /** `MatchAtComplete` when the lead starts with a single character of a class. */
  lemma {:induction false} CompleteOne(s: string, i: nat, lead: seq<Tok>, cls: Class, trail: string, v: string)
    requires i <= |s| && |lead| > 0 && lead[0].One? && WellFormed(lead, cls) && Captures(s, i, lead, cls, trail, v)
    ensures MatchAt(s, i, lead, cls, trail).Some?
    ensures |v| <= |MatchAt(s, i, lead, cls, trail).value|
    decreases |lead|, 0
  {
    WellFormedTail(lead, cls);
    MatchAtComplete(s, i + 1, lead[1..], cls, trail, v);
    MatchOne(s, i, lead, cls, trail);
  }

  /** `MatchAtComplete` when the lead starts with a run of a class. */
  lemma {:induction false} CompleteRun(s: string, i: nat, lead: seq<Tok>, cls: Class, trail: string, v: string)
    requires i <= |s| && |lead| > 0 && lead[0].Run? && WellFormed(lead, cls) && Captures(s, i, lead, cls, trail, v)
    ensures MatchAt(s, i, lead, cls, trail).Some?
    ensures |v| <= |MatchAt(s, i, lead, cls, trail).value|
    decreases |lead|, 0
  {
    WellFormedTail(lead, cls);
    var k := RunCapture(s, i, lead, cls, trail, v);
    MatchAtComplete(s, k, lead[1..], cls, trail, v);
    MatchRun(s, i, lead, cls, trail);
  }

  /** In a well-formed expression, a capture after a lead run continues where the maximal run ends. */
  lemma RunCapture(s: string, i: nat, lead: seq<Tok>, cls: Class, trail: string, v: string) returns (k: nat)
    requires i <= |s| && |lead| > 0 && lead[0].Run? && WellFormed(lead, cls) && Captures(s, i, lead, cls, trail, v)
    ensures i < k == RunEnd(s, i, lead[0].cls) <= |s| && Captures(s, k, lead[1..], cls, trail, v)
  {
    var c := lead[0].cls;
    k :| i < k <= |s| && AllIn(s, i, k, c) && Captures(s, k, lead[1..], cls, trail, v);
    RunEndMaximal(s, i, k, c);
    assert 0 < |lead| && lead[0].Run?;
    CaptureStart(s, k, lead[1..], cls, trail, v, c);
  }

  /** With nothing left of the lead, the capture is matched, and the greedy one is no shorter. */
  lemma CaptureComplete(s: string, i: nat, lead: seq<Tok>, cls: Class, trail: string, v: string)
    requires i <= |s| && |lead| == 0 && Captures(s, i, lead, cls, trail, v)
    ensures MatchAt(s, i, lead, cls, trail).Some?
    ensures |v| <= |MatchAt(s, i, lead, cls, trail).value|
  {
    var j := i + |v|;
    RunEndMaximal(s, i, j, cls);
    var e := RunEnd(s, i, cls);
    assert StartsWith(s[j..], trail) && i < j <= e;
    var m := LastTrail(s, i, e, trail);
    assert m.Some? && j <= m.value;
  }

  /** A run of the capture class closed by a trail that cannot continue it is captured whole. */
  lemma CaptureThenTrail(s: string, i: nat, lead: seq<Tok>, v: string, cls: Class, trail: string)
    requires i <= |s| && s[i..] == v + trail && |lead| == 0
    requires |v| > 0 && forall c :: 0 <= c < |v| ==> InClass(v[c], cls)
    requires |trail| > 0 && !InClass(trail[0], cls)
    ensures MatchAt(s, i, lead, cls, trail) == Some(v)
  {
    var j := i + |v|;
    assert forall c :: i <= c < j ==> s[c] == s[i..][c - i] == v[c - i];
    assert s[j] == s[i..][|v|] == trail[0];
    RunEndMaximal(s, i, j, cls);
    assert RunEnd(s, i, cls) == j;
    assert s[j..] == s[i..][|v|..] == trail;
    assert LastTrail(s, i, j, trail) == Some(j);
    assert s[i..j] == v;
  }

  /** A literal that `s[i..]` starts with is stepped over. */
  lemma MatchLit(s: string, i: nat, lead: seq<Tok>, cls: Class, trail: string)
    requires i <= |s| && |lead| > 0 && lead[0].Lit? && StartsWith(s[i..], lead[0].text)
    ensures MatchAt(s, i, lead, cls, trail) == MatchAt(s, i + |lead[0].text|, lead[1..], cls, trail)
  {
  }

  /** A non-empty run of its class is stepped over whole. */
  lemma MatchRun(s: string, i: nat, lead: seq<Tok>, cls: Class, trail: string)
    requires i <= |s| && |lead| > 0 && lead[0].Run? && RunEnd(s, i, lead[0].cls) > i
    ensures MatchAt(s, i, lead, cls, trail) == MatchAt(s, RunEnd(s, i, lead[0].cls), lead[1..], cls, trail)
  {
  }

  /** A single character of its class is stepped over. */
  lemma MatchOne(s: string, i: nat, lead: seq<Tok>, cls: Class, trail: string)
    requires i < |s| && |lead| > 0 && lead[0].One? && InClass(s[i], lead[0].cls)
    ensures MatchAt(s, i, lead, cls, trail) == MatchAt(s, i + 1, lead[1..], cls, trail)
  {
  }

  /** Where the pieces of `a + [x] + b + tail` sit. */
  lemma Pieces(a: string, x: char, b: string, tail: string)
    ensures var s := a + [x] + b + tail;
      && StartsWith(s, a) && s[|a|] == x
      && StartsWith(s[|a| + 1..], b) && s[|a| + 1 + |b|..] == tail
  {
    var s := a + [x] + b + tail;
    assert s[..|a|] == a;
    assert s[|a| + 1..] == b + tail;
    assert s[|a| + 1..][..|b|] == b;
  }

  /** A last literal, then a run of the capture class closed by the trail. */
  lemma MatchLastLit(s: string, i: nat, last: seq<Tok>, v: string, cls: Class, trail: string)
    requires i <= |s| && |last| == 1 && last[0].Lit? && StartsWith(s[i..], last[0].text)
    requires s[i + |last[0].text|..] == v + trail
    requires |v| > 0 && forall k :: 0 <= k < |v| ==> InClass(v[k], cls)
    requires |trail| > 0 && !InClass(trail[0], cls)
    ensures MatchAt(s, i, last, cls, trail) == Some(v)
  {
    CaptureThenTrail(s, i + |last[0].text|, last[1..], v, cls, trail);
    MatchLit(s, i, last, cls, trail);
  }

  /** `a.b(cls+)trail` matched at the start of a text laid out piece by piece. */
  lemma MatchLitOneLit(s: string, a: string, c: Class, b: string, v: string, cls: Class, trail: string)
    requires StartsWith(s, a) && |a| < |s| && InClass(s[|a|], c)
    requires StartsWith(s[|a| + 1..], b) && s[|a| + 1 + |b|..] == v + trail
    requires |v| > 0 && forall k :: 0 <= k < |v| ==> InClass(v[k], cls)
    requires |trail| > 0 && !InClass(trail[0], cls)
    ensures MatchAt(s, 0, [Lit(a), One(c), Lit(b)], cls, trail) == Some(v)
  {
    var lead := [Lit(a), One(c), Lit(b)];
    var one, last := lead[1..], lead[1..][1..];
    assert lead[0] == Lit(a) && one[0] == One(c) && last == [Lit(b)];
    MatchLastLit(s, |a| + 1, last, v, cls, trail);
    MatchOne(s, |a|, one, cls, trail);
    MatchLit(s, 0, lead, cls, trail);
  }

  /** `a.b(cls+)trail` (one character of `c` between two literals) finds the run that follows it. */
  lemma SearchLitOneLit(a: string, x: char, b: string, v: string, c: Class, cls: Class, trail: string)
    requires InClass(x, c)
    requires |v| > 0 && forall k :: 0 <= k < |v| ==> InClass(v[k], cls)
    requires |trail| > 0 && !InClass(trail[0], cls)
    ensures Search(a + [x] + b + v + trail, Pattern([Lit(a), One(c), Lit(b)], cls, trail)) == Some(v)
  {
    var s := a + [x] + b + (v + trail);
    assert s == a + [x] + b + v + trail;
    Pieces(a, x, b, v + trail);
    MatchLitOneLit(s, a, c, b, v, cls, trail);
  }

  /** For a well-formed expression, the greedy evaluation returns exactly the longest capture. */
  lemma MatchAtIsLongest(s: string, i: nat, p: Pattern, v: string)
    requires i <= |s| && WellFormed(p.lead, p.capture)
    ensures MatchAt(s, i, p.lead, p.capture, p.trail) == Some(v) <==>
      && Captures(s, i, p.lead, p.capture, p.trail, v)
      && forall w :: Captures(s, i, p.lead, p.capture, p.trail, w) ==> |w| <= |v|
  {
    var m := MatchAt(s, i, p.lead, p.capture, p.trail);
    if m == Some(v) {
      MatchAtSound(s, i, p.lead, p.capture, p.trail);
      forall w | Captures(s, i, p.lead, p.capture, p.trail, w)
        ensures |w| <= |v|
      {
        MatchAtComplete(s, i, p.lead, p.capture, p.trail, w);
      }
    }
    if Captures(s, i, p.lead, p.capture, p.trail, v)
      && forall w :: Captures(s, i, p.lead, p.capture, p.trail, w) ==> |w| <= |v|
    {
      MatchAtComplete(s, i, p.lead, p.capture, p.trail, v);
      MatchAtSound(s, i, p.lead, p.capture, p.trail);
      CapturesSameLength(s, i, p.lead, p.capture, p.trail, v, m.value);
    }
  }

  /** Two captures of one length at one offset are the same text. */
  lemma {:induction false} CapturesSameLength(s: string, i: nat, lead: seq<Tok>, cls: Class, trail: string, v: string, w: string)
    requires i <= |s| && WellFormed(lead, cls)
    requires Captures(s, i, lead, cls, trail, v) && Captures(s, i, lead, cls, trail, w) && |v| == |w|
    ensures v == w
    decreases |lead|
  {
    if |lead| > 0 {
      WellFormedTail(lead, cls);
      match lead[0]
      case Lit(t) =>
        CapturesSameLength(s, i + |t|, lead[1..], cls, trail, v, w);
      case One(c) =>
        CapturesSameLength(s, i + 1, lead[1..], cls, trail, v, w);
      case Run(c) =>
        var k1 :| i < k1 <= |s| && AllIn(s, i, k1, c) && Captures(s, k1, lead[1..], cls, trail, v);
        var k2 :| i < k2 <= |s| && AllIn(s, i, k2, c) && Captures(s, k2, lead[1..], cls, trail, w);
        assert lead[0].Run?;
        CaptureStart(s, k1, lead[1..], cls, trail, v, c);
        CaptureStart(s, k2, lead[1..], cls, trail, w, c);
        assert k1 == k2;
        CapturesSameLength(s, k1, lead[1..], cls, trail, v, w);
    }
  }

  /** `re.search(p, s)`: the capture of the leftmost offset at or after `i` where `p` matches. */
  function SearchFrom(s: string, p: Pattern, i: nat): (r: Option<string>)
    requires i <= |s|
    ensures r.Some? ==> exists j :: (i <= j <= |s| && MatchAt(s, j, p.lead, p.capture, p.trail) == r
      && forall m :: i <= m < j ==> MatchAt(s, m, p.lead, p.capture, p.trail).None?)
    ensures r.None? ==> forall j :: i <= j <= |s| ==> MatchAt(s, j, p.lead, p.capture, p.trail).None?
    decreases |s| - i
  {
    var m := MatchAt(s, i, p.lead, p.capture, p.trail);
    if m.Some? then m
    else if i == |s| then None
    else SearchFrom(s, p, i + 1)
  }

  /** `re.search(p, s).group(1)`, or None when nothing matches. */
  function Search(s: string, p: Pattern): Option<string> {
    SearchFrom(s, p, 0)
  }

  /** A capture is a non-empty run of its class. */
  lemma {:induction false} CapturesInClass(s: string, i: nat, lead: seq<Tok>, cls: Class, trail: string, v: string)
    requires i <= |s| && Captures(s, i, lead, cls, trail, v)
    ensures |v| > 0 && forall c :: 0 <= c < |v| ==> InClass(v[c], cls)
    decreases |lead|
  {
    if |lead| == 0 {
      assert forall c :: 0 <= c < |v| ==> v[c] == s[i + c];
    } else {
      match lead[0]
      case Lit(t) =>
        CapturesInClass(s, i + |t|, lead[1..], cls, trail, v);
      case One(c) =>
        CapturesInClass(s, i + 1, lead[1..], cls, trail, v);
      case Run(c) =>
        var k :| i < k <= |s| && AllIn(s, i, k, c) && Captures(s, k, lead[1..], cls, trail, v);
        CapturesInClass(s, k, lead[1..], cls, trail, v);
    }
  }

  /** What `re.search` captures is a non-empty run of the capture class. */
  lemma SearchInClass(s: string, p: Pattern)
    ensures Search(s, p).Some? ==>
      |Search(s, p).value| > 0 && forall c :: 0 <= c < |Search(s, p).value| ==> InClass(Search(s, p).value[c], p.capture)
  {
    if Search(s, p).Some? {
      var j :| 0 <= j <= |s| && MatchAt(s, j, p.lead, p.capture, p.trail) == Search(s, p);
      MatchAtSound(s, j, p.lead, p.capture, p.trail);
      CapturesInClass(s, j, p.lead, p.capture, p.trail, Search(s, p).value);
    }
  }

  /**
   * `re.findall(prefix + '(cls+)', s)` from offset `i`: scanning left to
   * right, each match resumes the scan where the previous one ended.
   */
  function FindAllFrom(s: string, prefix: string, cls: Class, i: nat): (r: seq<string>)
    requires i <= |s|
    ensures forall k :: 0 <= k < |r| ==> |r[k]| > 0 && Contains(s, prefix + r[k])
    ensures forall k, c :: 0 <= k < |r| && 0 <= c < |r[k]| ==> InClass(r[k][c], cls)
    decreases |s| - i
  {
    if i == |s| then []
    else if StartsWith(s[i..], prefix) && RunEnd(s, i + |prefix|, cls) > i + |prefix| then
      var e := RunEnd(s, i + |prefix|, cls);
      var v := s[i + |prefix|..e];
      assert StartsWith(s[i..], prefix + v) by {
        assert s[i..][..|prefix + v|] == s[i..e];
      }
      ContainsAt(s, prefix + v, i);
      var rest := FindAllFrom(s, prefix, cls, e);
      assert forall c :: 0 <= c < |v| ==> InClass(v[c], cls) by {
        assert forall c :: 0 <= c < |v| ==> v[c] == s[i + |prefix| + c];
      }
      [v] + rest
    else FindAllFrom(s, prefix, cls, i + 1)
  }

  /** `re.findall(prefix + '(cls+)', s)` */
  function FindAll(s: string, prefix: string, cls: Class): seq<string> {
    FindAllFrom(s, prefix, cls, 0)
  }

  /** The first `findall` result is what `search` captures, and `findall` is empty exactly when `search` fails. */
  lemma {:induction false} FindAllHeadIsSearch(s: string, prefix: string, cls: Class, i: nat)
    requires i <= |s|
    ensures var all := FindAllFrom(s, prefix, cls, i);
      SearchFrom(s, After(prefix, cls), i) == if |all| == 0 then None else Some(all[0])
    decreases |s| - i
  {
    AfterAt(s, prefix, cls, i);
    if i < |s| {
      FindAllHeadIsSearch(s, prefix, cls, i + 1);
    }
  }

  /** `prefix(cls+)` at offset `i`: the maximal run after the prefix, when the prefix is there and a run follows. */
  lemma AfterAt(s: string, prefix: string, cls: Class, i: nat)
    requires i <= |s|
    ensures var k := i + |prefix|;
      MatchAt(s, i, After(prefix, cls).lead, cls, "") ==
        if StartsWith(s[i..], prefix) && RunEnd(s, k, cls) > k then Some(s[k..RunEnd(s, k, cls)]) else None
    ensures i == |s| ==> MatchAt(s, i, After(prefix, cls).lead, cls, "").None?
  {
    var p := After(prefix, cls);
    assert MatchAt(s, i, p.lead, p.capture, p.trail) == (
      if StartsWith(s[i..], prefix) then MatchAt(s, i + |prefix|, [], cls, "") else None);
    var k := i + |prefix|;
    if StartsWith(s[i..], prefix) {
      var e := RunEnd(s, k, cls);
      assert StartsWith(s[e..], "");
      assert MatchAt(s, k, [], cls, "") == if e > k then Some(s[k..e]) else None;
      if i == |s| {
        assert RunEnd(s, k, cls) == k;
      }
    }
  }
}
