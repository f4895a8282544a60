/**
 * The helpers of `modules/utils.py`: the port-range parser, the IPv4 and
 * input validators, the file-name sanitiser, the severity-colour and
 * content-type tables, and the retry loop of `safe_request`.
 */
module Utils {
  import opened Wrappers
  import opened Text
  import opened Collections

  // ---------------------------------------------------------------------
  // parse_port_range
  // ---------------------------------------------------------------------

  /** `range(a, b + 1)` */
  function Range(a: int, b: int): (r: seq<int>)
    ensures |r| == if a <= b then b - a + 1 else 0
    ensures forall i :: 0 <= i < |r| ==> r[i] == a + i
  {
    if a > b then [] else seq(b - a + 1, i requires 0 <= i <= b - a => a + i)
  }

  /** `start, end = ...; int(start.strip()); int(end.strip())`, then the ordered span. */
  function SpanOf(ends: seq<string>): Option<seq<int>> {
    if |ends| != 2 then None
    else BoundsSpan(PyInt(Strip(ends[0])), PyInt(Strip(ends[1])))
  }

  /** The span between two parsed bounds, whichever order they come in. */
  function BoundsSpan(lo: Option<int>, hi: Option<int>): Option<seq<int>> {
    if lo.None? || hi.None? then None
    else if lo.value > hi.value then Some(Range(hi.value, lo.value))
    else Some(Range(lo.value, hi.value))
  }

  /** `ports.append(int(part))` */
  function NumberOf(p: string): Option<seq<int>> {
    match PyInt(p)
    case None => None
    case Some(n) => Some([n])
  }

  /** One stripped part: skipped when blank, a span when it holds a dash, else one number. */
  function PartOf(p: string): Option<seq<int>> {
    if |p| == 0 then Some([])
    else if '-' in p then SpanOf(Split(p, '-'))
    else NumberOf(p)
  }

  /**
   * The ports one comma-separated part contributes; `None` is the
   * `ValueError` a bad number or a part with several dashes raises.
   */
  function PortPart(part: string): Option<seq<int>> {
    PartOf(Strip(part))
  }

  /** The `ports.extend`/`ports.append` loop: one failing part fails the whole list. */
  function ConcatAll(pieces: seq<Option<seq<int>>>): (r: Option<seq<int>>)
    ensures r.None? <==> exists k :: 0 <= k < |pieces| && pieces[k].None?
    ensures r.Some? ==> forall x :: x in r.value <==>
      exists k :: 0 <= k < |pieces| && pieces[k].Some? && x in pieces[k].value
    decreases |pieces|
  {
    if |pieces| == 0 then Some([])
    else if pieces[0].None? then None
    else
      var rest := ConcatAll(pieces[1..]);
      assert forall k :: 1 <= k < |pieces| ==> pieces[1..][k - 1] == pieces[k];
      if rest.None? then None
      else
        var r := pieces[0].value + rest.value;
        assert forall x :: x in rest.value ==> exists k :: 1 <= k < |pieces| && pieces[k].Some? && x in pieces[k].value;
        Some(r)
  }

  /** The raw port list before de-duplication; `None` when some part raises. */
  function RawPorts(portRange: string): Option<seq<int>> {
    ConcatAll(PartsOf(Split(portRange, ',')))
  }

  /** What each part contributes, in order. */
  function PartsOf(parts: seq<string>): (r: seq<Option<seq<int>>>)
    decreases |parts|
  {
    if |parts| == 0 then [] else [PortPart(parts[0])] + PartsOf(parts[1..])
  }

  /** The contributions of two part lists side by side. */
  lemma {:induction false} PartsOfAppend(a: seq<string>, b: seq<string>)
    ensures PartsOf(a + b) == PartsOf(a) + PartsOf(b)
    decreases |a|
  {
    if |a| > 0 {
      assert (a + b)[0] == a[0] && (a + b)[1..] == a[1..] + b;
      PartsOfAppend(a[1..], b);
      var x := [PortPart(a[0])];
      assert PartsOf(a + b) == x + (PartsOf(a[1..]) + PartsOf(b));
      assert PartsOf(a) == x + PartsOf(a[1..]);
    } else {
      assert a + b == b;
    }
  }

  predicate IsPort(p: int) {
    1 <= p <= 65535
  }

  /** `[p for p in ports if 1 <= p <= 65535]` */
  function KeepPorts(xs: seq<int>): (r: seq<int>)
    ensures forall x :: x in r <==> x in xs && IsPort(x)
    ensures NoDup(xs) ==> NoDup(r)
    decreases |xs|
  {
    if |xs| == 0 then []
    else
      var rest := KeepPorts(xs[1..]);
      assert forall x :: x in xs[1..] ==> x in xs;
      if IsPort(xs[0]) then
        assert NoDup(xs) ==> xs[0] !in xs[1..];
        [xs[0]] + rest
      else rest
  }

  /** The default answer when a part fails to parse. */
  const DefaultPorts: seq<int> := [80, 443]

  /**
   * The tail of `parse_port_range` once the parts are read: the default pair
   * when one raised, otherwise every listed port in 1..65535, each once.
   */
  function SelectPorts(raw: Option<seq<int>>): (r: seq<int>)
    ensures raw.None? ==> r == DefaultPorts
    ensures raw.Some? ==> forall x :: x in r <==> x in raw.value && IsPort(x)
    ensures forall i :: 0 <= i < |r| ==> IsPort(r[i])
    ensures NoDup(r)
  {
    match raw
    case None => DefaultPorts
    case Some(ports) => KeepPorts(Distinct(ports))
  }

  /** `parse_port_range`: empty input gives no ports. */
  function ParsePortRange(portRange: string): (r: seq<int>)
    ensures |portRange| == 0 ==> r == []
  {
    if |portRange| == 0 then [] else SelectPorts(RawPorts(portRange))
  }

  /** A decimal rendering reads back through `int(x.strip())`. */
  lemma ReadBack(n: nat)
    ensures PyInt(Strip(NatToString(n))) == Some(n)
    ensures '-' !in NatToString(n) && ',' !in NatToString(n) && '.' !in NatToString(n)
  {
    var x := NatToString(n);
    DigitsStrip(x);
    PyIntNatToString(n);
    assert forall i :: 0 <= i < |x| ==> IsDigit(x[i]);
  }

  /** `"a-b"` for two decimal renderings has nothing to strip. */
  lemma DashStrip(x: string, y: string)
    requires |x| > 0 && |y| > 0 && AllDigits(x) && AllDigits(y)
    ensures Strip(x + "-" + y) == x + "-" + y
  {
    var p := x + "-" + y;
    assert p[0] == x[0] && p[|p| - 1] == y[|y| - 1];
    DigitEndsStrip(p);
  }

  /** `"a-b"` for two digit strings splits at its one dash. */
  lemma DashSplit(x: string, y: string)
    requires AllDigits(x) && AllDigits(y)
    ensures '-' in x + "-" + y && Split(x + "-" + y, '-') == [x, y]
  {
    var p := x + "-" + y;
    assert p[|x|] == '-';
    DigitsLack(x, '-');
    DigitsLack(y, '-');
    assert Join([x, y], "-") == p;
    JoinSplit([x, y], '-');
  }

  /** Two decimal renderings read back as the bounds they render. */
  lemma SpanOfRenderings(a: nat, b: nat)
    ensures SpanOf([NatToString(a), NatToString(b)]) == BoundsSpan(Some(a), Some(b))
  {
    ReadBack(a);
    ReadBack(b);
  }

  /** `"a-b"` and `"b-a"` both contribute every port from the smaller to the larger bound. */
  lemma PortSpan(a: nat, b: nat)
    ensures PortPart(NatToString(a) + "-" + NatToString(b)) == Some(Range(if a <= b then a else b, if a <= b then b else a))
  {
    DashStrip(NatToString(a), NatToString(b));
    DashSplit(NatToString(a), NatToString(b));
    SpanOfRenderings(a, b);
  }

  /** Swapping the bounds of a span changes nothing. */
  lemma PortSpanSwap(a: nat, b: nat)
    ensures PortPart(NatToString(a) + "-" + NatToString(b)) == PortPart(NatToString(b) + "-" + NatToString(a))
  {
    PortSpan(a, b);
    PortSpan(b, a);
  }

  /** A lone number contributes itself. */
  lemma PortSingle(n: nat)
    ensures PortPart(NatToString(n)) == Some([n])
  {
    var x := NatToString(n);
    assert Strip(x) == x && '-' !in x by {
      ReadBack(n);
      DigitsStrip(x);
    }
    assert PartOf(x) == NumberOf(x);
    assert PyInt(x) == Some(n) by {
      PyIntNatToString(n);
    }
  }

  /** Joining two lists of parts joins what they contribute. */
  lemma ConcatAllAppend(xs: seq<Option<seq<int>>>, ys: seq<Option<seq<int>>>)
    requires ConcatAll(xs).Some? && ConcatAll(ys).Some?
    ensures ConcatAll(xs + ys).Some?
    ensures forall x :: x in ConcatAll(xs + ys).value <==> x in ConcatAll(xs).value || x in ConcatAll(ys).value
  {
    var zs := xs + ys;
    forall k | 0 <= k < |zs|
      ensures zs[k].Some?
    {
      if k < |xs| {
        assert zs[k] == xs[k];
      } else {
        assert zs[k] == ys[k - |xs|];
      }
    }
    forall x
      ensures x in ConcatAll(zs).value <==> x in ConcatAll(xs).value || x in ConcatAll(ys).value
    {
      if x in ConcatAll(zs).value {
        var k :| 0 <= k < |zs| && zs[k].Some? && x in zs[k].value;
        if k < |xs| {
          assert zs[k] == xs[k];
        } else {
          assert zs[k] == ys[k - |xs|];
        }
      }
      if x in ConcatAll(xs).value {
        var k :| 0 <= k < |xs| && xs[k].Some? && x in xs[k].value;
        assert zs[k] == xs[k];
      }
      if x in ConcatAll(ys).value {
        var k :| 0 <= k < |ys| && ys[k].Some? && x in ys[k].value;
        assert zs[|xs| + k] == ys[k];
      }
    }
  }

  /** A comma list lists the union of what its two halves list. */
  lemma PortRangeUnion(s: string, t: string)
    requires RawPorts(s).Some? && RawPorts(t).Some?
    ensures RawPorts(s + "," + t).Some?
    ensures forall x :: x in RawPorts(s + "," + t).value <==> x in RawPorts(s).value || x in RawPorts(t).value
  {
    SplitAppend(s, ',', t);
    PartsOfAppend(Split(s, ','), Split(t, ','));
    ConcatAllAppend(PartsOf(Split(s, ',')), PartsOf(Split(t, ',')));
  }

  /** A single part contributes exactly its own ports. */
  lemma ConcatAllSingle(p: seq<int>)
    ensures ConcatAll([Some(p)]) == Some(p)
  {
    var one := [Some(p)];
    assert one[1..] == [];
    assert p + [] == p;
  }

  /** A blank part contributes nothing. */
  lemma BlankContributesNothing()
    ensures RawPorts(" ") == Some([])
  {
    SplitNoSep(" ", ',');
    assert Split(" ", ',') == [" "];
    assert LStrip(" ") == "" by {
      assert LStrip(" "[1..]) == "";
    }
    assert PortPart(" ") == Some([]);
    assert PartsOf([" "]) == [Some([])] by {
      assert PartsOf([" "][1..]) == [];
    }
    ConcatAllSingle([]);
  }

  /** A trailing blank part is skipped. */
  lemma BlankPartSkipped(s: string)
    requires RawPorts(s).Some?
    ensures RawPorts(s + ", ").Some?
    ensures forall x :: x in RawPorts(s + ", ").value <==> x in RawPorts(s).value
  {
    BlankContributesNothing();
    PortRangeUnion(s, " ");
    assert s + "," + " " == s + ", ";
  }

  /** A part that is no number makes the whole list fall back to the default pair. */
  lemma NotANumber()
    ensures ParsePortRange("abc") == DefaultPorts
  {
    SplitNoSep("abc", ',');
    assert Strip("abc") == "abc" by {
      StripNoSpace("abc");
    }
    assert "abc"[0] == 'a';
    assert !DigitGroups("abc");
    assert PyInt("abc") == None;
    assert PortPart("abc") == None;
    assert PartsOf(["abc"]) == [None] by {
      assert PartsOf(["abc"][1..]) == [];
    }
  }

  /** `"1-2-3"` splits into three pieces at its dashes. */
  lemma ThreePieces()
    ensures Split("1-2-3", '-') == ["1", "2", "3"]
  {
    assert Join(["1", "2", "3"], "-") == "1-2-3";
    JoinSplit(["1", "2", "3"], '-');
  }

  /** A part with two dashes raises: its pieces do not form a pair. */
  lemma TwoDashesPart()
    ensures PortPart("1-2-3") == None
  {
    var p := "1-2-3";
    assert Strip(p) == p by {
      DigitEndsStrip(p);
    }
    assert p[1] == '-';
    ThreePieces();
  }

  /** A part with two dashes makes the whole list fall back to the default pair. */
  lemma TwoDashes()
    ensures ParsePortRange("1-2-3") == DefaultPorts
  {
    SplitNoSep("1-2-3", ',');
    TwoDashesPart();
    assert PartsOf(["1-2-3"]) == [None] by {
      assert PartsOf(["1-2-3"][1..]) == [];
    }
    assert RawPorts("1-2-3") == None;
  }

  // ---------------------------------------------------------------------
  // is_ip_address
  // ---------------------------------------------------------------------

  /** `[0-9]{1,3}` */
  predicate Octet(g: string) {
    1 <= |g| <= 3 && AllDigits(g)
  }

  /**
   * `^(?:[0-9]{1,3}\.){3}[0-9]{1,3}$` on a stripped string: four groups of
   * one to three digits separated by dots (a stripped string has no final
   * newline for `$` to skip).
   */
  predicate DottedQuad(t: string) {
    var gs := Split(t, '.');
    |gs| == 4 && forall k :: 0 <= k < 4 ==> Octet(gs[k])
  }

  /** A digit group the range loop lets through. */
  predicate GroupInRange(g: string) {
    Octet(g) && DigitsValue(g) <= 255
  }

  /** One pass of the `int(octet) > 255` loop lets the group through. */
  predicate OctetAllowed(g: string) {
    PyInt(g).Some? && PyInt(g).value <= 255
  }

  /** On a digit group the loop's test is the group's decimal value. */
  lemma OctetAllowedIff(g: string)
    requires Octet(g)
    ensures OctetAllowed(g) <==> GroupInRange(g)
  {
    PyIntDigits(g);
  }

  /** The regex test, then the loop over the four groups of the stripped address. */
  predicate QuadInRange(t: string) {
    DottedQuad(t) && forall k :: 0 <= k < 4 ==> OctetAllowed(Split(t, '.')[k])
  }

  /** On four digit groups the loop passes exactly when every group reads at most 255. */
  lemma AllowedGroups(gs: seq<string>)
    requires |gs| == 4 && forall k :: 0 <= k < 4 ==> Octet(gs[k])
    ensures (forall k :: 0 <= k < 4 ==> OctetAllowed(gs[k])) <==> (forall k :: 0 <= k < 4 ==> GroupInRange(gs[k]))
  {
    forall k | 0 <= k < 4
      ensures OctetAllowed(gs[k]) <==> GroupInRange(gs[k])
    {
      OctetAllowedIff(gs[k]);
    }
  }

  /** A passing address has four groups that all read at most 255. */
  lemma QuadGroupsInRange(t: string)
    requires QuadInRange(t)
    ensures DottedQuad(t) && forall k :: 0 <= k < 4 ==> GroupInRange(Split(t, '.')[k])
  {
    AllowedGroups(Split(t, '.'));
  }

  /** Four groups that all read at most 255 make a passing address. */
  lemma GroupsQuadInRange(t: string)
    requires DottedQuad(t) && forall k :: 0 <= k < 4 ==> GroupInRange(Split(t, '.')[k])
    ensures QuadInRange(t)
  {
    AllowedGroups(Split(t, '.'));
  }

  /** `is_ip_address` */
  predicate IsIpAddress(address: string) {
    |address| > 0 && QuadInRange(Strip(address))
  }

  /** The first and last characters of a join of non-empty pieces. */
  lemma {:induction false} JoinEnds(parts: seq<string>, sep: string)
    requires |parts| > 0 && forall k :: 0 <= k < |parts| ==> |parts[k]| > 0
    ensures var j := Join(parts, sep);
      (|j| > 0 && j[0] == parts[0][0] && j[|j| - 1] == parts[|parts| - 1][|parts[|parts| - 1]| - 1])
    decreases |parts|
  {
    if |parts| > 1 {
      JoinEnds(parts[1..], sep);
    }
  }

  /** Four digit groups joined by dots have nothing to strip and split back into the groups. */
  lemma DottedGroups(x: string, y: string, z: string, w: string)
    requires Octet(x) && Octet(y) && Octet(z) && Octet(w)
    ensures var s := Join([x, y, z, w], ".");
      (|s| > 0 && Strip(s) == s && Split(s, '.') == [x, y, z, w])
  {
    var gs := [x, y, z, w];
    var s := Join(gs, ".");
    DigitsLack(x, '.');
    DigitsLack(y, '.');
    DigitsLack(z, '.');
    DigitsLack(w, '.');
    JoinSplit(gs, '.');
    JoinEnds(gs, ".");
    assert IsDigit(s[0]) && IsDigit(s[|s| - 1]);
    DigitEndsStrip(s);
  }

  /** Four groups of one to three digits, each reading at most 255, joined by dots form an address. */
  lemma DottedGroupsAccepted(x: string, y: string, z: string, w: string)
    requires GroupInRange(x) && GroupInRange(y) && GroupInRange(z) && GroupInRange(w)
    ensures IsIpAddress(Join([x, y, z, w], "."))
  {
    var gs := [x, y, z, w];
    var s := Join(gs, ".");
    DottedGroups(x, y, z, w);
    assert forall k :: 0 <= k < 4 ==> GroupInRange(gs[k]);
    GroupsQuadInRange(s);
  }

  /** A dotted string of four digit groups that is an address has every group at most 255. */
  lemma AddressGroups(x: string, y: string, z: string, w: string)
    requires Octet(x) && Octet(y) && Octet(z) && Octet(w)
    ensures IsIpAddress(Join([x, y, z, w], ".")) ==>
      GroupInRange(x) && GroupInRange(y) && GroupInRange(z) && GroupInRange(w)
  {
    var gs := [x, y, z, w];
    var s := Join(gs, ".");
    DottedGroups(x, y, z, w);
    assert gs[0] == x && gs[1] == y && gs[2] == z && gs[3] == w;
    if IsIpAddress(s) {
      QuadGroupsInRange(s);
    }
  }

  /** One group reading above 255 makes the dotted string no address. */
  lemma DottedGroupsRejected(x: string, y: string, z: string, w: string)
    requires Octet(x) && Octet(y) && Octet(z) && Octet(w)
    requires DigitsValue(x) > 255 || DigitsValue(y) > 255 || DigitsValue(z) > 255 || DigitsValue(w) > 255
    ensures !IsIpAddress(Join([x, y, z, w], "."))
  {
    AddressGroups(x, y, z, w);
  }

  /** Surrounding whitespace does not change the verdict. */
  lemma IpPadding(p: string, address: string, q: string)
    requires forall i :: 0 <= i < |p| ==> IsSpace(p[i])
    requires forall i :: 0 <= i < |q| ==> IsSpace(q[i])
    requires |address| > 0
    ensures IsIpAddress(p + address + q) == IsIpAddress(address)
  {
    StripPadding(p, address, q);
  }
}
