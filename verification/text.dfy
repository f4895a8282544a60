/**
 * The Python string operations the scanners rely on (`in`, `startswith`,
 * `strip`, `split`, `join`, `lower`, `replace`, `int`), written out over
 * `seq<char>`. Character classes follow Python's `str` methods on the
 * characters listed here; case mapping is ASCII only.
 */
module Text {
  import opened Wrappers

  /** `s.startswith(p)` */
  predicate StartsWith(s: string, p: string) {
    |p| <= |s| && s[..|p|] == p
  }

  /** `p in s`: `p` occurs in `s` at some offset. */
  predicate Contains(s: string, p: string)
    decreases |s|
  {
    StartsWith(s, p) || (|s| > 0 && Contains(s[1..], p))
  }

  /** An occurrence at offset `i` is an occurrence. */
  lemma {:induction false} ContainsAt(s: string, p: string, i: nat)
    requires i <= |s| && StartsWith(s[i..], p)
    ensures Contains(s, p)
    decreases i
  {
    if i > 0 {
      assert s[1..][i - 1..] == s[i..];
      ContainsAt(s[1..], p, i - 1);
    }
  }

  /** `p in s` holds exactly when some offset of `s` starts with `p`. */
  lemma {:induction false} ContainsIff(s: string, p: string)
    ensures Contains(s, p) <==> exists i :: 0 <= i <= |s| && StartsWith(s[i..], p)
    decreases |s|
  {
    if Contains(s, p) {
      if StartsWith(s, p) {
        assert StartsWith(s[0..], p);
      } else {
        ContainsIff(s[1..], p);
        var i :| 0 <= i <= |s[1..]| && StartsWith(s[1..][i..], p);
        assert s[1..][i..] == s[i + 1..];
      }
    }
    if exists i :: 0 <= i <= |s| && StartsWith(s[i..], p) {
      var i :| 0 <= i <= |s| && StartsWith(s[i..], p);
      ContainsAt(s, p, i);
    }
  }

  /** The empty string occurs in every string. */
  lemma ContainsEmpty(s: string)
    ensures Contains(s, "")
  {
    assert StartsWith(s, "");
  }

  /** A string occurs in itself extended on both sides. */
  lemma ContainsInfix(a: string, p: string, b: string)
    ensures Contains(a + p + b, p)
  {
    var s := a + p + b;
    assert s[|a|..][..|p|] == p;
    ContainsAt(s, p, |a|);
  }

  /** A string occurs in nothing shorter than itself. */
  lemma {:induction false} NotContainsLonger(s: string, p: string)
    requires |s| < |p|
    ensures !Contains(s, p)
    decreases |s|
  {
    if |s| > 0 {
      NotContainsLonger(s[1..], p);
    }
  }

  /**
   * The characters `str.isspace()` accepts (and `str.split()`/`str.strip()`
   * remove): blank, tab through carriage return, the four separators
   * U+1C..U+1F, U+85, U+A0, U+1680, U+2000..U+200A, U+2028, U+2029, U+202F,
   * U+205F and U+3000.
   */
  predicate IsSpace(c: char) {
    || c == ' '
    || ('\t' <= c <= '\r')
    || ('\U{1C}' <= c <= '\U{1F}')
    || c == '\U{85}' || c == '\U{A0}' || c == '\U{1680}'
    || ('\U{2000}' <= c <= '\U{200A}')
    || c == '\U{2028}' || c == '\U{2029}' || c == '\U{202F}' || c == '\U{205F}' || c == '\U{3000}'
  }

  /** The ASCII digits `[0-9]`. */
  predicate IsDigit(c: char) {
    '0' <= c <= '9'
  }

  predicate AllDigits(s: string) {
    forall i :: 0 <= i < |s| ==> IsDigit(s[i])
  }

  /** `s.lstrip()` */
  function LStrip(s: string): (r: string)
    ensures |r| <= |s| && r == s[|s| - |r|..]
    ensures forall i :: 0 <= i < |s| - |r| ==> IsSpace(s[i])
    ensures |r| > 0 ==> !IsSpace(r[0])
    decreases |s|
  {
    if |s| > 0 && IsSpace(s[0]) then LStrip(s[1..]) else s
  }

  /** `s.rstrip()` */
  function RStrip(s: string): (r: string)
    ensures |r| <= |s| && r == s[..|r|]
    ensures forall i :: |r| <= i < |s| ==> IsSpace(s[i])
    ensures |r| > 0 ==> !IsSpace(r[|r| - 1])
    decreases |s|
  {
    if |s| > 0 && IsSpace(s[|s| - 1]) then RStrip(s[..|s| - 1]) else s
  }

  /** How many characters `s.lstrip()` removes. */
  function StripOffset(s: string): (k: nat)
    ensures k <= |s|
  {
    |s| - |LStrip(s)|
  }

  /** `s.strip()`: the result is an infix of `s` with no whitespace at either end. */
  function Strip(s: string): (r: string)
    ensures StripOffset(s) + |r| <= |s| && r == s[StripOffset(s)..StripOffset(s) + |r|]
    ensures |r| > 0 ==> !IsSpace(r[0]) && !IsSpace(r[|r| - 1])
  {
    var l := LStrip(s);
    var r := RStrip(l);
    assert l == s[|s| - |l|..];
    r
  }

  /** Stripping a string that has no surrounding whitespace changes nothing. */
  lemma StripNoSpace(s: string)
    requires |s| > 0 ==> !IsSpace(s[0]) && !IsSpace(s[|s| - 1])
    ensures Strip(s) == s
  {
  }

  /** Whitespace in front of a string is exactly what `lstrip` removes. */
  lemma {:induction false} LStripPrefix(p: string, s: string)
    requires forall i :: 0 <= i < |p| ==> IsSpace(p[i])
    ensures LStrip(p + s) == LStrip(s)
    decreases |p|
  {
    if |p| > 0 {
      assert (p + s)[1..] == p[1..] + s;
      LStripPrefix(p[1..], s);
    } else {
      assert p + s == s;
    }
  }

  /** Once `u` holds a non-space character, what follows it survives `lstrip` untouched. */
  lemma {:induction false} LStripAppend(u: string, q: string)
    requires |LStrip(u)| > 0
    ensures LStrip(u + q) == LStrip(u) + q
    decreases |u|
  {
    if IsSpace(u[0]) {
      assert (u + q)[1..] == u[1..] + q;
      LStripAppend(u[1..], q);
    }
  }

  /** Once `q` holds a non-space character, what precedes it survives `rstrip` untouched. */
  lemma {:induction false} RStripAppend(u: string, q: string)
    requires |RStrip(q)| > 0
    ensures RStrip(u + q) == u + RStrip(q)
    decreases |q|
  {
    if IsSpace(q[|q| - 1]) {
      assert (u + q)[..|u + q| - 1] == u + q[..|q| - 1];
      RStripAppend(u, q[..|q| - 1]);
    }
  }

  /** Whitespace after a string is exactly what `rstrip` removes. */
  lemma {:induction false} RStripSuffix(s: string, q: string)
    requires forall i :: 0 <= i < |q| ==> IsSpace(q[i])
    ensures RStrip(s + q) == RStrip(s)
    decreases |q|
  {
    if |q| > 0 {
      assert (s + q)[..|s + q| - 1] == s + q[..|q| - 1];
      RStripSuffix(s, q[..|q| - 1]);
    } else {
      assert s + q == s;
    }
  }

  /** `strip` ignores whitespace padding on either side. */
  lemma StripPadding(p: string, u: string, q: string)
    requires forall i :: 0 <= i < |p| ==> IsSpace(p[i])
    requires forall i :: 0 <= i < |q| ==> IsSpace(q[i])
    ensures Strip(p + u + q) == Strip(u)
  {
    assert p + u + q == p + (u + q);
    LStripPrefix(p, u + q);
    if |LStrip(u)| > 0 {
      LStripAppend(u, q);
      RStripSuffix(LStrip(u), q);
    } else {
      assert forall i :: 0 <= i < |u| ==> IsSpace(u[i]);
      LStripPrefix(u, q);
      LStripPrefix(q, "");
      assert q + "" == q;
    }
  }

  /** The ASCII case mapping of `str.lower()`. */
  function LowerChar(c: char): char {
    if 'A' <= c <= 'Z' then (c as int + 32) as char else c
  }

  /** `s.lower()` on ASCII letters. */
  function Lower(s: string): (r: string)
    ensures |r| == |s| && forall i :: 0 <= i < |s| ==> r[i] == LowerChar(s[i])
  {
    seq(|s|, i requires 0 <= i < |s| => LowerChar(s[i]))
  }

  /** No ASCII upper-case letter occurs in `s`. */
  predicate NoUpper(s: string) {
    forall i :: 0 <= i < |s| ==> !('A' <= s[i] <= 'Z')
  }

  /** Lower-casing leaves a string without upper-case letters as it is, and its own result too. */
  lemma LowerNoUpper(s: string)
    ensures NoUpper(Lower(s))
    ensures NoUpper(s) ==> Lower(s) == s
  {
  }

  /** Lower-casing twice is lower-casing once. */
  lemma LowerTwice(s: string)
    ensures Lower(Lower(s)) == Lower(s)
  {
    LowerNoUpper(s);
    LowerNoUpper(Lower(s));
  }

  /** Lower-casing distributes over concatenation. */
  lemma LowerAppend(a: string, b: string)
    ensures Lower(a + b) == Lower(a) + Lower(b)
  {
    assert forall i :: 0 <= i < |a + b| ==> (a + b)[i] == if i < |a| then a[i] else b[i - |a|];
  }

  /** No letter is whitespace, so lower-casing keeps whitespace and non-whitespace apart. */
  lemma LowerCharSpace(c: char)
    ensures IsSpace(LowerChar(c)) == IsSpace(c)
  {
    if 'A' <= c <= 'Z' {
      assert 'a' <= LowerChar(c) <= 'z';
    }
  }

  /** Lower-casing and `lstrip` commute. */
  lemma {:induction false} LStripLower(s: string)
    ensures LStrip(Lower(s)) == Lower(LStrip(s))
    decreases |s|
  {
    if |s| > 0 {
      LowerCharSpace(s[0]);
    }
    if |s| > 0 && IsSpace(s[0]) {
      assert Lower(s)[1..] == Lower(s[1..]);
      LStripLower(s[1..]);
    }
  }

  /** Lower-casing and `rstrip` commute. */
  lemma {:induction false} RStripLower(s: string)
    ensures RStrip(Lower(s)) == Lower(RStrip(s))
    decreases |s|
  {
    if |s| > 0 {
      LowerCharSpace(s[|s| - 1]);
    }
    if |s| > 0 && IsSpace(s[|s| - 1]) {
      assert Lower(s)[..|s| - 1] == Lower(s[..|s| - 1]);
      RStripLower(s[..|s| - 1]);
    }
  }

  /** `s.lower().strip() == s.strip().lower()` */
  lemma StripLower(s: string)
    ensures Strip(Lower(s)) == Lower(Strip(s))
  {
    LStripLower(s);
    RStripLower(LStrip(s));
  }

  /** `s.replace(a, b)` for single characters `a` and `b`. */
  function ReplaceChar(s: string, a: char, b: char): (r: string)
    ensures |r| == |s|
    ensures forall i :: 0 <= i < |s| ==> r[i] == (if s[i] == a then b else s[i])
  {
    seq(|s|, i requires 0 <= i < |s| => if s[i] == a then b else s[i])
  }

  /** `s.replace(a, '')` for a single character `a`. */
  function RemoveChar(s: string, a: char): (r: string)
    ensures |r| <= |s|
    ensures forall i :: 0 <= i < |r| ==> r[i] != a
    ensures a !in s ==> r == s
    decreases |s|
  {
    if |s| == 0 then s
    else if s[0] == a then RemoveChar(s[1..], a)
    else [s[0]] + RemoveChar(s[1..], a)
  }

  /** Removing a character keeps only characters the string had. */
  lemma {:induction false} RemoveCharSubset(s: string, a: char)
    ensures forall c :: c in RemoveChar(s, a) ==> c in s
    decreases |s|
  {
    if |s| > 0 {
      RemoveCharSubset(s[1..], a);
    }
  }

  /** Removing the one character that is not a digit leaves digits only. */
  lemma RemoveCharDigits(s: string, a: char)
    requires forall i :: 0 <= i < |s| ==> IsDigit(s[i]) || s[i] == a
    ensures AllDigits(RemoveChar(s, a))
  {
    var r := RemoveChar(s, a);
    RemoveCharSubset(s, a);
    forall i | 0 <= i < |r|
      ensures IsDigit(r[i])
    {
      assert r[i] in s;
    }
  }

  /** `sep.join(parts)` */
  function Join(parts: seq<string>, sep: string): string
    decreases |parts|
  {
    if |parts| == 0 then ""
    else if |parts| == 1 then parts[0]
    else parts[0] + sep + Join(parts[1..], sep)
  }

  /** Joining a part in front of a non-empty list puts one separator between them. */
  lemma JoinCons(p: string, parts: seq<string>, sep: string)
    requires |parts| > 0
    ensures Join([p] + parts, sep) == p + sep + Join(parts, sep)
  {
    assert ([p] + parts)[1..] == parts;
  }

  /** `s.split(c)` for a one-character separator: the pieces between occurrences of `c`. */
  function Split(s: string, c: char): (r: seq<string>)
    ensures |r| >= 1
    decreases |s|
  {
    if |s| == 0 then [""]
    else
      var rest := Split(s[1..], c);
      if s[0] == c then [""] + rest else [[s[0]] + rest[0]] + rest[1..]
  }

  /** No piece of `s.split(c)` holds `c`, and joining the pieces with `c` gives back `s`. */
  lemma {:induction false} SplitJoin(s: string, c: char)
    ensures forall k :: 0 <= k < |Split(s, c)| ==> c !in Split(s, c)[k]
    ensures Join(Split(s, c), [c]) == s
    decreases |s|
  {
    if |s| > 0 {
      SplitJoin(s[1..], c);
      var rest := Split(s[1..], c);
      if s[0] == c {
        assert Split(s, c) == [""] + rest;
        assert Join([""] + rest, [c]) == "" + [c] + Join(rest, [c]);
      } else {
        var r := Split(s, c);
        assert r == [[s[0]] + rest[0]] + rest[1..];
        if |rest| == 1 {
          assert Join(r, [c]) == [s[0]] + rest[0];
        } else {
          assert Join(rest, [c]) == rest[0] + [c] + Join(rest[1..], [c]);
          assert r[1..] == rest[1..];
          assert Join(r, [c]) == ([s[0]] + rest[0]) + [c] + Join(rest[1..], [c]);
        }
      }
    }
  }

  /** A string without the separator is one piece. */
  lemma {:induction false} SplitNoSep(a: string, c: char)
    requires c !in a
    ensures Split(a, c) == [a]
    decreases |a|
  {
    if |a| > 0 {
      SplitNoSep(a[1..], c);
      assert a == [a[0]] + a[1..];
    }
  }

  /** Splitting at a separator splits the pieces of both sides. */
  lemma {:induction false} SplitAppend(a: string, c: char, b: string)
    ensures Split(a + [c] + b, c) == Split(a, c) + Split(b, c)
    decreases |a|
  {
    if |a| > 0 {
      assert (a + [c] + b)[1..] == a[1..] + [c] + b;
      SplitAppend(a[1..], c, b);
    } else {
      assert a + [c] + b == [c] + b;
    }
  }

  /** Splitting a join of separator-free pieces gives back the pieces. */
  lemma {:induction false} JoinSplit(parts: seq<string>, c: char)
    requires |parts| >= 1
    requires forall k :: 0 <= k < |parts| ==> c !in parts[k]
    ensures Split(Join(parts, [c]), c) == parts
    decreases |parts|
  {
    SplitNoSep(parts[0], c);
    if |parts| > 1 {
      JoinSplit(parts[1..], c);
      SplitAppend(parts[0], c, Join(parts[1..], [c]));
      assert parts == [parts[0]] + parts[1..];
    }
  }

  /** The first piece of a split is everything before the first separator. */
  lemma {:induction false} SplitHead(a: string, c: char, b: string)
    requires c !in a
    ensures Split(a + [c] + b, c)[0] == a
    decreases |a|
  {
    if |a| > 0 {
      assert (a + [c] + b)[1..] == a[1..] + [c] + b;
      SplitHead(a[1..], c, b);
    } else {
      assert a + [c] + b == [c] + b;
    }
  }

  /** The length of the run of non-whitespace characters that starts `s`. */
  function WordLength(s: string): (n: nat)
    ensures n <= |s|
    ensures forall i :: 0 <= i < n ==> !IsSpace(s[i])
    ensures n < |s| ==> IsSpace(s[n])
    decreases |s|
  {
    if |s| == 0 || IsSpace(s[0]) then 0 else 1 + WordLength(s[1..])
  }

  /** A word: non-empty and free of whitespace. */
  predicate IsWord(w: string) {
    |w| > 0 && forall i :: 0 <= i < |w| ==> !IsSpace(w[i])
  }

  /** `s.split()`: the maximal runs of non-whitespace characters, in order. */
  function Words(s: string): seq<string>
    decreases |s|
  {
    var t := LStrip(s);
    if |t| == 0 then []
    else
      var n := WordLength(t);
      assert n > 0;
      [t[..n]] + Words(t[n..])
  }

  /** The run `WordLength` measures at a non-space character is a word. */
  lemma WordLengthWord(t: string)
    requires |t| > 0 && !IsSpace(t[0])
    ensures IsWord(t[..WordLength(t)])
  {
    var n := WordLength(t);
    forall i | 0 <= i < n
      ensures !IsSpace(t[..n][i])
    {
      assert t[..n][i] == t[i];
    }
  }

  /** Every element of `s.split()` is a word. */
  lemma {:induction false} WordsAreWords(s: string)
    ensures forall k :: 0 <= k < |Words(s)| ==> IsWord(Words(s)[k])
    decreases |s|
  {
    var t := LStrip(s);
    if |t| > 0 {
      var n := WordLength(t);
      WordLengthWord(t);
      WordsAreWords(t[n..]);
      var rest := Words(t[n..]);
      var ws := Words(s);
      assert ws == [t[..n]] + rest;
      forall k | 0 <= k < |ws|
        ensures IsWord(ws[k])
      {
        if k > 0 {
          assert ws[k] == rest[k - 1];
        }
      }
    }
  }

  /** A word followed by nothing or by whitespace is read whole. */
  lemma {:induction false} WordLengthOf(w: string, t: string)
    requires IsWord(w)
    requires |t| == 0 || IsSpace(t[0])
    ensures WordLength(w + t) == |w|
    decreases |w|
  {
    if |w| > 1 {
      assert (w + t)[1..] == w[1..] + t;
      WordLengthOf(w[1..], t);
    } else {
      assert (w + t)[1..] == t;
    }
  }

  /** A word followed by nothing or by whitespace is the first word. */
  lemma WordsCons(w: string, tail: string)
    requires IsWord(w)
    requires |tail| == 0 || IsSpace(tail[0])
    ensures Words(w + tail) == [w] + Words(tail)
  {
    var s := w + tail;
    assert s[0] == w[0];
    assert LStrip(s) == s;
    WordLengthOf(w, tail);
    assert s[..|w|] == w && s[|w|..] == tail;
  }

  /** Leading whitespace does not change the words. */
  lemma WordsSkipSpace(x: string)
    ensures Words(" " + x) == Words(x)
  {
    LStripPrefix(" ", x);
  }

  /** Joining words with single blanks and splitting again gives back the words. */
  lemma {:induction false} WordsJoin(ws: seq<string>)
    requires forall k :: 0 <= k < |ws| ==> IsWord(ws[k])
    ensures Words(Join(ws, " ")) == ws
    decreases |ws|
  {
    if |ws| == 0 {
      assert Words("") == [];
    } else if |ws| == 1 {
      WordsCons(ws[0], "");
      assert ws[0] + "" == ws[0];
      assert Words("") == [];
    } else {
      var j := Join(ws[1..], " ");
      assert Join(ws, " ") == ws[0] + (" " + j);
      WordsCons(ws[0], " " + j);
      WordsSkipSpace(j);
      WordsJoin(ws[1..]);
      assert ws == [ws[0]] + ws[1..];
    }
  }

  /** No two whitespace characters side by side. */
  predicate NoDoubleSpace(s: string) {
    forall i :: 0 <= i < |s| - 1 ==> !(IsSpace(s[i]) && IsSpace(s[i + 1]))
  }

  /** The only whitespace character present is the blank. */
  predicate OnlyBlanks(s: string) {
    forall i :: 0 <= i < |s| ==> IsSpace(s[i]) ==> s[i] == ' '
  }

  /** `' '.join(words)`: single blanks, none at either end. */
  lemma {:induction false} JoinWordsShape(ws: seq<string>)
    requires forall k :: 0 <= k < |ws| ==> IsWord(ws[k])
    ensures NoDoubleSpace(Join(ws, " ")) && OnlyBlanks(Join(ws, " "))
    ensures |Join(ws, " ")| > 0 ==> !IsSpace(Join(ws, " ")[0]) && !IsSpace(Join(ws, " ")[|Join(ws, " ")| - 1])
    decreases |ws|
  {
    if |ws| > 1 {
      JoinWordsShape(ws[1..]);
      var w := ws[0];
      var j := Join(ws[1..], " ");
      var s := Join(ws, " ");
      assert s == w + " " + j;
      assert |j| > 0 by {
        assert IsWord(ws[1..][0]);
        assert |Join(ws[1..], " ")| >= |ws[1..][0]| by {
          if |ws[1..]| > 1 {
            assert Join(ws[1..], " ") == ws[1..][0] + " " + Join(ws[2..], " ");
          }
        }
      }
      forall i | 0 <= i < |s| - 1
        ensures !(IsSpace(s[i]) && IsSpace(s[i + 1]))
      {
        if i >= |w| + 1 {
          assert s[i] == j[i - |w| - 1] && s[i + 1] == j[i - |w|];
        }
      }
      forall i | 0 <= i < |s|
        ensures IsSpace(s[i]) ==> s[i] == ' '
      {
        if i > |w| {
          assert s[i] == j[i - |w| - 1];
        }
      }
    }
  }

  /** `s` holds none of the characters in `bad`. */
  predicate NoneOf(s: string, bad: set<char>) {
    forall i :: 0 <= i < |s| ==> s[i] !in bad
  }

  /** An infix of a string holds none of what the string lacks. */
  lemma NoneOfInfix(s: string, i: nat, j: nat, bad: set<char>)
    requires i <= j <= |s| && NoneOf(s, bad)
    ensures NoneOf(s[i..j], bad)
  {
    forall k | 0 <= k < j - i
      ensures s[i..j][k] !in bad
    {
      assert s[i..j][k] == s[i + k];
    }
  }

  /** Splitting into words introduces no character the input lacks. */
  lemma {:induction false} WordsNoneOf(s: string, bad: set<char>)
    requires NoneOf(s, bad)
    ensures forall k :: 0 <= k < |Words(s)| ==> NoneOf(Words(s)[k], bad)
    decreases |s|
  {
    var t := LStrip(s);
    assert t == s[|s| - |t|..|s|];
    NoneOfInfix(s, |s| - |t|, |s|, bad);
    if |t| > 0 {
      var n := WordLength(t);
      assert t[..n] == t[0..n] && t[n..] == t[n..|t|];
      NoneOfInfix(t, 0, n, bad);
      NoneOfInfix(t, n, |t|, bad);
      WordsNoneOf(t[n..], bad);
      assert Words(s) == [t[..n]] + Words(t[n..]);
      NoneOfCons(t[..n], Words(t[n..]), bad);
    }
  }

  /** A list whose head and every later element avoid `bad` avoids it throughout. */
  lemma NoneOfCons(w: string, rest: seq<string>, bad: set<char>)
    requires NoneOf(w, bad) && forall k :: 0 <= k < |rest| ==> NoneOf(rest[k], bad)
    ensures forall k :: 0 <= k < |[w] + rest| ==> NoneOf(([w] + rest)[k], bad)
  {
    forall k | 0 <= k < |[w] + rest|
      ensures NoneOf(([w] + rest)[k], bad)
    {
      if k > 0 {
        assert ([w] + rest)[k] == rest[k - 1];
      }
    }
  }

  /** Joining pieces with a separator introduces no character that neither has. */
  lemma {:induction false} JoinNoneOf(parts: seq<string>, sep: string, bad: set<char>)
    requires forall k :: 0 <= k < |parts| ==> NoneOf(parts[k], bad)
    requires NoneOf(sep, bad)
    ensures NoneOf(Join(parts, sep), bad)
    decreases |parts|
  {
    if |parts| > 1 {
      JoinNoneOf(parts[1..], sep, bad);
      var j := Join(parts[1..], sep);
      var s := parts[0] + sep + j;
      assert Join(parts, sep) == s;
      forall i | 0 <= i < |s|
        ensures s[i] !in bad
      {
        if i < |parts[0]| {
        } else if i < |parts[0]| + |sep| {
          assert s[i] == sep[i - |parts[0]|];
        } else {
          assert s[i] == j[i - |parts[0]| - |sep|];
        }
      }
    }
  }

  /** Removing a character that a prefix lacks leaves the prefix in place. */
  lemma {:induction false} RemoveCharPrefix(p: string, s: string, a: char)
    requires a !in p
    ensures RemoveChar(p + s, a) == p + RemoveChar(s, a)
    decreases |p|
  {
    if |p| > 0 {
      assert (p + s)[1..] == p[1..] + s;
      RemoveCharPrefix(p[1..], s, a);
      assert p == [p[0]] + p[1..];
    } else {
      assert p + s == s;
    }
  }

  /** `s` without any character of `bad`. */
  function Without(s: string, bad: set<char>): (r: string)
    ensures |r| <= |s| && NoneOf(r, bad)
    decreases |s|
  {
    if |s| == 0 then s
    else if s[0] in bad then Without(s[1..], bad)
    else [s[0]] + Without(s[1..], bad)
  }

  /** A string lacking every character of `bad` is left as it is. */
  lemma {:induction false} WithoutNone(s: string, bad: set<char>)
    requires NoneOf(s, bad)
    ensures Without(s, bad) == s
    decreases |s|
  {
    if |s| > 0 {
      WithoutNone(s[1..], bad);
      assert s == [s[0]] + s[1..];
    }
  }

  /** Removing characters from a concatenation removes them from each side. */
  lemma {:induction false} WithoutAppend(a: string, b: string, bad: set<char>)
    ensures Without(a + b, bad) == Without(a, bad) + Without(b, bad)
    decreases |a|
  {
    if |a| > 0 {
      assert (a + b)[1..] == a[1..] + b;
      WithoutAppend(a[1..], b, bad);
    } else {
      assert a + b == b;
    }
  }

  /** The decimal digit for `d < 10`. */
  function DigitChar(d: nat): char
    requires d < 10
  {
    "0123456789"[d]
  }

  /** `str(n)` for a natural number. */
  function NatToString(n: nat): (s: string)
    ensures |s| > 0 && AllDigits(s)
    decreases n
  {
    if n < 10 then [DigitChar(n)] else NatToString(n / 10) + [DigitChar(n % 10)]
  }

  /** `str(n)` for an integer. */
  function IntToString(n: int): string {
    if n < 0 then "-" + NatToString(-n) else NatToString(n)
  }

  /** The value of a string of decimal digits. */
  function DigitsValue(s: string): nat
    requires AllDigits(s)
    decreases |s|
  {
    if |s| == 0 then 0
    else DigitsValue(s[..|s| - 1]) * 10 + (s[|s| - 1] as int - '0' as int)
  }

  /** The digits of `str(n)` read back as `n`. */
  lemma {:induction false} NatToStringValue(n: nat)
    ensures DigitsValue(NatToString(n)) == n
    decreases n
  {
    if n >= 10 {
      NatToStringValue(n / 10);
      var s := NatToString(n);
      assert s[..|s| - 1] == NatToString(n / 10);
    }
  }

  /** Numbers below 1000 take at most three digits. */
  lemma {:induction false} NatToStringShort(n: nat)
    ensures n < 1000 ==> |NatToString(n)| <= 3
    ensures n >= 1000 ==> |NatToString(n)| > 3
    decreases n
  {
    if n >= 10 {
      NatToStringShort(n / 10);
    }
  }

  /** Digits with single underscores between them, as `int()` accepts: `[0-9](_?[0-9])*`. */
  predicate DigitGroups(s: string) {
    && |s| > 0 && IsDigit(s[0]) && IsDigit(s[|s| - 1])
    && (forall i :: 0 <= i < |s| ==> IsDigit(s[i]) || s[i] == '_')
    && (forall i :: 0 <= i < |s| - 1 ==> s[i] == '_' ==> s[i + 1] != '_')
  }

  /** `int(s)` for base 10: surrounding whitespace, an optional sign, then digit groups. */
  function PyInt(s: string): (r: Option<int>)
    ensures r.Some? ==> |Strip(s)| > 0
  {
    SignedInt(Strip(s))
  }

  /** `int()` after the whitespace is gone: an optional sign, then digit groups. */
  function SignedInt(t: string): (r: Option<int>)
    ensures r.Some? ==> |t| > 0
  {
    var neg := |t| > 0 && t[0] == '-';
    var body := if |t| > 0 && (t[0] == '+' || t[0] == '-') then t[1..] else t;
    match GroupsValue(body)
    case None => None
    case Some(v) =>
      var w: int := v;
      Some(if neg then -w else w)
  }

  /** The value of digit groups, `None` for anything else. */
  function GroupsValue(body: string): (r: Option<nat>)
    ensures r.Some? ==> |body| > 0
  {
    if DigitGroups(body) then
      var ds := RemoveChar(body, '_');
      RemoveCharDigits(body, '_');
      Some(DigitsValue(ds))
    else None
  }

  /** A digit string holds no other character. */
  lemma DigitsLack(s: string, c: char)
    requires AllDigits(s) && !IsDigit(c)
    ensures c !in s
  {
    assert forall i :: 0 <= i < |s| ==> s[i] != c;
  }

  /** A string that starts and ends with a digit is its own strip. */
  lemma DigitEndsStrip(s: string)
    requires |s| > 0 && IsDigit(s[0]) && IsDigit(s[|s| - 1])
    ensures Strip(s) == s
  {
    assert !IsSpace(s[0]) && !IsSpace(s[|s| - 1]);
    StripNoSpace(s);
  }

  /** A digit string is its own strip. */
  lemma DigitsStrip(s: string)
    requires |s| > 0 && AllDigits(s)
    ensures Strip(s) == s
  {
    DigitEndsStrip(s);
  }

  /** A digit string holds no underscore, so `int()` reads it whole. */
  lemma DigitsGroups(s: string)
    requires |s| > 0 && AllDigits(s)
    ensures RemoveChar(s, '_') == s && DigitGroups(s)
  {
    assert '_' !in s;
  }

  /** `int()` of a non-empty digit string is its decimal value. */
  lemma GroupsDigits(s: string)
    requires |s| > 0 && AllDigits(s)
    ensures GroupsValue(s) == Some(DigitsValue(s))
  {
    DigitsGroups(s);
  }

  lemma SignedDigits(s: string)
    requires |s| > 0 && AllDigits(s)
    ensures SignedInt(s) == Some(DigitsValue(s))
  {
    assert IsDigit(s[0]);
    assert s[0] != '+' && s[0] != '-';
    GroupsDigits(s);
  }

  lemma PyIntDigits(s: string)
    requires |s| > 0 && AllDigits(s)
    ensures PyInt(s) == Some(DigitsValue(s))
  {
    DigitsStrip(s);
    SignedDigits(s);
  }

  /** `int()` reads back the decimal rendering of any natural number. */
  lemma PyIntNatToString(n: nat)
    ensures PyInt(NatToString(n)) == Some(n)
  {
    PyIntDigits(NatToString(n));
    NatToStringValue(n);
  }
}
