/**
 * The input helpers of `modules/utils.py` that work on one string: the
 * file-name sanitiser and the user-name and phone-number validators.
 */
module Inputs {
  import opened Text

  // ---------------------------------------------------------------------
  // sanitize_filename
  // ---------------------------------------------------------------------

  /** The characters a file name may not hold, in the order they are replaced. */
  const InvalidFileChars: seq<char> := ['<', '>', ':', '"', '/', '\\', '|', '?', '*']

  /** The same characters as a set. */
  const InvalidFileSet: set<char> := {'<', '>', ':', '"', '/', '\\', '|', '?', '*'}

  /** The longest name the sanitiser returns. */
  const MaxFileName: nat := 255

  /** The `filename = filename.replace(char, '_')` loop, one character after the other. */
  function ReplaceEach(s: string, chars: seq<char>): string
    decreases |chars|
  {
    if |chars| == 0 then s else ReplaceEach(ReplaceChar(s, chars[0], '_'), chars[1..])
  }

  /** When `_` is not among them, replacing the characters one by one replaces each position independently. */
  lemma {:induction false} ReplaceEachPointwise(s: string, chars: seq<char>)
    requires '_' !in chars
    ensures |ReplaceEach(s, chars)| == |s|
    ensures forall i :: 0 <= i < |s| ==> ReplaceEach(s, chars)[i] == if s[i] in chars then '_' else s[i]
    decreases |chars|
  {
    if |chars| > 0 {
      var t := ReplaceChar(s, chars[0], '_');
      ReplaceEachPointwise(t, chars[1..]);
      forall i | 0 <= i < |s|
        ensures ReplaceEach(s, chars)[i] == if s[i] in chars then '_' else s[i]
      {
        assert s[i] in chars <==> s[i] == chars[0] || s[i] in chars[1..];
      }
    }
  }

  /** The name with every forbidden character turned into `_`. */
  function Scrub(f: string): (r: string)
    ensures |r| == |f| && NoneOf(r, InvalidFileSet)
  {
    seq(|f|, i requires 0 <= i < |f| => if f[i] in InvalidFileSet then '_' else f[i])
  }

  /** The replacement loop, character after character, gives the scrubbed name. */
  lemma ScrubIsLoop(f: string)
    ensures ReplaceEach(f, InvalidFileChars) == Scrub(f)
  {
    ReplaceEachPointwise(f, InvalidFileChars);
    assert forall c :: c in InvalidFileChars <==> c in InvalidFileSet;
  }

  /** `' '.join(filename.split())` */
  function Collapse(s: string): string {
    Join(Words(s), " ")
  }

  /** `filename[:255]` when it is longer. */
  function Truncate(s: string, n: nat): (r: string)
    ensures |r| <= n && |r| <= |s| && r == s[..|r|]
    ensures |s| <= n ==> r == s
  {
    if |s| > n then s[..n] else s
  }

  /**
   * `sanitize_filename`: the empty name becomes `report`; otherwise the
   * forbidden characters become `_`, runs of whitespace become one blank,
   * the ends are trimmed, and the result is cut to 255 characters.
   */
  function SanitizeFilename(f: string): (r: string)
    ensures |f| == 0 ==> r == "report"
    ensures |r| <= MaxFileName
  {
    if |f| == 0 then "report" else Truncate(Collapse(Scrub(f)), MaxFileName)
  }

  /** Every word of a scrubbed name is a word free of forbidden characters. */
  lemma ScrubbedWords(f: string)
    ensures forall k :: 0 <= k < |Words(Scrub(f))| ==>
      IsWord(Words(Scrub(f))[k]) && NoneOf(Words(Scrub(f))[k], InvalidFileSet)
  {
    WordsAreWords(Scrub(f));
    WordsNoneOf(Scrub(f), InvalidFileSet);
  }

  /** Collapsing whitespace introduces no character other than the blank. */
  lemma CollapseNoneOf(s: string, bad: set<char>)
    requires NoneOf(s, bad) && ' ' !in bad
    ensures NoneOf(Collapse(s), bad)
  {
    WordsNoneOf(s, bad);
    JoinNoneOf(Words(s), " ", bad);
  }

  /** A collapsed scrubbed name holds no forbidden character. */
  lemma CollapsedNoneOf(f: string)
    ensures NoneOf(Collapse(Scrub(f)), InvalidFileSet)
  {
    CollapseNoneOf(Scrub(f), InvalidFileSet);
  }

  /** A collapsed name has single blanks only, none at the ends. */
  lemma CollapsedShape(s: string)
    ensures var c := Collapse(s);
      (NoDoubleSpace(c) && OnlyBlanks(c) && (|c| > 0 ==> !IsSpace(c[0]) && !IsSpace(c[|c| - 1])))
  {
    WordsAreWords(s);
    JoinWordsShape(Words(s));
  }

  /** A collapsed scrubbed name is clean: no forbidden character, single blanks only, none at the ends. */
  lemma CollapsedClean(f: string)
    ensures var c := Collapse(Scrub(f));
      (NoneOf(c, InvalidFileSet) && NoDoubleSpace(c) && OnlyBlanks(c)
        && (|c| > 0 ==> !IsSpace(c[0]) && !IsSpace(c[|c| - 1])))
  {
    CollapsedNoneOf(f);
    CollapsedShape(Scrub(f));
  }

  /** A prefix keeps what the three cleanliness predicates say. */
  lemma CleanPrefix(s: string, n: nat)
    requires n <= |s|
    requires NoneOf(s, InvalidFileSet) && NoDoubleSpace(s) && OnlyBlanks(s)
    ensures NoneOf(s[..n], InvalidFileSet) && NoDoubleSpace(s[..n]) && OnlyBlanks(s[..n])
  {
    NoneOfInfix(s, 0, n, InvalidFileSet);
    assert forall i :: 0 <= i < n ==> s[..n][i] == s[i];
  }

  /** The sanitised name holds no forbidden character, no two blanks in a row and no other whitespace. */
  lemma SanitizeClean(f: string)
    ensures var r := SanitizeFilename(f);
      (NoneOf(r, InvalidFileSet) && NoDoubleSpace(r) && OnlyBlanks(r))
  {
    if |f| > 0 {
      var c := Collapse(Scrub(f));
      CollapsedClean(f);
      CleanPrefix(c, |SanitizeFilename(f)|);
    }
  }

  /** Short enough not to be cut, the sanitised name keeps the words of the scrubbed name, in order. */
  lemma SanitizeKeepsWords(f: string)
    requires |f| > 0 && |Collapse(Scrub(f))| <= MaxFileName
    ensures Words(SanitizeFilename(f)) == Words(Scrub(f))
  {
    ScrubbedWords(f);
    WordsJoin(Words(Scrub(f)));
  }

  /** A clean name, once collapsed, has nothing left to scrub or collapse. */
  lemma CleanCollapseFixed(c: string, ws: seq<string>)
    requires c == Join(ws, " ")
    requires forall k :: 0 <= k < |ws| ==> IsWord(ws[k])
    requires NoneOf(c, InvalidFileSet)
    ensures Scrub(c) == c && Collapse(c) == c
  {
    WordsJoin(ws);
  }

  /**
   * Sanitising is idempotent when nothing was cut and something is left:
   * a sanitised name is its own sanitised form.
   */
  lemma SanitizeIdempotent(f: string)
    requires |f| > 0 && |Collapse(Scrub(f))| <= MaxFileName
    requires |SanitizeFilename(f)| > 0
    ensures SanitizeFilename(SanitizeFilename(f)) == SanitizeFilename(f)
  {
    var ws := Words(Scrub(f));
    var c := Collapse(Scrub(f));
    ScrubbedWords(f);
    CollapsedClean(f);
    CleanCollapseFixed(c, ws);
  }

  /** A blank inside a name survives: `file name` stays `file name`. */
  lemma SanitizeKeepsBlank()
    ensures SanitizeFilename("file name") == "file name"
  {
    var ws := ["file", "name"];
    assert IsWord(ws[0]) && IsWord(ws[1]);
    assert Join(ws, " ") == "file name";
    assert NoneOf("file name", InvalidFileSet);
    CleanCollapseFixed("file name", ws);
  }

  /** A name of blanks only is not empty, so it escapes the `report` default and comes out empty. */
  lemma SanitizeBlankName()
    ensures SanitizeFilename("   ") == ""
  {
    assert Scrub("   ") == "   ";
    assert LStrip("   ") == "" by {
      assert LStrip("   "[1..]) == "" by {
        assert LStrip("   "[2..]) == "";
      }
    }
  }

  // ---------------------------------------------------------------------
  // validate_username
  // ---------------------------------------------------------------------

  /** `[a-zA-Z0-9_.]` */
  predicate UsernameChar(c: char) {
    ('a' <= c <= 'z') || ('A' <= c <= 'Z') || ('0' <= c <= '9') || c == '_' || c == '.'
  }

  /** Three to thirty user-name characters. */
  predicate UsernameShape(t: string) {
    3 <= |t| <= 30 && forall i :: 0 <= i < |t| ==> UsernameChar(t[i])
  }

  /**
   * `re.match(r'^[a-zA-Z0-9_\.]{3,30}$', t)`: `$` also matches in front of
   * a final newline, so the class run may be followed by one `\n`.
   */
  predicate UsernameMatch(t: string) {
    UsernameShape(t) || (|t| > 0 && t[|t| - 1] == '\n' && UsernameShape(t[..|t| - 1]))
  }

  /** `validate_username` */
  predicate ValidateUsername(username: string) {
    |username| > 0 && UsernameMatch(Strip(username))
  }

  /**
   * A user name is valid exactly when, once stripped, it is three to thirty
   * characters from `[A-Za-z0-9_.]`: stripping removes any final newline.
   */
  lemma UsernameIff(username: string)
    ensures ValidateUsername(username) <==> |username| > 0 && UsernameShape(Strip(username))
  {
    var t := Strip(username);
    if |t| > 0 {
      assert IsSpace('\n');
      assert t[|t| - 1] != '\n';
    }
  }

  /** Whitespace around a user name does not change the verdict. */
  lemma UsernamePadding(p: string, username: string, q: string)
    requires forall i :: 0 <= i < |p| ==> IsSpace(p[i])
    requires forall i :: 0 <= i < |q| ==> IsSpace(q[i])
    requires |username| > 0
    ensures ValidateUsername(p + username + q) == ValidateUsername(username)
  {
    StripPadding(p, username, q);
  }

  /** A valid user name holds no whitespace at all. */
  lemma UsernameNoSpace(username: string)
    requires ValidateUsername(username)
    ensures forall i :: 0 <= i < |Strip(username)| ==> !IsSpace(Strip(username)[i])
  {
    UsernameIff(username);
  }

  /** A name of letters, digits, a dot and an underscore passes. */
  lemma UsernameAccepted()
    ensures ValidateUsername("user.name_1")
  {
    StripNoSpace("user.name_1");
  }

  /** Two characters are too short. */
  lemma UsernameTooShort()
    ensures !ValidateUsername("ab")
  {
    StripNoSpace("ab");
  }

  /** Thirty-one characters are too long. */
  lemma UsernameTooLong()
    ensures !ValidateUsername("a234567890123456789012345678901")
  {
    UsernameIff("a234567890123456789012345678901");
    StripNoSpace("a234567890123456789012345678901");
  }

  /** An inner blank is not a user-name character. */
  lemma UsernameInnerBlank()
    ensures !ValidateUsername("user name")
  {
    UsernameIff("user name");
    StripNoSpace("user name");
    assert !UsernameChar("user name"[4]);
  }

  // ---------------------------------------------------------------------
  // validate_phone
  // ---------------------------------------------------------------------

  /** The characters `validate_phone` removes, in the order it removes them. */
  const PhoneSeparators: seq<char> := [' ', '-', '(', ')']

  /** The `.replace(c, '')` chain, one character after the other. */
  function RemoveEach(s: string, chars: seq<char>): string
    decreases |chars|
  {
    if |chars| == 0 then s else RemoveEach(RemoveChar(s, chars[0]), chars[1..])
  }

  /** Removing characters keeps only characters the string had. */
  lemma {:induction false} RemoveEachSubset(s: string, chars: seq<char>)
    ensures forall c :: c in RemoveEach(s, chars) ==> c in s
    decreases |chars|
  {
    if |chars| > 0 {
      RemoveCharSubset(s, chars[0]);
      RemoveEachSubset(RemoveChar(s, chars[0]), chars[1..]);
    }
  }

  /** No removed character is left. */
  lemma {:induction false} RemoveEachLacks(s: string, chars: seq<char>)
    ensures forall k :: 0 <= k < |chars| ==> chars[k] !in RemoveEach(s, chars)
    decreases |chars|
  {
    if |chars| > 0 {
      var t := RemoveChar(s, chars[0]);
      RemoveEachLacks(t, chars[1..]);
      RemoveEachSubset(t, chars[1..]);
      assert chars[0] !in t;
    }
  }

  /** The removed characters as a set. */
  const PhoneSeparatorSet: set<char> := {' ', '-', '(', ')'}

  /** Removing one character, then a set, removes the set with that character added. */
  lemma {:induction false} WithoutRemoveChar(s: string, c: char, bad: set<char>)
    ensures Without(RemoveChar(s, c), bad) == Without(s, bad + {c})
    decreases |s|
  {
    if |s| > 0 {
      WithoutRemoveChar(s[1..], c, bad);
    }
  }

  /** The `.replace(c, '')` chain removes exactly the set of its characters. */
  lemma {:induction false} RemoveEachIsWithout(s: string, chars: seq<char>, bad: set<char>)
    ensures Without(RemoveEach(s, chars), bad) == Without(s, bad + set c | c in chars)
    decreases |chars|
  {
    if |chars| == 0 {
      assert (set c | c in chars) == {};
      assert bad + {} == bad;
    } else {
      var t := RemoveChar(s, chars[0]);
      RemoveEachIsWithout(t, chars[1..], bad);
      WithoutRemoveChar(s, chars[0], bad + set c | c in chars[1..]);
      assert bad + (set c | c in chars[1..]) + {chars[0]} == bad + set c | c in chars;
    }
  }

  /** `phone.strip()` without blanks, dashes and parentheses. */
  function PhoneCompact(phone: string): string {
    Without(Strip(phone), PhoneSeparatorSet)
  }

  /** The compact form is what the `.replace` chain leaves of the stripped number. */
  lemma PhoneCompactIsChain(phone: string)
    ensures PhoneCompact(phone) == RemoveEach(Strip(phone), PhoneSeparators)
  {
    var r := RemoveEach(Strip(phone), PhoneSeparators);
    RemoveEachIsWithout(Strip(phone), PhoneSeparators, {});
    assert {} + (set c | c in PhoneSeparators) == PhoneSeparatorSet;
    RemoveEachLacks(Strip(phone), PhoneSeparators);
    assert forall i :: 0 <= i < |r| ==> r[i] !in PhoneSeparatorSet;
    WithoutNone(r, {});
  }

  /** What follows the plus: a leading `00` or `+` is dropped, anything else is kept whole. */
  function PhoneRest(q: string): string {
    if StartsWith(q, "00") then q[2..]
    else if StartsWith(q, "+") then q[1..]
    else q
  }

  /** A leading `00` becomes `+`; a number with neither gets a `+` in front. */
  function PhoneNormal(phone: string): string {
    "+" + PhoneRest(PhoneCompact(phone))
  }

  /** `[0-9]{10,15}` taken whole. */
  predicate PhoneDigits(d: string) {
    10 <= |d| <= 15 && AllDigits(d)
  }

  /**
   * `re.match(r'^\+[0-9]{10,15}$', m)`: a plus, ten to fifteen digits, and
   * the end of the string or a final newline, which `$` also matches before.
   */
  predicate PhoneMatch(m: string) {
    && |m| > 0 && m[0] == '+'
    && (PhoneDigits(m[1..]) || (|m| > 1 && m[|m| - 1] == '\n' && PhoneDigits(m[1..|m| - 1])))
  }

  /** `validate_phone` */
  predicate ValidatePhone(phone: string) {
    |phone| > 0 && PhoneMatch(PhoneNormal(phone))
  }

  /** After the plus come digits only: the pattern holds exactly for ten to fifteen of them. */
  lemma PhoneMatchDigits(d: string)
    requires AllDigits(d)
    ensures PhoneMatch("+" + d) <==> 10 <= |d| <= 15
  {
    var m := "+" + d;
    assert m[1..] == d;
    if |d| > 0 {
      assert m[|m| - 1] == d[|d| - 1];
      assert IsDigit(d[|d| - 1]);
    }
  }

  /** A plus and digits only have no whitespace at the ends and none of the removed characters. */
  lemma PlusDigitsCompact(d: string)
    requires AllDigits(d)
    ensures PhoneCompact("+" + d) == "+" + d
  {
    var s := "+" + d;
    assert s[|s| - 1] == '+' || IsDigit(s[|s| - 1]);
    StripNoSpace(s);
    assert forall i :: 1 <= i < |s| ==> IsDigit(s[i]);
    WithoutNone(s, PhoneSeparatorSet);
  }

  /** Digits only have no whitespace at the ends and none of the removed characters. */
  lemma DigitsCompact(d: string)
    requires |d| > 0 && AllDigits(d)
    ensures PhoneCompact(d) == d
  {
    DigitsStrip(d);
    WithoutNone(d, PhoneSeparatorSet);
  }

  /** A plus followed by digits is accepted exactly when there are ten to fifteen digits. */
  lemma PhonePlus(d: string)
    requires AllDigits(d)
    ensures ValidatePhone("+" + d) <==> 10 <= |d| <= 15
  {
    PlusDigitsCompact(d);
    assert PhoneRest("+" + d) == d;
    PhoneMatchDigits(d);
  }

  /** A leading `00` counts as the plus. */
  lemma PhoneDoubleZero(d: string)
    requires AllDigits(d)
    ensures ValidatePhone("00" + d) <==> 10 <= |d| <= 15
  {
    DigitsCompact("00" + d);
    assert PhoneRest("00" + d) == d;
    PhoneMatchDigits(d);
  }

  /** Digits without a prefix get the plus in front. */
  lemma PhoneBare(d: string)
    requires |d| > 0 && AllDigits(d) && !StartsWith(d, "00")
    ensures ValidatePhone(d) <==> 10 <= |d| <= 15
  {
    DigitsCompact(d);
    assert !StartsWith(d, "+");
    assert PhoneRest(d) == d;
    PhoneMatchDigits(d);
  }

  /** Digits, a newline and `)` come out of the clean-up as the digits and the newline. */
  lemma NewlineCompact(d: string)
    requires |d| > 0 && AllDigits(d)
    ensures PhoneCompact(d + "\n)") == d + "\n"
  {
    var u := d + "\n";
    var p := u + ")";
    assert d + "\n)" == p;
    assert p[0] == d[0] && IsDigit(d[0]) && p[|p| - 1] == ')';
    StripNoSpace(p);
    assert forall i :: 0 <= i < |u| ==> IsDigit(u[i]) || u[i] == '\n';
    WithoutNone(u, PhoneSeparatorSet);
    WithoutAppend(u, ")", PhoneSeparatorSet);
    assert Without(")", PhoneSeparatorSet) == "";
    assert u + "" == u;
  }

  /** Digits and a newline keep their first character: no `00` or `+` is taken off. */
  lemma NewlineRest(d: string)
    requires |d| > 0 && AllDigits(d) && !StartsWith(d, "00")
    ensures PhoneRest(d + "\n") == d + "\n"
  {
    var u := d + "\n";
    assert u[0] == d[0] && IsDigit(d[0]);
    assert u[..1] != "+";
    if |d| >= 2 {
      assert u[..2] == d[..2];
    } else {
      assert u[1] == '\n';
    }
    assert !StartsWith(u, "00");
  }

  /** The verdict on a number depends only on its compact form. */
  lemma PhoneByCompact(phone: string, q: string)
    requires |phone| > 0 && PhoneCompact(phone) == q
    ensures ValidatePhone(phone) == PhoneMatch("+" + PhoneRest(q))
  {
  }

  /** `$` lets ten to fifteen digits be followed by a final newline. */
  lemma NewlineMatch(d: string)
    requires PhoneDigits(d)
    ensures PhoneMatch("+" + (d + "\n"))
  {
    var m := "+" + (d + "\n");
    assert m[1..|m| - 1] == d;
  }

  /**
   * A newline hidden behind a closing parenthesis survives the clean-up, and
   * `$` accepts it: ten to fifteen digits, a newline and `)` pass.
   */
  lemma PhoneNewlineAccepted(d: string)
    requires PhoneDigits(d) && !StartsWith(d, "00")
    ensures ValidatePhone(d + "\n)")
  {
    NewlineCompact(d);
    PhoneByCompact(d + "\n)", d + "\n");
    NewlineRest(d);
    NewlineMatch(d);
  }

  /** `1234567890\n)` passes as a phone number. */
  lemma PhoneNewlineExample()
    ensures ValidatePhone("1234567890\n)")
  {
    var d := "1234567890";
    assert d[0] == '1';
    assert d + "\n)" == "1234567890\n)";
    PhoneNewlineAccepted(d);
  }

  /** The check with the end of the string where the comment places it: digits only after the plus. */
  predicate ValidatePhoneStrict(phone: string) {
    |phone| > 0 && PhoneDigits(PhoneRest(PhoneCompact(phone)))
  }

  /** The strict check accepts no number whose clean form holds a newline. */
  lemma StrictNoNewline(phone: string)
    requires ValidatePhoneStrict(phone)
    ensures '\n' !in PhoneNormal(phone)
  {
    var d := PhoneRest(PhoneCompact(phone));
    assert forall i :: 0 <= i < |d| ==> IsDigit(d[i]);
    assert forall i :: 1 <= i < |"+" + d| ==> ("+" + d)[i] == d[i - 1];
  }

  /** The two checks differ only on clean forms that end in a newline. */
  lemma StrictDiffersOnNewline(phone: string)
    ensures ValidatePhoneStrict(phone) ==> ValidatePhone(phone)
    ensures ValidatePhone(phone) && !ValidatePhoneStrict(phone) ==>
      PhoneNormal(phone)[|PhoneNormal(phone)| - 1] == '\n'
  {
    var d := PhoneRest(PhoneCompact(phone));
    assert ("+" + d)[1..] == d;
  }

  /** The strict check rejects every number the newline slips through with. */
  lemma StrictRejectsNewline(d: string)
    requires PhoneDigits(d) && !StartsWith(d, "00")
    ensures !ValidatePhoneStrict(d + "\n)")
  {
    NewlineCompact(d);
    NewlineRest(d);
    var u := d + "\n";
    assert !IsDigit(u[|u| - 1]);
  }
}
