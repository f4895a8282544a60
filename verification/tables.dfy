/**
 * The two lookup tables of `modules/utils.py`: the display colour of a
 * severity word (`get_severity_color`) and the file extension of a MIME
 * content type (`get_file_extension`). Both normalise their input with
 * `lower()` and `strip()` first and fall back to a default.
 */
module Tables {
  import opened Text
  import opened Http

  /** The words that are shown in red. */
  const RedWords: seq<string> := ["critical", "high", "حرج", "عالي"]

  /** The words that are shown in yellow. */
  const YellowWords: seq<string> := ["medium", "متوسط"]

  /** The words that are shown in green. */
  const GreenWords: seq<string> := ["low", "info", "منخفض", "معلومات"]

  /** `get_severity_color`: the colour of the lower-cased, stripped word, `blue` for anything unlisted. */
  function SeverityColor(severity: string): (r: string)
    ensures r == "red" || r == "yellow" || r == "green" || r == "blue"
    ensures |severity| == 0 ==> r == "blue"
  {
    if |severity| == 0 then "blue" else WordColor(Strip(Lower(severity)))
  }

  /** The colour of a word that is already lower-case and stripped. */
  function WordColor(w: string): (r: string)
    ensures r == "red" || r == "yellow" || r == "green" || r == "blue"
  {
    if w in RedWords then "red"
    else if w in YellowWords then "yellow"
    else if w in GreenWords then "green"
    else "blue"
  }

  /** Whitespace around the word and the case of its letters do not change its colour. */
  lemma SeverityColorNormal(severity: string)
    ensures SeverityColor(severity) == WordColor(Lower(Strip(severity)))
  {
    StripLower(severity);
  }

  /** Padding with whitespace does not change the colour. */
  lemma SeverityColorPadding(p: string, severity: string, q: string)
    requires forall i :: 0 <= i < |p| ==> IsSpace(p[i])
    requires forall i :: 0 <= i < |q| ==> IsSpace(q[i])
    ensures SeverityColor(p + severity + q) == SeverityColor(severity)
  {
    SeverityColorNormal(p + severity + q);
    SeverityColorNormal(severity);
    StripPadding(p, severity, q);
    if |severity| == 0 {
      assert Strip(severity) == [];
    }
  }

  /** Upper-case letters give the same colour as their lower-case forms. */
  lemma SeverityColorCase(severity: string)
    ensures SeverityColor(Lower(severity)) == SeverityColor(severity)
  {
    LowerTwice(severity);
  }

  /** A word with no upper-case letter and no surrounding whitespace is its own normal form. */
  lemma NormalWord(w: string)
    requires |w| > 0 && NoUpper(w)
    requires !IsSpace(w[0]) && !IsSpace(w[|w| - 1])
    ensures SeverityColor(w) == WordColor(w)
  {
    LowerNoUpper(w);
    StripNoSpace(w);
  }

  /** No word is in two lists. */
  lemma ListsDisjoint()
    ensures forall w :: w in YellowWords ==> w !in RedWords
    ensures forall w :: w in GreenWords ==> w !in RedWords && w !in YellowWords
  {
    assert "low"[0] != "حرج"[0] && "info"[0] != "high"[0] && "info"[0] != "عالي"[0];
    assert "منخفض"[1] != "متوسط"[1];
  }

  /** Every red word, English or Arabic, is shown in red. */
  lemma RedWordsRed(w: string)
    requires w in RedWords
    ensures SeverityColor(w) == "red"
  {
    NormalWord(w);
  }

  /** Every yellow word is shown in yellow. */
  lemma YellowWordsYellow(w: string)
    requires w in YellowWords
    ensures SeverityColor(w) == "yellow"
  {
    ListsDisjoint();
    NormalWord(w);
  }

  /** Every green word is shown in green. */
  lemma GreenWordsGreen(w: string)
    requires w in GreenWords
    ensures SeverityColor(w) == "green"
  {
    ListsDisjoint();
    NormalWord(w);
  }

  /** ` HIGH ` is red: it is `high` once stripped and lower-cased. */
  lemma PaddedUpperWord()
    ensures SeverityColor(" HIGH ") == "red"
  {
    assert " HIGH " == " " + "HIGH" + " ";
    SeverityColorPadding(" ", "HIGH", " ");
    SeverityColorCase("HIGH");
    UpperHigh();
  }

  /** `HIGH` lower-cases to a red word. */
  lemma UpperHigh()
    ensures Lower("HIGH") == "high" && SeverityColor("high") == "red"
  {
    RedWordsRed("high");
  }

  /**
   * The scanners label findings `عالية`, `متوسطة` and `منخفضة`, none of
   * which is in the colour lists (`عالية` is not `عالي`), so every one of
   * them falls to the default colour.
   */
  lemma ScannerLabelsUnlisted(s: Severity)
    ensures SeverityColor(SeverityLabel(s)) == "blue"
  {
    match s
    case High => HighLabelUnlisted();
    case Medium => MediumLabelUnlisted();
    case Low => LowLabelUnlisted();
  }

  /** `عالية` is in no list. */
  lemma HighLabelUnlisted()
    ensures SeverityColor("عالية") == "blue"
  {
    NormalWord("عالية");
  }

  /** `متوسطة` is in no list. */
  lemma MediumLabelUnlisted()
    ensures SeverityColor("متوسطة") == "blue"
  {
    NormalWord("متوسطة");
  }

  /** `منخفضة` is in no list. */
  lemma LowLabelUnlisted()
    ensures SeverityColor("منخفضة") == "blue"
  {
    NormalWord("منخفضة");
  }

  /** The characters the table's content types are written with. */
  predicate TypeChar(c: char) {
    'a' <= c <= 'z' || c == '/' || c == '-'
  }

  /** A content type written with lower-case letters, `/` and `-` only. */
  predicate TypeName(k: string) {
    |k| > 0 && forall i :: 0 <= i < |k| ==> TypeChar(k[i])
  }

  /** Such a name is bare and has no upper-case letter. */
  lemma TypeNameBare(k: string)
    requires TypeName(k)
    ensures BareType(k) && NoUpper(k)
  {
  }

  /** The content types `get_file_extension` knows. */
  const Extensions: map<string, string> := map[
    "text/html" := "html",
    "text/plain" := "txt",
    "application/json" := "json",
    "application/xml" := "xml",
    "application/pdf" := "pdf",
    "image/jpeg" := "jpg",
    "image/png" := "png",
    "image/gif" := "gif",
    "application/javascript" := "js",
    "text/css" := "css",
    "application/zip" := "zip",
    "application/x-tar" := "tar",
    "application/x-gzip" := "gz",
    "application/octet-stream" := "bin"
  ]

  /** The media type a content-type header names: lower-cased, stripped, without `;` parameters. */
  function MediaType(contentType: string): string {
    var c := Lower(Strip(contentType));
    if ';' in c then Strip(Split(c, ';')[0]) else c
  }

  /** `get_file_extension`: the extension of a known media type, `txt` for anything else. */
  function FileExtension(contentType: string): (r: string)
    ensures |contentType| == 0 ==> r == "txt"
  {
    if |contentType| == 0 then "txt"
    else
      var m := MediaType(contentType);
      if m in Extensions then Extensions[m] else "txt"
  }

  /** A media type as it is written in the table: non-empty, no whitespace at its ends, no `;`. */
  predicate BareType(k: string) {
    |k| > 0 && !IsSpace(k[0]) && !IsSpace(k[|k| - 1]) && ';' !in k
  }

  /** A bare type is its own media type up to case. */
  lemma BareMediaType(k: string)
    requires BareType(k)
    ensures MediaType(k) == Lower(k)
  {
    StripNoSpace(k);
  }

  /** The first seven content types are such names. */
  lemma FirstKeysNamed()
    ensures forall k :: k in {"text/html", "text/plain", "application/json", "application/xml", "application/pdf", "image/jpeg", "image/png"} ==> TypeName(k)
  {
  }

  /** The last seven content types are such names. */
  lemma LastKeysNamed()
    ensures forall k :: k in {"image/gif", "application/javascript", "text/css", "application/zip", "application/x-tar", "application/x-gzip", "application/octet-stream"} ==> TypeName(k)
  {
  }

  /** Every key of the table is such a name. */
  lemma KeysNamed()
    ensures forall k :: k in Extensions ==> TypeName(k)
  {
    assert Extensions.Keys == {"text/html", "text/plain", "application/json", "application/xml", "application/pdf", "image/jpeg", "image/png"} + {"image/gif", "application/javascript", "text/css", "application/zip", "application/x-tar", "application/x-gzip", "application/octet-stream"};
    FirstKeysNamed();
    LastKeysNamed();
  }

  /** A bare lower-case type is looked up as it is. */
  lemma LowerTypeLookup(k: string)
    requires BareType(k) && NoUpper(k)
    ensures FileExtension(k) == if k in Extensions then Extensions[k] else "txt"
  {
    BareMediaType(k);
    LowerNoUpper(k);
  }

  /** Each content type of the table gives its own extension. */
  lemma TableKeys(k: string)
    requires k in Extensions
    ensures FileExtension(k) == Extensions[k]
  {
    KeysNamed();
    TypeNameBare(k);
    LowerTypeLookup(k);
  }

  /** Stripping a bare type followed by parameters leaves the type and the `;` in place. */
  lemma StripParams(k: string, params: string) returns (rest: string)
    requires BareType(k)
    ensures Strip(k + ";" + params) == k + ";" + rest
  {
    var t := ";" + params;
    assert !IsSpace(t[0]);
    assert |RStrip(t)| > 0;
    RStripAppend(k, t);
    assert LStrip(k + t) == k + t;
    rest := RStrip(t)[1..];
    assert RStrip(t) == ";" + rest;
    assert k + ";" + params == k + t;
    assert k + ";" + rest == k + RStrip(t);
  }

  /** A lower-case bare type followed by `;` splits back to that type. */
  lemma SplitParams(k: string, rest: string)
    requires BareType(k)
    ensures ';' in Lower(k) + ";" + rest
    ensures Strip(Split(Lower(k) + ";" + rest, ';')[0]) == Lower(k)
  {
    assert (Lower(k) + ";" + rest)[|k|] == ';';
    assert ';' !in Lower(k);
    SplitHead(Lower(k), ';', rest);
    LowerCharSpace(k[0]);
    LowerCharSpace(k[|k| - 1]);
    StripNoSpace(Lower(k));
  }

  /** Lower-casing keeps the `;` between a type and its parameters. */
  lemma LowerParams(k: string, rest: string)
    ensures Lower(k + ";" + rest) == Lower(k) + ";" + Lower(rest)
  {
    LowerAppend(k + ";", rest);
    LowerAppend(k, ";");
  }

  /** The media type of a bare type with parameters is the lower-cased type. */
  lemma ParamsMediaType(k: string, params: string)
    requires BareType(k)
    ensures MediaType(k + ";" + params) == Lower(k)
  {
    var rest := StripParams(k, params);
    LowerParams(k, rest);
    SplitParams(k, Lower(rest));
  }

  /** Parameters after `;` are ignored: `text/html; charset=utf-8` reads as `text/html`. */
  lemma ParametersIgnored(k: string, params: string)
    requires BareType(k)
    ensures MediaType(k + ";" + params) == MediaType(k)
    ensures FileExtension(k + ";" + params) == FileExtension(k)
  {
    ParamsMediaType(k, params);
    BareMediaType(k);
    ExtensionOfMediaType(k + ";" + params);
    ExtensionOfMediaType(k);
  }

  /** The empty string names no content type of the table. */
  lemma EmptyNotAType()
    ensures "" !in Extensions
  {
  }

  /** The extension depends on the media type alone; an empty header has the empty media type. */
  lemma ExtensionOfMediaType(contentType: string)
    ensures FileExtension(contentType)
      == if MediaType(contentType) in Extensions then Extensions[MediaType(contentType)] else "txt"
  {
    EmptyNotAType();
    if |contentType| == 0 {
      assert Strip(contentType) == [];
      assert MediaType(contentType) == "";
    }
  }

  /** Case and surrounding whitespace do not change the media type. */
  lemma MediaTypeNormal(p: string, contentType: string, q: string)
    requires forall i :: 0 <= i < |p| ==> IsSpace(p[i])
    requires forall i :: 0 <= i < |q| ==> IsSpace(q[i])
    ensures MediaType(p + Lower(contentType) + q) == MediaType(contentType)
  {
    StripPadding(p, Lower(contentType), q);
    StripLower(contentType);
    LowerTwice(Strip(contentType));
  }

  /** Case and surrounding whitespace do not change the extension. */
  lemma ExtensionNormal(p: string, contentType: string, q: string)
    requires forall i :: 0 <= i < |p| ==> IsSpace(p[i])
    requires forall i :: 0 <= i < |q| ==> IsSpace(q[i])
    ensures FileExtension(p + Lower(contentType) + q) == FileExtension(contentType)
  {
    MediaTypeNormal(p, contentType, q);
    ExtensionOfMediaType(p + Lower(contentType) + q);
    ExtensionOfMediaType(contentType);
  }

  /** `text/html` followed by any parameters, such as `; charset=utf-8`, has extension `html`. */
  lemma HtmlWithParameters(params: string)
    ensures FileExtension("text/html" + ";" + params) == "html"
  {
    assert TypeName("text/html");
    TypeNameBare("text/html");
    ParametersIgnored("text/html", params);
    TableKeys("text/html");
  }

  /** A content type the table does not know has extension `txt`. */
  lemma UnknownType()
    ensures FileExtension("audio/ogg") == "txt"
  {
    assert TypeName("audio/ogg");
    TypeNameBare("audio/ogg");
    LowerTypeLookup("audio/ogg");
  }
}
