# JawaL scanners in Dafny

This project models the decision logic of JawaL, a website security scanner. The model covers four parts:

- the helpers of `modules/utils.py`: the port-range parser, the IPv4 check, the file-name sanitiser, the user-name, phone and URL validators, domain extraction, the severity-colour and content-type tables, and the retry loop of `safe_request`;
- the general web scanner `WebScanner`: technology and version detection, the vulnerability scan of one page, the security-header status, and the port scan;
- the WordPress scanner and the Joomla scanner: recognising the platform, reading its version, theme or template and plugins or components, the per-path vulnerability checks, and the order of the vulnerability scan.

Everything is a pure function over immutable values.

- An HTTP answer is a `Response`: status, body, headers and cookies. The headers are keyed by lower-cased name, as in `requests`' case-insensitive dictionary.
- A failed request is `None`.
- `if response:` holds exactly when the answer exists and its status is not a client or server error, i.e. outside 400-599 (`Http.Truthy`), as `requests`' `Response.ok` decides.
- A site is `Http.Site`: the answer to the scanner's own URL, plus a function from an absolute path to the answer for the URL joined with that path.
- The thread pools read their futures in submission order, so each scan is a sequential map over its table.
- The fixed regular expressions are hand-written scanners (`Patterns`). Each has the shape lead, one captured run, trail. Greedy evaluation is proved to return the longest capture a backtracking matcher could give.
- Version strings are compared as sequences of integers (`Versions`). A segment `int()` rejects is an `Err`, the `ValueError` that empties a whole platform scan.

Modules, one per file: `Wrappers` (Option, Result), `Text` (Python string operations), `Http`, `Collections` (`list(set(xs))`, subsequences), `Patterns`, `Versions`, `Urls`, `Utils`, `Inputs` (file names, user names, phones), `Tables`, `Retry`, `Web`, `Probe` (the steps the two platform scanners share), `WordPress`, `Joomla`.

## Model

| member | source | states |
|---|---|---|
| Utils.Range | modules/utils.py:317 | `range(a, b + 1)` has `b - a + 1` elements counting up from `a`, and none when `a > b` |
| Utils.ConcatAll | modules/utils.py:306-319 | the port loop fails as a whole exactly when one part fails; otherwise it lists exactly what the parts contribute |
| Utils.PartsOfAppend | modules/utils.py:306 | the contributions of two comma lists side by side are the two lists' contributions |
| Utils.KeepPorts | modules/utils.py:324 | the filter keeps exactly the elements in 1..65535 and adds no repeat |
| Utils.SelectPorts | modules/utils.py:321-330 | a failed parse gives `[80, 443]`; otherwise the result holds exactly the parsed ports in 1..65535, each once |
| Utils.ParsePortRange | modules/utils.py:299-303 | empty input gives the empty list |
| Utils.ReadBack | modules/utils.py:313-319 | `int(x.strip())` reads back the decimal rendering of every natural number |
| Utils.SpanOfRenderings | modules/utils.py:312-316 | `"a-b"` for two numbers gives the span between the two numbers |
| Utils.PortSpan | modules/utils.py:311-317 | `"a-b"` contributes every port from min(a,b) to max(a,b) inclusive |
| Utils.PortSpanSwap | modules/utils.py:315-316 | `"a-b"` and `"b-a"` contribute the same ports |
| Utils.PortSingle | modules/utils.py:318-319 | a lone number contributes itself |
| Utils.ConcatAllAppend | modules/utils.py:306-319 | joining two successful part lists lists the union of their ports |
| Utils.PortRangeUnion | modules/utils.py:306-319 | `s + "," + t` lists exactly the ports of `s` and of `t` |
| Utils.BlankContributesNothing | modules/utils.py:307-309 | a blank part contributes nothing |
| Utils.BlankPartSkipped | modules/utils.py:306-309 | a trailing blank part after a comma changes nothing |
| Utils.NotANumber | modules/utils.py:327-330 | `"abc"` gives exactly `[80, 443]` |
| Utils.TwoDashesPart | modules/utils.py:311-312 | a part with two dashes fails to unpack into a pair |
| Utils.TwoDashes | modules/utils.py:311-330 | `"1-2-3"` gives the default `[80, 443]` |
| Utils.OctetAllowedIff | modules/utils.py:209-212 | a group of one to three digits passes the `int(octet) > 255` test exactly when its value is at most 255 |
| Utils.AllowedGroups | modules/utils.py:209-213 | four groups pass the loop exactly when every one is at most 255 |
| Utils.QuadGroupsInRange | modules/utils.py:203-213 | an accepted address is a dotted quad whose four groups are at most 255 |
| Utils.GroupsQuadInRange | modules/utils.py:203-213 | a dotted quad whose four groups are at most 255 is accepted |
| Utils.DottedGroups | modules/utils.py:206-209 | four groups of one to three digits joined by dots match the pattern and split back into those groups |
| Utils.DottedGroupsAccepted | modules/utils.py:196-214 | four groups each at most 255, joined by dots, form an IP address |
| Utils.AddressGroups | modules/utils.py:196-214 | four groups of one to three digits joined by dots are accepted only when all four are at most 255 |
| Utils.DottedGroupsRejected | modules/utils.py:210-212 | one group above 255 rejects the address |
| Utils.IpPadding | modules/utils.py:203 | whitespace around a non-empty address does not change the verdict |
| Urls.WithScheme | modules/utils.py:80-82 | a URL with an `http://` or `https://` prefix is kept as given; any other gets `http://` in front, so the result always has a web scheme |
| Urls.WithSchemeIdempotent | modules/utils.py:80-82 | prefixing an already prefixed URL leaves it unchanged |
| Urls.Scheme | modules/utils.py:84-85 | the scheme after the prefix step is `http` or `https` |
| Urls.SchemeSplit | modules/utils.py:81-84 | the prefixed URL is its scheme, `://` and the remainder |
| Urls.ValidateUrlIff | modules/utils.py:74-85 | a URL is valid exactly when it is non-empty, parses, and has a non-empty network location |
| Urls.NetlocOfRemainder | modules/utils.py:84 | a host followed by a path, query or fragment parses to that host |
| Urls.HostUrl | modules/utils.py:74-194 | for `http://` or `https://` plus a host: the URL is valid, parses to that scheme and host, and its domain is the host without a leading `www.` |
| Urls.BareHost | modules/utils.py:74-194 | a host without a scheme is valid, parses as `http`, and gives the host without `www.` as its domain |
| Urls.UnsafeTailIgnored | modules/utils.py:84 | tab and newline characters at the end of a URL are dropped before parsing |
| Urls.ExampleIsValid | modules/utils.py:74-85 | `example.com` is a valid URL with domain `example.com` |
| Urls.ExampleDropsWww | modules/utils.py:187-188 | `www.example.com` has domain `example.com` |
| Urls.UnbalancedBracket | modules/utils.py:191-194 | `[::1` is invalid, and domain extraction falls back to the prefixed URL |
| Inputs.ReplaceEachPointwise | modules/utils.py:247-249 | the replacement loop turns each forbidden character into `_` and keeps everything else in place |
| Inputs.Scrub | modules/utils.py:247-249 | the scrubbed name has the same length and none of the nine characters Windows forbids in file names |
| Inputs.ScrubIsLoop | modules/utils.py:248-249 | the character-by-character loop gives the scrubbed name |
| Inputs.Truncate | modules/utils.py:255-256 | the cut name is a prefix of at most `n` characters, and a short name is kept whole |
| Inputs.SanitizeFilename | modules/utils.py:240-258 | empty input gives `report`, and the result is at most 255 characters |
| Inputs.CollapsedClean | modules/utils.py:247-252 | after scrubbing and collapsing: no forbidden character, single blanks only, none at the ends |
| Inputs.SanitizeClean | modules/utils.py:240-258 | the sanitised name has no forbidden character, no two blanks in a row, and no other whitespace |
| Inputs.SanitizeKeepsWords | modules/utils.py:252 | a name short enough not to be cut keeps the words of the scrubbed name, in order |
| Inputs.SanitizeIdempotent | modules/utils.py:240-258 | sanitising a sanitised name changes nothing |
| Inputs.SanitizeKeepsBlank | modules/utils.py:252 | `file name` stays `file name` |
| Inputs.SanitizeBlankName | modules/utils.py:243-252 | a name of blanks only escapes the `report` default and comes out empty |
| Inputs.UsernameIff | modules/utils.py:91-102 | a user name is valid exactly when it is non-empty and its stripped form has 3 to 30 characters from `[A-Za-z0-9_.]` |
| Inputs.UsernamePadding | modules/utils.py:98 | whitespace around a non-empty user name does not change the verdict |
| Inputs.UsernameNoSpace | modules/utils.py:98-102 | a valid user name holds no whitespace once stripped |
| Inputs.UsernameAccepted | modules/utils.py:101-102 | `user.name_1` is valid |
| Inputs.UsernameTooShort | modules/utils.py:101-102 | `ab` is too short |
| Inputs.UsernameTooLong | modules/utils.py:101-102 | 31 characters are too many |
| Inputs.UsernameInnerBlank | modules/utils.py:101-102 | an inner blank makes a user name invalid |
| Inputs.RemoveEachLacks | modules/utils.py:58 | no removed character is left after the `.replace` chain |
| Inputs.RemoveEachIsWithout | modules/utils.py:58 | the `.replace(c, '')` chain removes exactly the set of its characters |
| Inputs.PhoneCompactIsChain | modules/utils.py:58 | the clean-up is the replace chain applied to the stripped number |
| Inputs.PhoneMatchDigits | modules/utils.py:67-68 | a plus followed by digits matches exactly for 10 to 15 digits |
| Inputs.PhonePlus | modules/utils.py:51-68 | `+` and digits is accepted exactly for 10 to 15 digits |
| Inputs.PhoneDoubleZero | modules/utils.py:61-62 | a leading `00` counts as the plus |
| Inputs.PhoneBare | modules/utils.py:63-64 | digits with no prefix get a `+` in front and are accepted exactly for 10 to 15 digits |
| Inputs.PhoneByCompact | modules/utils.py:58-68 | the verdict depends only on the cleaned number |
| Inputs.PhoneNewlineAccepted | modules/utils.py:58-68 | 10 to 15 digits followed by a newline and `)` are accepted |
| Inputs.StrictDiffersOnNewline | modules/utils.py:67-68 | the check as intended accepts a subset, and the two differ only on a cleaned number ending in a newline |
| Inputs.StrictRejectsNewline | modules/utils.py:67-68 | the check as intended rejects every number the newline gets through with |
| Tables.SeverityColor | modules/utils.py:332-348 | the colour is red, yellow, green or blue, and blue for empty input |
| Tables.SeverityColorNormal | modules/utils.py:339-348 | the colour is that of the stripped, lower-cased word |
| Tables.SeverityColorPadding | modules/utils.py:339 | surrounding whitespace does not change the colour |
| Tables.SeverityColorCase | modules/utils.py:339 | letter case does not change the colour |
| Tables.ListsDisjoint | modules/utils.py:341-346 | no word is in two colour lists |
| Tables.RedWordsRed | modules/utils.py:341-342 | every red word is shown red |
| Tables.YellowWordsYellow | modules/utils.py:343-344 | every yellow word is shown yellow |
| Tables.GreenWordsGreen | modules/utils.py:345-346 | every green word is shown green |
| Tables.PaddedUpperWord | modules/utils.py:339-342 | ` HIGH ` is red |
| Tables.ScannerLabelsUnlisted | modules/utils.py:341-348 | the scanners' own severity labels (`عالية`, `متوسطة`, `منخفضة`) are in no list and are shown blue |
| Tables.FileExtension | modules/utils.py:264-268 | an empty content type gives `txt` |
| Tables.BareMediaType | modules/utils.py:271-275 | a type without whitespace or `;` reads as its lower-case form |
| Tables.LowerTypeLookup | modules/utils.py:277-293 | a lower-case bare type is looked up as it is, `txt` when unknown |
| Tables.TableKeys | modules/utils.py:277-293 | each content type of the table gives its own extension |
| Tables.ParamsMediaType | modules/utils.py:274-275 | a type followed by `;` and parameters reads as the lower-cased type |
| Tables.ParametersIgnored | modules/utils.py:274-275 | parameters after `;` change neither the media type nor the extension |
| Tables.ExtensionOfMediaType | modules/utils.py:264-293 | the extension depends on the media type alone |
| Tables.MediaTypeNormal | modules/utils.py:271 | case and surrounding whitespace do not change the media type |
| Tables.ExtensionNormal | modules/utils.py:271 | case and surrounding whitespace do not change the extension |
| Tables.HtmlWithParameters | modules/utils.py:274-278 | `text/html` with any parameters gives `html` |
| Tables.UnknownType | modules/utils.py:293 | an unknown type gives `txt` |
| Retry.Loop | modules/utils.py:143-171 | the loop stops at the first attempt that is not a timeout or connection error, or after `maxRetries` attempts; it returns that attempt's answer |
| Retry.SafeRequest | modules/utils.py:136-171 | an invalid URL is refused with no attempt; otherwise at most `maxRetries` attempts are made, all but the last retried, and the last one's answer is returned |
| Retry.FirstFinal | modules/utils.py:143-171 | the index of the first attempt that ends the loop, as an independent reference |
| Retry.LoopIsFirstFinal | modules/utils.py:143-171 | the loop answers as the first attempt that is not retried, or `None` after `maxRetries` retried attempts |
| Retry.SafeRequestIsFirstFinal | modules/utils.py:136-171 | for a valid URL, `safe_request` answers as the first attempt that is not retried |
| Retry.InvalidUrlNoAttempt | modules/utils.py:137-140 | an invalid URL returns `None` with zero attempts |
| Retry.FirstAnswerReturned | modules/utils.py:145-155 | a first attempt that answers is returned at once |
| Retry.AllRetriedGiveUp | modules/utils.py:156-167 | timeouts and connection errors on every attempt give `None` after exactly `maxRetries` attempts |
| Retry.OtherErrorStops | modules/utils.py:168-171 | any other request error gives `None` after that single attempt |
| Retry.NoRetriesNoAttempt | modules/utils.py:143 | a non-positive retry count makes no attempt |
| Versions.ParseSegments | modules/wordpress_scanner.py:382-383 | parsing succeeds exactly when every segment is an integer, and yields those integers |
| Versions.BelowIsLexLess | modules/wordpress_scanner.py:385-393 | the segment loop with the length tie-break is the strict lexicographic order, where a proper prefix is below |
| Versions.OutdatedSegments | modules/wordpress_scanner.py:385-393 | the comparison loop returns true exactly when the segments are lexicographically below the baseline |
| Versions.BelowIrreflexive | modules/wordpress_scanner.py:385-393 | no version is below itself |
| Versions.BelowTrichotomy | modules/wordpress_scanner.py:385-393 | of two different versions exactly one is below the other |
| Versions.BelowTransitive | modules/wordpress_scanner.py:385-393 | the order is transitive |
| Versions.IsOutdated | modules/wordpress_scanner.py:376-393 | succeeds exactly when both versions parse, and then says whether the version is lexicographically below the baseline |
| Versions.EqualNotOutdated | modules/joomla_scanner.py:401-417 | a version is never outdated against itself |
| Versions.JoomlaExamples | modules/joomla_scanner.py:404-417 | against 4.3.3: `4.3` is outdated, `4.4` and `4.3.3` are not |
| Versions.WordPressExamples | modules/wordpress_scanner.py:379-393 | against 6.4.2: `6.4` and `6.3.9` are outdated, `6.4.2` and `6.5` are not |
| Versions.TrailingDotRaises | modules/wordpress_scanner.py:382 | a version ending in a dot fails to parse against either baseline |
| Versions.IsOutdatedPlugin | modules/wordpress_scanner.py:395-403 | a plugin version is outdated exactly when it starts with `1.` or `2.` |
| Versions.PluginExamples | modules/wordpress_scanner.py:401-403 | `10.0` and `1` are not outdated; `1.9` and `2.0.1` are |
| Patterns.MatchAtIsLongest | modules/web_scanner.py:281-283 | the greedy scanner returns the longest capture any backtracking match at that position has, which is what `re.search` reports |
| Patterns.SearchInClass | modules/web_scanner.py:281-283 | a capture is a non-empty run of its character class |
| Patterns.FindAllHeadIsSearch | modules/wordpress_scanner.py:205-210 | the first `findall` result is what `search` captures, and `findall` is empty exactly when `search` fails |
| Collections.Distinct | modules/wordpress_scanner.py:251 | `list(set(xs))` has the same elements as `xs`, each once |
| Http.HeaderMap | modules/web_scanner.py:219 | a header name is present exactly when some field has that name up to case, and its value is the `", "`-join of every such field's value in arrival order |
| Http.HeaderIgnoresCase | modules/web_scanner.py:236-246 | header lookup ignores the case of the name asked for |
| Http.ReachableIsTruthy | modules/wordpress_scanner.py:102 | `response and response.status_code != 404` is just `response`: 404 is a client error, so no true answer has it |
| Web.FirstSearch | modules/web_scanner.py:280-284 | some pattern finds a version exactly when one of the patterns matches |
| Web.VersionPatternsCaptureVersions | modules/web_scanner.py:269-276 | every version pattern captures `[\d.]+` |
| Web.BodyVersion | modules/web_scanner.py:279-284 | a version read from the body is digits and dots |
| Web.HeaderVersion | modules/web_scanner.py:287-295 | a version is read from the headers only for PHP, Apache and Nginx, and it is digits and dots |
| Web.DetectVersion | modules/web_scanner.py:264-297 | the body's version wins when there is one; an unlisted technology has no version |
| Web.HeaderOnlyAsFallback | modules/web_scanner.py:286-295 | the headers give the version only when the body gave none |
| Web.BodyFirstMatchWins | modules/web_scanner.py:279-284 | the first body pattern that matches gives the version |
| Web.UnlistedHasNoVersion | modules/web_scanner.py:279-297 | a technology without version patterns gets none, headers or not |
| Web.ServerHeaderVersion | modules/web_scanner.py:292-295 | Apache and Nginx fall back to `NAME/version` in the `Server` header |
| Web.FiresIff | modules/web_scanner.py:224-225 | a signature fires exactly when one of its patterns is a substring of the body |
| Web.TechOf | modules/web_scanner.py:227-232 | the entry is high confidence exactly when a version was found; otherwise medium with version `غير معروف` |
| Web.BodyPass | modules/web_scanner.py:222-233 | each fired signature gives one entry, in table order, and nothing else is listed |
| Web.BodyTechs | modules/web_scanner.py:222-233 | the body pass lists exactly the fired signatures of the 29-entry table, in table order |
| Web.BodyPassNoDup | modules/web_scanner.py:222-233 | with distinct table names, no name is listed twice |
| Web.CommonNamesDistinct | modules/web_scanner.py:33-63 | the technology table has no repeated name |
| Web.WithHeader | modules/web_scanner.py:236-243 | a header value is appended as a high-confidence entry exactly when no listed entry has that name |
| Web.HeaderPass | modules/web_scanner.py:235-253 | the header pass keeps the body entries and appends at most two high-confidence entries, each with a header value as its name |
| Web.HeaderPassNoDup | modules/web_scanner.py:236-253 | the header pass adds no repeated name |
| Web.SameHeadersOnce | modules/web_scanner.py:236-253 | equal `Server` and `X-Powered-By` values are listed once |
| Web.HeaderListed | modules/web_scanner.py:236-243 | an unlisted `Server` value comes right after the body entries |
| Web.DetectTechnologies | modules/web_scanner.py:206-262 | a missing or error answer gives no technology |
| Web.DetectTechnologiesNoDup | modules/web_scanner.py:222-253 | no technology name is listed twice |
| Web.HeaderPassEntries | modules/web_scanner.py:236-253 | every entry past the body entries is a header value not listed before |
| Web.FiredListed | modules/web_scanner.py:222-233 | every fired signature is listed with its detected version and confidence |
| Web.ListedEntries | modules/web_scanner.py:216-253 | every listed entry is a fired signature or a header value |
| Web.PatternFinding | modules/web_scanner.py:317-325 | a signature gives one finding exactly when one of its non-empty patterns is in the body; the evidence is the first such pattern |
| Web.PatternFindings | modules/web_scanner.py:315-325 | at most one finding per signature, and exactly the findings of the signatures that hit |
| Web.EmptySignatureSilent | modules/web_scanner.py:317-318 | a signature with no pattern never gives a finding |
| Web.Absent | modules/web_scanner.py:388-392 | exactly the absent names, in declaration order |
| Web.MissingHeaders | modules/web_scanner.py:374-392 | exactly the absent ones of the six security headers, in declaration order |
| Web.CookieLines | modules/web_scanner.py:399-402 | one line for a cookie without `Secure`, one for a cookie without `HttpOnly` |
| Web.InsecureCookies | modules/web_scanner.py:394-404 | the list is empty exactly when every cookie is secure and http-only |
| Web.InsecureCookiesAppend | modules/web_scanner.py:398-404 | the lines of two cookie lists are the two lists' lines side by side |
| Web.InsecureCookieNamed | modules/web_scanner.py:398-402 | each cookie missing a flag is named with that flag |
| Web.MissingHeadersFinding | modules/web_scanner.py:328-335 | the finding is emitted exactly when a header is missing, with the missing names joined by `, ` |
| Web.InsecureCookiesFinding | modules/web_scanner.py:338-345 | the finding is emitted exactly when a cookie lacks a flag, with the lines joined by `, ` |
| Web.NoHttpsFinding | modules/web_scanner.py:348-354 | a URL not starting with `https` gives the high-severity finding with the URL as evidence |
| Web.ListingFinding | modules/web_scanner.py:357-363 | `Index of /` or `Directory Listing` in the body gives the directory-listing finding |
| Web.ScanVulnerabilities | modules/web_scanner.py:299-372 | a missing or error answer gives no finding; otherwise every finding of the signature table is reported, and anything else reported is one of the header, cookie, HTTPS or listing findings |
| Web.ScanWith | modules/web_scanner.py:305-368 | for any table: a missing or error answer gives no finding; otherwise the table's findings are all reported and every other finding carries one of the four later names |
| Web.ScanMembers | modules/web_scanner.py:305-368 | for a true answer, a finding is in the scan exactly when the table, the header check, the cookie check, the HTTPS check or the listing check gives it |
| Web.PatternFindingsReported | modules/web_scanner.py:315-324 | a finding not named like a later check is reported exactly when some signature of the table reports it |
| Web.SecurityHeaderStatus | modules/web_scanner.py:182-204 | each of the eight headers is marked present exactly when the response has it, and missing otherwise |
| Web.StatusAgreesWithMissing | modules/web_scanner.py:182-204 | a header is on the missing list exactly when it is one of the six and marked missing |
| Web.PlainHttpReported | modules/web_scanner.py:348-354 | a URL not starting with `https` always adds the no-HTTPS finding |
| Web.NoHttpsReportedWith | modules/web_scanner.py:348-354 | for any table not using the name, the no-HTTPS finding is there exactly when the URL does not start with `https`, and it carries the URL |
| Web.NoHttpsReported | modules/web_scanner.py:348-354 | the no-HTTPS finding is there exactly when the URL does not start with `https`, with high severity and the URL as evidence |
| Web.ListingReportedWith | modules/web_scanner.py:356-363 | for any table not using the name, the listing finding is there exactly when the body holds `Index of /` or `Directory Listing` |
| Web.ListingReported | modules/web_scanner.py:356-363 | the directory-listing finding is there exactly when the body holds `Index of /` or `Directory Listing`, with medium severity and the fixed evidence |
| Web.MissingHeadersReported | modules/web_scanner.py:328-335 | the scan names missing headers exactly when one is missing, and only with the joined list |
| Web.InsecureCookiesReported | modules/web_scanner.py:338-345 | the scan names insecure cookies exactly when a cookie lacks a flag, and only with the joined lines |
| Web.ListingReportedTwice | modules/web_scanner.py:315-363 | `Index of /` gives both the table's finding and the directory-listing finding |
| Web.ServiceName | modules/web_scanner.py:468-490 | a port has a non-empty service name, and `غير معروف` exactly when it is not in the table |
| Web.ListedPorts | modules/web_scanner.py:470-489 | the table lists exactly the 18 ports |
| Web.UnlistedPortUnknown | modules/web_scanner.py:490 | an unlisted port maps to `غير معروف` |
| Web.HttpsPort | modules/web_scanner.py:479 | port 443 is `HTTPS` |
| Web.CheckPort | modules/web_scanner.py:440-466 | a port is reported exactly when the connection result is 0, as `open` with its service |
| Web.OpenPorts | modules/web_scanner.py:421-429 | exactly the ports whose check succeeds, in the order of the port list |
| Web.TargetPorts | modules/web_scanner.py:30 | no ports given means `[80, 443]` |
| Web.ScanPorts | modules/web_scanner.py:406-438 | a port is reported exactly when it is a target port and connecting to the address gives 0, as open with its service, in target order; no address means no port |
| Web.PortReportedIff | modules/web_scanner.py:414-429 | whenever an address is found, a target port is reported exactly when connecting to that address gives 0 |
| Web.IpDomainIsAddress | modules/web_scanner.py:414-415 | an IPv4 domain is itself the address the ports are tried on |
| Web.AddressNotResolved | modules/web_scanner.py:414-415 | an IP domain is used as it is, without name resolution |
| Web.UnresolvedNoPorts | modules/web_scanner.py:416-438 | a name that does not resolve gives no port |
| Probe.CountFound | modules/wordpress_scanner.py:98-102 | the number of paths answering with a true, non-404 response is at most the number of paths |
| Probe.CountFoundAppend | modules/wordpress_scanner.py:98-103 | counting over two runs of paths adds up |
| Probe.PathScan | modules/wordpress_scanner.py:98-111 | the loop says yes exactly when at least three paths answer, stopping right after the third |
| Probe.ThreeFound | modules/joomla_scanner.py:119-132 | the short circuit fires exactly when at least three paths answer |
| Probe.StopsAtThird | modules/wordpress_scanner.py:98-111 | the loop requests paths up to and including the third that answers, and all of them when fewer answer |
| Probe.LaterPathsIgnored | modules/wordpress_scanner.py:109-111 | once three paths answer, later paths do not matter |
| Probe.ResolveVersion | modules/wordpress_scanner.py:186-194 | a version is found exactly when some source answers 200 and matches; it is the first such source's capture |
| Probe.FirstSourceWins | modules/joomla_scanner.py:223-230 | the first source that yields gives the version, whatever later ones say |
| Probe.OnlyOkRead | modules/joomla_scanner.py:227 | a source whose answer is not status 200 is skipped |
| Probe.ResolvedInClass | modules/wordpress_scanner.py:186-192 | when every source captures the same character class, the version found is a non-empty run of that class |
| Probe.Present | modules/wordpress_scanner.py:280-286 | the findings are exactly the results the checks gave, empty results dropped, never more than there are checks |
| Probe.PresentAppend | modules/joomla_scanner.py:321-327 | reading checks in order keeps their order |
| Probe.OutdatedCore | modules/wordpress_scanner.py:288-298 | no version gives no finding; a version that fails to parse is an error; one high-severity finding exactly when the version is outdated |
| Probe.Assemble | modules/joomla_scanner.py:318-359 | the checks' findings, then the core finding, then the rest; an error in the core step empties the scan |
| WordPress.VerifyWordPress | modules/wordpress_scanner.py:89-134 | WordPress exactly when three paths answer, or the home page is a true answer whose body holds one of the four indicators |
| WordPress.ThreePathsSuffice | modules/wordpress_scanner.py:109-111 | three answering paths settle it whatever the home page says |
| WordPress.FalsyHomeNotWordPress | modules/wordpress_scanner.py:114-131 | fewer than three paths and a false home page: not WordPress |
| WordPress.WordPressVersion | modules/wordpress_scanner.py:167-194 | a version exactly when the readme, root page or feed answers 200 and matches |
| WordPress.WordPressVersionDigits | modules/wordpress_scanner.py:172-192 | the version is a non-empty run of digits and dots |
| WordPress.ReadmeFirst | modules/wordpress_scanner.py:172-192 | a readme that yields decides the version |
| WordPress.FeedDotMatchesAnyChar | modules/wordpress_scanner.py:178 | the unescaped `.` of the feed pattern lets any character but a newline stand between `wordpress` and `org`, and the version after `?v=` is still captured |
| WordPress.FeedLast | modules/wordpress_scanner.py:172-194 | the feed is read only when the readme and root page yield nothing, and otherwise there is no version |
| WordPress.ThemeOf | modules/wordpress_scanner.py:196-235 | a theme exactly when the home page answers 200 and names one; the first name is taken; the version is present exactly when the name's search finds one, and is that search's version; unless the search raises, the author is what `style.css` gives; a raising search keeps only the name |
| WordPress.Styled | modules/wordpress_scanner.py:221-231 | when the theme's `style.css` answers 200 the author is what the author pattern finds in it, and otherwise there is no author |
| WordPress.PluginList | modules/wordpress_scanner.py:253-263 | one entry per name in order, with a version exactly when the name's search finds one; a raising search ends the list there |
| WordPress.PluginNames | modules/wordpress_scanner.py:243-251 | exactly the plugin names of a home page answering 200, each once |
| WordPress.PluginsListedOnce | modules/wordpress_scanner.py:247-263 | when no search raises, every distinct plugin is listed exactly once, with or without a version |
| WordPress.UserNames | modules/wordpress_scanner.py:341 | the name list is built unless an element makes the comprehension raise |
| WordPress.UsersFinding | modules/wordpress_scanner.py:339-347 | the users case reports exactly for a non-empty JSON list whose elements do not raise |
| WordPress.CheckVulnerability | modules/wordpress_scanner.py:320-374 | a missing or error answer gives nothing; a finding carries its entry's name and severity |
| WordPress.PatternIsSubstring | modules/wordpress_scanner.py:327-335 | an entry with a pattern reports exactly when the pattern is a plain substring of a true answer |
| WordPress.UsersNeedList | modules/wordpress_scanner.py:337-350 | the users endpoint reports only on a 200 answer with a non-empty JSON list |
| WordPress.XmlrpcOnAnyAnswer | modules/wordpress_scanner.py:351-357 | `xmlrpc.php` reports on every true answer |
| WordPress.ReadmePatternIsLiteral | modules/wordpress_scanner.py:327-329 | a readme reading `Version 6.4.2` does not set off the version-disclosure entry |
| WordPress.PluginFindings | modules/wordpress_scanner.py:300-309 | the findings are exactly those of the plugins with a version that counts as outdated, and there are no more findings than plugins |
| WordPress.PluginFindingInjective | modules/wordpress_scanner.py:302-308 | two plugins give the same finding exactly when they have the same name and version |
| WordPress.PluginFindingsNoDup | modules/wordpress_scanner.py:300-309 | a plugin list without repeats gives each finding once |
| WordPress.PluginFindingsAppend | modules/wordpress_scanner.py:300-309 | the findings of a joined plugin list are those of its parts in order, so each plugin's finding sits at its plugin's place |
| WordPress.PluginFindingsOne | modules/wordpress_scanner.py:301-308 | a single plugin gives its finding exactly when it has a version that counts as outdated |
| WordPress.StaticFindings | modules/wordpress_scanner.py:278-286 | exactly the table's findings |
| WordPress.ScanVulnerabilities | modules/wordpress_scanner.py:270-318 | an unparsable version empties the scan |
| WordPress.ScanOrder | modules/wordpress_scanner.py:276-309 | table findings first, then the outdated-core finding exactly when the version is below 6.4.2, then the plugin findings |
| WordPress.MalformedVersionEmpties | modules/wordpress_scanner.py:288-318 | a version with a segment `int()` rejects empties the whole scan |
| Joomla.VerifyJoomla | modules/joomla_scanner.py:110-171 | Joomla exactly when three paths answer, or a true home page shows an indicator, a `generator` header containing `joomla` in any case, or a generator tag saying so |
| Joomla.GeneratorHeaderSuffices | modules/joomla_scanner.py:154-157 | a generator header naming Joomla in any case is enough |
| Joomla.FalsyHomeNotJoomla | modules/joomla_scanner.py:135-167 | fewer than three paths and a false home page: not Joomla |
| Joomla.JoomlaVersion | modules/joomla_scanner.py:204-233 | a version exactly when one of the four sources answers 200 and matches |
| Joomla.JoomlaVersionDigits | modules/joomla_scanner.py:209-230 | the version is a non-empty run of digits and dots |
| Joomla.ManifestFirst | modules/joomla_scanner.py:209-230 | a manifest that yields decides the version |
| Joomla.TemplateOf | modules/joomla_scanner.py:235-273 | a template exactly when the home page answers 200 and names one; version and author come only from a details file answering 200 |
| Joomla.ComponentNames | modules/joomla_scanner.py:283-289 | exactly the `com_` names of a home page answering 200, each once |
| Joomla.ComponentsOf | modules/joomla_scanner.py:275-309 | one `com_NAME` entry per distinct name, with a version exactly when its XML answers 200 and holds `<version>` |
| Joomla.ComponentOf | modules/joomla_scanner.py:292-304 | one component is listed as `com_NAME`; it has a version exactly when its XML answers 200 and holds `<version>`, and the version is that capture |
| Joomla.Evidence | modules/joomla_scanner.py:368-371 | a plain pattern reports itself when it is in the body; a grouped one reports its capture |
| Joomla.EvidenceRuleMatchesTable | modules/joomla_scanner.py:51-108 | in the table, a pattern contains `(` exactly when it has a group, so the `'(' in pattern` test picks the group for exactly those |
| Joomla.CheckVulnerability | modules/joomla_scanner.py:361-399 | a missing or error answer gives nothing; a pattern entry reports exactly when its pattern is found, with the evidence rule |
| Joomla.InstallationOnAnyAnswer | modules/joomla_scanner.py:380-386 | `/installation/` reports on every true answer, with its status |
| Joomla.ConfigDistOnAnyAnswer | modules/joomla_scanner.py:387-393 | `/configuration.php-dist` reports on every true answer, with its status |
| Joomla.GroupedEvidence | modules/joomla_scanner.py:367-376 | a grouped pattern reports what its group captured, a non-empty run of its class |
| Joomla.ManifestEvidenceIsVersion | modules/joomla_scanner.py:52-58 | the manifest entry reports the version it read |
| Joomla.StaticFindings | modules/joomla_scanner.py:319-327 | exactly the table's findings |
| Joomla.AdminFindings | modules/joomla_scanner.py:341-351 | exactly when `/administrator/` answers 200, one finding named `صفحة تسجيل الدخول الافتراضية`, low severity, with the login URL as evidence |
| Joomla.ScanVulnerabilities | modules/joomla_scanner.py:311-359 | an unparsable version empties the scan |
| Joomla.ScanOrder | modules/joomla_scanner.py:317-351 | table findings first, then the outdated-core finding exactly when the version is below 4.3.3, then the login page |
| Joomla.MalformedVersionEmpties | modules/joomla_scanner.py:329-359 | a version with a segment `int()` rejects empties the whole scan, the login page too |

## Left out

- Network, sockets, name resolution and threads: answers, connection results and `gethostbyname` are parameters (`Site`, `connect`, `resolve`). Each thread pool reads its futures in submission order, so a sequential map is the same result.
- A site's answers are a function, so a path fetched twice in one scan gives the same answer both times.
- `urljoin`: `Site.fetch` takes the absolute path. The login page's URL in the Joomla scan is the parameter `adminUrl`.
- HTML parsing: the generator meta tag in `verify_joomla` is the parameter `meta`, and `get_site_info` is not modelled (page title, description, keywords, robots and sitemap probes).
- `get_wordpress_info` and `get_joomla_info` only gather the three lookups into a dictionary and are not modelled apart from those lookups.
- JSON decoding of the users and posts endpoints is the parameter `json`. Its results are list, not a list, or not JSON, and its elements are named, unnamed or raising.
- The searches built from a theme or plugin name (`wp-content/themes/NAME[^>]+ver=`) are the parameter `lookup`. A name with regex metacharacters can make that search raise, which is the `PatternError` case.
- Findings carry a name, severity and evidence; the prose `description` of each finding is left out.
- Logging, `setup_logger`, `get_user_agent`, `generate_random_string` and `format_timestamp` involve I/O, randomness or the clock.
- Unicode: `str.lower`, the digits `int()` accepts and `\d` are modelled on ASCII only, so non-ASCII digits such as the Arabic-Indic `٠`-`٩` and non-ASCII case mappings are not modelled. Whitespace follows `str.isspace` in full (`Text.IsSpace`), for `str.strip`, `str.split()` and `\s` alike.
- `Urls.ExtractDomain` and `Urls.ValidateUrl`: `urlparse` is reduced to scheme, network location and the bracket check for IPv6 hosts. NFKC normalisation of the network location and port validation are not modelled.
- Urls.UrlParse: raises only for a network location holding one of `[` and `]` without the other. Python 3.11.4 and later also check a bracketed host once both are present: text before `[` (`http://x[::1]/`), text other than a `:port` after `]` (`http://[::1]x/`), or a bracketed host that is not an IPv6 address or `vX.` future form (`http://[abc]/`) raises `ValueError` there. The model accepts these URLs, so `Urls.ValidateUrl` and `Urls.ExtractDomain` treat them as valid, because the scanner does not fix its Python version and IPv6 address parsing is outside the model.
- Python's `set` iteration order is unspecified. `Collections.Distinct` keeps first occurrences, and the contracts promise only the set of elements and no repeats, so the order of plugins and components is not part of any promise.
- WordPress.CheckVulnerability: states the falsy case and the name and severity as its own contract; the per-case behaviour is in the lemmas PatternIsSubstring, UsersNeedList and XmlrpcOnAnyAnswer, and the posts case (a 200 answer with a non-empty JSON list, evidence with the post count) has no lemma of its own.
- Web.DetectTechnologies: its own contract covers only the false-answer case; what it lists is stated by FiredListed, ListedEntries, HeaderPassEntries and DetectTechnologiesNoDup.
- Utils.ParsePortRange: its own contract covers only empty input; the port bounds, the absence of repeats and the default pair are stated by SelectPorts, and the contributions of the parts by the lemmas on PortPart.

## Findings

| source | as written | input that shows it | evidently intended | confidence | as-written member | corrected member |
|---|---|---|---|---|---|---|
| modules/utils.py:58-68 | the phone pattern ends in `$`, which also matches just before a final newline; `strip()` runs before `)` is removed, so a newline hidden behind `)` survives | `1234567890\n)` is accepted | only `+` followed by 10 to 15 digits is accepted | not executed | Inputs.PhoneNewlineAccepted | Inputs.StrictRejectsNewline |
