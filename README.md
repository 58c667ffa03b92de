# url-status, modelled in Dafny

`SMB\UrlStatus` (shimabox/url-status) asks the network for the response headers of a
URL and reports on them:

- whether some response line was an HTTP status line (`isValidUrl`);
- the code of the last such line (`code`);
- the URLs of the `Location:` lines, in order (`redirectedUrls`);
- the status codes paired with those redirects (`redirectedCode`);
- the URL finally reached (`reachedUrl`).

The `is` + three digits method names (`is200()`, `is404()`, ...) compare `code` with a number.

The model has four modules:

- `Wrappers` (`wrappers.dfy`): `Option` and `Result`. `None` is the `false` that
  `get_headers` returns on failure, and `Failure` is an exception thrown to the caller.
- `HeaderPatterns` (`header_patterns.dfy`): the three regular expressions of the class,
  written out as functions, with their PCRE semantics:
  - `\ALocation:\s(http.+)\z` becomes `LocationTarget`;
  - `\AHTTP.+\s(\d\d\d)\s` becomes `StatusCode`. It takes the rightmost window, as greedy `.+` does;
  - `\Ais(\d{3})\z` becomes `QueryCode`.
- `HeaderFold` (`header_fold.dfy`): what `get` computes from a list of header lines, as
  functions over the whole list (`LocationTargets`, `StatusCodes`, `ReportOf`). This is
  the reference definition against which the loop is proved. The module also holds the
  properties of the finished report and worked header sequences.
- `SMB` (`url_status.dfy`): the class `UrlStatus` with its six fields.
  - `Get` is the static factory `get`. It runs the `foreach` loop (`ScanHeaders`) with its invariants.
  - The six accessors are functions that read the fields.
  - `Call` is the `__call` query: its `Success(b)` is the boolean returned and its
    `Failure(LogicException(...))` the exception thrown.
  - A ghost field `transport` records what the transport answered. The class invariant
    `Valid()` states that the fields are `ReportOf(targetUrl, transport)`.

The transport is a parameter: `get_headers($url)` becomes `transport: Option<seq<string>>`.

## Model

| member | source | states |
|---|---|---|
| HeaderPatterns.ThreeDigitValue | src/UrlStatus.php:103 | `(int)` of three ASCII digits lies in 0..999, leading zeros vanishing |
| HeaderPatterns.LocationTarget | src/UrlStatus.php:97-98 | a match captures a URL that starts with `http`, has a character after it and no LF, and the line is exactly `Location:` + one whitespace character + that URL |
| HeaderPatterns.LocationRoundTrip | src/UrlStatus.php:97-98 | `Location:` + any whitespace character + any acceptable URL is matched and gives that URL back |
| HeaderPatterns.LowerCaseLocationIgnored | src/UrlStatus.php:97 | the pattern is case-sensitive: a `location:` line never matches |
| HeaderPatterns.FirstNewline | src/UrlStatus.php:102 | the end of the stretch `.+` may cover: the first LF at or after a position |
| HeaderPatterns.LastWindow | src/UrlStatus.php:102 | the greatest position up to a bound where `\s\d\d\d\s` starts, or none |
| HeaderPatterns.StatusPos | src/UrlStatus.php:102 | the position PCRE reports is a match of the status pattern and no match lies to its right; none when the line has no match |
| HeaderPatterns.StatusCode | src/UrlStatus.php:102-103 | a code is captured exactly when the status pattern matches somewhere, and it lies in 0..999 |
| HeaderPatterns.LocationLineIsNoStatusLine | src/UrlStatus.php:97-103 | a line that matches the Location pattern never matches the status pattern |
| HeaderPatterns.StatusLineRoundTrip | src/UrlStatus.php:102-103 | `HTTP` + version + SP + three digits + SP + a reason without digits yields exactly those digits' value |
| HeaderPatterns.StatusCodeAt | src/UrlStatus.php:102-103 | a match with no window to its right is the one captured, whatever lies to its left |
| HeaderPatterns.RightmostCodeWins | src/UrlStatus.php:102-103 | with two codes on one line, greedy `.+` captures the later one |
| HeaderPatterns.BareStatusLineIgnored | src/UrlStatus.php:102 | `HTTP/1.1 200` with nothing after the code is not a status line |
| HeaderPatterns.QueryName | src/UrlStatus.php:186 | the method name `is` + the code as three digits has five characters |
| HeaderPatterns.QueryCode | src/UrlStatus.php:186-187 | a name yields a code in 0..999 only when it is `is` + three digits |
| HeaderPatterns.DigitsOfCode | src/UrlStatus.php:187 | reading back the three digits of a code gives the code |
| HeaderPatterns.QueryNameRoundTrip | src/UrlStatus.php:186-187 | every code 0..999 has a name, and that name asks about that code |
| HeaderPatterns.QueryCodeOnlyFromQueryName | src/UrlStatus.php:186 | an accepted name is the three-digit name of the code it yields |
| HeaderPatterns.LeadingZerosCollapse | src/UrlStatus.php:186-188 | `is000` asks about 0 and `is007` about 7 |
| HeaderPatterns.MalformedQueryNames | src/UrlStatus.php:186-191 | `isHoge`, `is20`, `is2000` and `Is200` are refused |
| HeaderFold.LineUrl | src/UrlStatus.php:97-99 | the Location branch of the loop body: a line adds at most one URL, an `http` capture, and the line is `Location:` + one character + that URL |
| HeaderFold.IsStatusLine | src/UrlStatus.php:97-103 | a line that gets past the `continue` and matches the status pattern starts with `HTTP` and adds no URL |
| HeaderFold.LineCode | src/UrlStatus.php:102-104 | the status branch of the loop body: a line adds at most one code, in 0..999, and never both a code and a URL |
| HeaderFold.LocationTargets | src/UrlStatus.php:95-100 | the captured URLs are at most one per line, and each one is an acceptable `http` capture |
| HeaderFold.StatusCodes | src/UrlStatus.php:102-105 | the recorded codes are at most one per line, and each one lies in 0..999 |
| HeaderFold.TerminalCode | src/UrlStatus.php:46 | `code` stays 0 when nothing was recorded, and is otherwise one of the recorded codes |
| HeaderFold.IntersectKey | src/UrlStatus.php:117-118 | `array_intersect_key` of two lists has length the smaller of the two lengths and agrees with `a` at every index |
| HeaderFold.ReportOf | src/UrlStatus.php:77-121 | the report `get` builds: its `targetUrl` is the input URL, `redirectedCode` is never longer than `redirectedUrls`, and a non-empty `redirectedCode` comes with `isValidUrl` |
| HeaderFold.LocationTargetsAppend | src/UrlStatus.php:95-100 | the URLs of two header lists joined are the URLs of the first followed by those of the second |
| HeaderFold.StatusCodesAppend | src/UrlStatus.php:102-105 | the same for the recorded status codes |
| HeaderFold.SingleLine | src/UrlStatus.php:95-108 | a one-line list contributes exactly what the loop body does with that line |
| HeaderFold.EachLineFeedsOneList | src/UrlStatus.php:95-100 | because of the `continue`, no line feeds both lists: together they are no longer than the header list |
| HeaderFold.ContinueIsRedundant | src/UrlStatus.php:97-103 | a line reaches the status branch and matches it exactly when it matches the status pattern, so the `continue` changes no result |
| HeaderFold.NoCodeIffNoStatusLine | src/UrlStatus.php:102-107 | no code is recorded exactly when no line is a status line |
| HeaderFold.LastStatusLineWins | src/UrlStatus.php:102-106 | the final `code` is the code of the last status line |
| HeaderFold.FailureGivesDefaults | src/UrlStatus.php:86-89 | a failed transport leaves every field at its initial value except `targetUrl`, which is the input URL |
| HeaderFold.ReportInvariants | src/UrlStatus.php:77-121 | in every report: `targetUrl` is the input URL; `code` is in 0..999; an invalid report has code 0 and no redirect codes; `redirectedCode` is no longer than `redirectedUrls`; every redirect URL is an `http` capture |
| HeaderFold.ReportOnHeaders | src/UrlStatus.php:95-118 | when headers were obtained: `isValidUrl` iff some line is a status line; `redirectedUrls` are the Location captures; `code` is that of the last status line; `reachedUrl` is the last capture or the input URL; `redirectedCode` is exactly the first min(#codes, #URLs) recorded codes: a prefix of them, as long as `redirectedUrls` when there are enough codes, all of them otherwise |
| HeaderFold.StatusLineForCode | src/UrlStatus.php:102-105 | the line `HTTP/1.1 ddd Status` for code c gives no URL and exactly code c |
| HeaderFold.HttpLineIsNoLocationLine | src/UrlStatus.php:97-102 | a line that starts with `HTTP` is never a Location line |
| HeaderFold.HopsLists | src/UrlStatus.php:95-105 | for a chain of hops (a status line, then a Location line), the captured URLs and the recorded codes are exactly the hops' URLs and codes |
| HeaderFold.HopLines | src/UrlStatus.php:95-105 | one hop contributes its URL and its code |
| HeaderFold.TwoLines | src/UrlStatus.php:95-108 | a two-line list contributes what the loop body does with each line, in order |
| HeaderFold.RedirectChainReport | src/UrlStatus.php:95-118 | a well-formed chain of hops plus a final status line pairs each redirect URL with its hop's code: the two lists have the same length, `code` is the final one and `reachedUrl` the last hop's URL |
| HeaderFold.PlainHeaders | src/UrlStatus.php:95-108 | lines that start with neither `HTTP` nor `Location:` contribute to neither list |
| HeaderFold.Http11Line | src/UrlStatus.php:102-104 | `HTTP/1.1 ddd reason` with a digit-free reason is a status line with code ddd and gives no URL |
| HeaderFold.LocationLine | src/UrlStatus.php:97-99 | `Location: ` + an acceptable URL gives that URL and no code |
| HeaderFold.SingleOkResponse | tests/UrlStatusTest.php:18-31 | a 200 status line followed by plain headers gives a valid report: code 200, no redirects, and `reachedUrl` the input URL |
| HeaderFold.OneRedirect | tests/UrlStatusTest.php:49-61 | a 301 line, a Location line to a target, then a 200 line give `redirectedUrls == [target]`, `redirectedCode == [301]`, `reachedUrl == target` and code 200 |
| HeaderFold.ThreeLines | src/UrlStatus.php:95-108 | a three-line list contributes what the loop body does with each line, in order |
| HeaderFold.LocationWithoutStatusLine | src/UrlStatus.php:110-118 | a lone Location line gives an invalid report whose `reachedUrl` is nevertheless that URL, with one redirect URL and no redirect code |
| HeaderFold.NoHeaderLines | src/UrlStatus.php:110-115 | an empty header list gives an invalid report whose `reachedUrl` is the input URL, not "" |
| SMB.UrlStatus.constructor | src/UrlStatus.php:16-46 | `new static()` starts with every field at its declared initial value |
| SMB.UrlStatus.Get | src/UrlStatus.php:77-121 | `get` returns a new object whose fields are the report of the input URL for the transport's answer, and which keeps the class invariant |
| SMB.UrlStatus.Conclude | src/UrlStatus.php:110-118 | the end of `get` stores the loop's results, the last redirect URL or else the input URL as `reachedUrl`, and the codes that have a redirect URL at the same index as `redirectedCode` |
| SMB.UrlStatus.TargetUrl | src/UrlStatus.php:127-130 | when headers came back without a redirect, the target URL is also the reached URL |
| SMB.UrlStatus.ReachedUrl | src/UrlStatus.php:136-139 | "" after a failed transport; otherwise the last captured URL, or the target URL when there is none |
| SMB.UrlStatus.IsValidUrl | src/UrlStatus.php:145-148 | true exactly when headers came back and at least one line is a status line |
| SMB.UrlStatus.RedirectedUrls | src/UrlStatus.php:154-157 | empty after a failed transport; otherwise the Location captures in header order; each one an `http` capture |
| SMB.UrlStatus.RedirectedCode | src/UrlStatus.php:163-166 | empty after a failed transport; otherwise exactly the first min(#codes, #URLs) recorded codes: no longer than `redirectedUrls`, as long as it when there are enough codes |
| SMB.UrlStatus.Code | src/UrlStatus.php:172-175 | in 0..999; 0 when the report is invalid; the code of the last status line |
| SMB.UrlStatus.Call | src/UrlStatus.php:184-192 | fails with `LogicException("Only isXXX functions are allowed")` exactly when the name is no code's `is` + three-digit name; for the name of code c it answers `code == c` |
| SMB.ScanHeaders | src/UrlStatus.php:95-108 | the loop collects exactly the Location captures and the recorded status codes, leaves `code` at the last recorded code (0 if none), and sets `isValidUrl` exactly when a code was recorded |
| SMB.ReportFromScan | src/UrlStatus.php:110-118 | what the loop collected, completed by the end of `get`, is the report of the headers |
| SMB.NextLine | src/UrlStatus.php:95-108 | one more iteration adds that line's contribution to each list |
| SMB.HeadersObtained | src/UrlStatus.php:86-107 | for either transport answer: `isValidUrl` iff headers came back with a status line, and `code` is that of the last status line |
| SMB.QueryNamesDistinct | src/UrlStatus.php:186-188 | a method name spells at most one code |
| SMB.QueryNamesAccepted | src/UrlStatus.php:186-191 | a refused name is no code's name |

`SMB.RedirectScenario` and `SMB.FailureScenario` drive the test scenarios of
tests/UrlStatusTest.php (lines 49-61 and 67-79) through `Get`, the accessors and `Call`,
and check the results the tests expect.

## Where the code falls short of its own comments

The model follows the code, src/UrlStatus.php. The comments at lines 91-92 and 117 say
that `redirectedCode` is meant to pair up with `redirectedUrls`. The code does not
guarantee that the two have the same length: `array_intersect_key` (line 118) keeps only
the first min(#status lines, #Location captures) recorded codes. A Location line with no
status line gives one URL and no code (`HeaderFold.LocationWithoutStatusLine`).

Two further facts of the code are easy to miss:

- `reachedUrl` is `""` only when the transport fails (lines 87-89). When headers came back
  without any status line, the report is invalid, and yet `reachedUrl` is the last capture
  (`LocationWithoutStatusLine`) or the input URL (`HeaderFold.NoHeaderLines`).
- An invalid report can still have redirect URLs (`LocationWithoutStatusLine`).

The status pattern takes the rightmost ` ddd ` on the line (`RightmostCodeWins`). So a
reason phrase that contains a three-digit number between whitespace supplies the code
instead of the status code that comes before it.

## Left out

- `get_headers($url)` (src/UrlStatus.php:86) is network I/O and the redirect following it
  does. It is the parameter `transport`, and the `@` that silences its warnings has no counterpart.
- `stream_context_set_default` (src/UrlStatus.php:82-84) changes process-wide stream
  settings and does not affect the fold over the headers, so its options parameter is not modelled.
- PHP's `__call` dispatch is not modelled. `Call` receives the method name, and the
  ignored `$args` are not modelled.
- The constructor being private (src/UrlStatus.php:197) only restricts who may create
  objects. The Dafny constructor is public.
- A general regular-expression engine is out of scope. The three patterns are written out
  for the PCRE defaults of the class: no flags, the C-locale `\s` (space, tab, LF, VT, FF,
  CR), `.` excluding only LF. Each `char` stands for one byte of a PHP string. There is no
  Unicode or case folding.
- SMB.UrlStatus.Get: the loop (`ScanHeaders`) collects into locals, and `Conclude` stores
  them in the fields after the loop. The source appends to `$self->redirectedUrls` and
  overwrites `$self->code` and `$self->isValidUrl` inside the loop. Nothing can observe the
  object before `get` returns, so the final state is the same.
- SMB.UrlStatus.Call: PHP `===` between two ints is modelled as `==`. The result for a
  non-`int` `code` cannot arise, because `code` is always an int.
