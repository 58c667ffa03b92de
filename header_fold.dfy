/**
 * What `UrlStatus::get` computes from the header lines the transport returned, written as
 * functions over the whole list: the reference definition against which the loop of
 * `SMB.UrlStatus.Get` is proved, and the home of the properties of the finished report.
 */
module HeaderFold {
  import opened Wrappers
  import opened HeaderPatterns

  /** What one line adds to `redirectedUrls`: the Location branch of the loop body. */
  function LineUrl(line: string): (r: seq<string>)
    ensures |r| <= 1
    ensures r != [] ==> IsHttpCapture(r[0]) && |line| > 10 && line == LocationKey + [line[9]] + r[0]
  {
    match LocationTarget(line)
    case Some(u) => [u]
    case None => []
  }

  /** A line that reaches the status branch (it is not a Location line) and matches it. */
  function IsStatusLine(line: string): (b: bool)
    ensures b ==> StartsWith(line, "HTTP") && LineUrl(line) == []
  {
    LocationTarget(line).None? && StatusCode(line).Some?
  }

  /** What one line adds to the local list of recorded status codes. */
  function LineCode(line: string): (r: seq<int>)
    ensures |r| <= 1
    ensures forall c :: c in r ==> 0 <= c < 1000
    ensures r != [] ==> LineUrl(line) == []
  {
    if IsStatusLine(line) then [StatusCode(line).value] else []
  }

  /** The URLs captured from the Location lines of `headers`, in header order. */
  function LocationTargets(headers: seq<string>): (urls: seq<string>)
    ensures |urls| <= |headers|
    ensures forall u :: u in urls ==> IsHttpCapture(u)
  {
    if headers == [] then []
    else LocationTargets(headers[..|headers| - 1]) + LineUrl(headers[|headers| - 1])
  }

  /** The codes of the status lines of `headers`, in header order. */
  function StatusCodes(headers: seq<string>): (codes: seq<int>)
    ensures |codes| <= |headers|
    ensures forall c :: c in codes ==> 0 <= c < 1000
  {
    if headers == [] then []
    else StatusCodes(headers[..|headers| - 1]) + LineCode(headers[|headers| - 1])
  }

  /** The value `code` is left with: the last recorded code, or its initial 0. */
  function TerminalCode(codes: seq<int>): (c: int)
    ensures codes == [] ==> c == 0
    ensures codes != [] ==> c in codes
  {
    if codes == [] then 0 else codes[|codes| - 1]
  }

  /**
   * PHP's `array_intersect_key($a, $b)` on two lists (keys 0, 1, ...): the entries of `a`
   * whose key is also a key of `b`, with their keys, in the order of `a`.
   */
  function IntersectKey<A, B>(a: seq<A>, b: seq<B>): (r: seq<A>)
    ensures |r| == if |a| <= |b| then |a| else |b|
    ensures forall k :: 0 <= k < |r| ==> r[k] == a[k]
  {
    if |a| <= |b| then a else a[..|b|]
  }

  /** The six fields of a finished `UrlStatus`, as a value. */
  datatype StatusReport = StatusReport(
    targetUrl: string,
    reachedUrl: string,
    isValidUrl: bool,
    redirectedUrls: seq<string>,
    redirectedCode: seq<int>,
    code: int)

  /** The report `get` builds for `url` when the transport answered `transport` (None: `false`). */
  function ReportOf(url: string, transport: Option<seq<string>>): (r: StatusReport)
    ensures r.targetUrl == url
    ensures |r.redirectedCode| <= |r.redirectedUrls|
    ensures r.redirectedCode != [] ==> r.isValidUrl
  {
    match transport
    case None => StatusReport(url, "", false, [], [], 0)
    case Some(headers) =>
      var urls := LocationTargets(headers);
      var codes := StatusCodes(headers);
      StatusReport(
        url,
        if |urls| > 0 then urls[|urls| - 1] else url,
        codes != [],
        urls,
        IntersectKey(codes, urls),
        TerminalCode(codes))
  }

  // ---------------------------------------------------------------------------
  // The two lists, line by line
  // ---------------------------------------------------------------------------

  /** Collecting Location URLs distributes over concatenation of header lists. */
  lemma {:induction false} LocationTargetsAppend(a: seq<string>, b: seq<string>)
    ensures LocationTargets(a + b) == LocationTargets(a) + LocationTargets(b)
    decreases |b|
  {
    if b == [] {
      assert a + b == a;
    } else {
      var b' := b[..|b| - 1];
      assert (a + b)[..|a + b| - 1] == a + b';
      assert (a + b)[|a + b| - 1] == b[|b| - 1];
      LocationTargetsAppend(a, b');
    }
  }

  /** Collecting status codes distributes over concatenation of header lists. */
  lemma {:induction false} StatusCodesAppend(a: seq<string>, b: seq<string>)
    ensures StatusCodes(a + b) == StatusCodes(a) + StatusCodes(b)
    decreases |b|
  {
    if b == [] {
      assert a + b == a;
    } else {
      var b' := b[..|b| - 1];
      assert (a + b)[..|a + b| - 1] == a + b';
      assert (a + b)[|a + b| - 1] == b[|b| - 1];
      StatusCodesAppend(a, b');
    }
  }

  /** A one-line list contributes what the loop body does with that line. */
  lemma SingleLine(line: string)
    ensures LocationTargets([line]) == LineUrl(line)
    ensures StatusCodes([line]) == LineCode(line)
  {
    assert [line][..0] == [];
  }

  /**
   * Thanks to the `continue`, no line feeds both lists: together they are no longer
   * than the header list.
   */
  lemma {:induction false} EachLineFeedsOneList(headers: seq<string>)
    ensures |LocationTargets(headers)| + |StatusCodes(headers)| <= |headers|
  {
    if headers != [] {
      EachLineFeedsOneList(headers[..|headers| - 1]);
    }
  }

  /** The `continue` changes nothing: a line passed to the status branch is never a Location line anyway. */
  lemma ContinueIsRedundant(line: string)
    ensures IsStatusLine(line) <==> StatusCode(line).Some?
  {
    if LocationTarget(line).Some? {
      LocationLineIsNoStatusLine(line);
    }
  }

  /** No code is recorded exactly when no line is a status line. */
  lemma {:induction false} NoCodeIffNoStatusLine(headers: seq<string>)
    ensures StatusCodes(headers) == [] <==> forall i :: 0 <= i < |headers| ==> !IsStatusLine(headers[i])
  {
    if headers != [] {
      var init := headers[..|headers| - 1];
      NoCodeIffNoStatusLine(init);
      assert forall i :: 0 <= i < |init| ==> init[i] == headers[i];
    }
  }

  /** The last code recorded is that of the last status line. */
  lemma {:induction false} LastStatusLineWins(headers: seq<string>, j: int)
    requires 0 <= j < |headers| && IsStatusLine(headers[j])
    requires forall k :: j < k < |headers| ==> !IsStatusLine(headers[k])
    ensures StatusCodes(headers) != []
    ensures TerminalCode(StatusCodes(headers)) == StatusCode(headers[j]).value
  {
    if j < |headers| - 1 {
      var init := headers[..|headers| - 1];
      assert init[j] == headers[j];
      assert forall k :: j < k < |init| ==> init[k] == headers[k];
      LastStatusLineWins(init, j);
    }
  }

  // ---------------------------------------------------------------------------
  // The finished report
  // ---------------------------------------------------------------------------

  /** When the transport fails, every field keeps its initial value except `targetUrl`. */
  lemma FailureGivesDefaults(url: string)
    ensures ReportOf(url, None) == StatusReport(url, "", false, [], [], 0)
  {
  }

  /** What holds of every report, whatever the transport answered. */
  lemma ReportInvariants(url: string, transport: Option<seq<string>>)
    ensures ReportOf(url, transport).targetUrl == url
    ensures 0 <= ReportOf(url, transport).code < 1000
    ensures !ReportOf(url, transport).isValidUrl ==> ReportOf(url, transport).code == 0 && ReportOf(url, transport).redirectedCode == []
    ensures |ReportOf(url, transport).redirectedCode| <= |ReportOf(url, transport).redirectedUrls|
    ensures forall u :: u in ReportOf(url, transport).redirectedUrls ==> IsHttpCapture(u)
  {
  }

  /**
   * When headers were obtained: `isValidUrl` says whether some line is a status line,
   * `code` is that of the last status line (0 if none), `reachedUrl` is the last captured
   * URL or else the input URL, and `redirectedCode` is the first min(#codes, #urls) codes.
   */
  lemma {:induction false} ReportOnHeaders(url: string, headers: seq<string>)
    ensures ReportOf(url, Some(headers)).isValidUrl <==> exists i :: 0 <= i < |headers| && IsStatusLine(headers[i])
    ensures ReportOf(url, Some(headers)).redirectedUrls == LocationTargets(headers)
    ensures forall j :: (0 <= j < |headers| && IsStatusLine(headers[j])
                         && (forall k :: j < k < |headers| ==> !IsStatusLine(headers[k])))
                        ==> ReportOf(url, Some(headers)).code == StatusCode(headers[j]).value
    ensures ReportOf(url, Some(headers)).reachedUrl
      == if LocationTargets(headers) == [] then url else LocationTargets(headers)[|LocationTargets(headers)| - 1]
    ensures ReportOf(url, Some(headers)).redirectedCode <= StatusCodes(headers)
    ensures |StatusCodes(headers)| >= |LocationTargets(headers)|
      ==> |ReportOf(url, Some(headers)).redirectedCode| == |LocationTargets(headers)|
    ensures ReportOf(url, Some(headers)).redirectedCode
      == StatusCodes(headers)[..if |StatusCodes(headers)| <= |LocationTargets(headers)| then |StatusCodes(headers)| else |LocationTargets(headers)|]
  {
    NoCodeIffNoStatusLine(headers);
    forall j | 0 <= j < |headers| && IsStatusLine(headers[j])
      && (forall k :: j < k < |headers| ==> !IsStatusLine(headers[k]))
      ensures ReportOf(url, Some(headers)).code == StatusCode(headers[j]).value
    {
      LastStatusLineWins(headers, j);
    }
  }

  // ---------------------------------------------------------------------------
  // Well-formed redirect chains
  // ---------------------------------------------------------------------------

  /** A status line `HTTP/1.1 ddd Status` for code c. */
  function StatusLineFor(c: int): string
    requires 0 <= c < 1000
  {
    "HTTP/1.1 " + [DigitChar(c / 100), DigitChar(c / 10 % 10), DigitChar(c % 10)] + " " + "Status"
  }

  lemma StatusLineForCode(c: int)
    requires 0 <= c < 1000
    ensures LineUrl(StatusLineFor(c)) == [] && LineCode(StatusLineFor(c)) == [c]
  {
    Http11Line(DigitChar(c / 100), DigitChar(c / 10 % 10), DigitChar(c % 10), "Status");
    DigitsOfCode(c);
  }

  /** A line that starts with `HTTP` is not a Location line. */
  lemma HttpLineIsNoLocationLine(line: string)
    requires StartsWith(line, "HTTP")
    ensures LocationTarget(line).None?
  {
    assert line[0] == 'H' by { assert line[..4][0] == 'H'; }
    if |line| >= 9 {
      assert line[..9][0] == 'H';
    }
  }

  /**
   * The header lines of a chain of redirects: for each hop a status line with its code
   * followed by a `Location:` line with its target.
   */
  function Hops(codes: seq<int>, urls: seq<string>): seq<string>
    requires |codes| == |urls|
    requires forall i :: 0 <= i < |codes| ==> 0 <= codes[i] < 1000
  {
    if codes == [] then []
    else
      (Hops(codes[..|codes| - 1], urls[..|urls| - 1])
       + [StatusLineFor(codes[|codes| - 1]), LocationKey + " " + urls[|urls| - 1]])
  }

  lemma {:induction false} HopsLists(codes: seq<int>, urls: seq<string>)
    requires |codes| == |urls|
    requires forall i :: 0 <= i < |codes| ==> 0 <= codes[i] < 1000
    requires forall u :: u in urls ==> IsHttpCapture(u)
    ensures LocationTargets(Hops(codes, urls)) == urls
    ensures StatusCodes(Hops(codes, urls)) == codes
  {
    if codes != [] {
      var n := |codes|;
      var c, u := codes[n - 1], urls[n - 1];
      assert u in urls;
      var s, l := StatusLineFor(c), LocationKey + " " + u;
      var init := Hops(codes[..n - 1], urls[..n - 1]);
      assert Hops(codes, urls) == init + [s, l];
      HopsLists(codes[..n - 1], urls[..n - 1]);
      LocationTargetsAppend(init, [s, l]);
      StatusCodesAppend(init, [s, l]);
      HopLines(c, u);
      LastSplit(codes);
      LastSplit(urls);
    }
  }

  lemma LastSplit<T>(s: seq<T>)
    requires s != []
    ensures s == s[..|s| - 1] + [s[|s| - 1]]
  {
  }

  /** One hop's two lines contribute its code and its URL. */
  lemma HopLines(c: int, u: string)
    requires 0 <= c < 1000 && IsHttpCapture(u)
    ensures LocationTargets([StatusLineFor(c), LocationKey + " " + u]) == [u]
    ensures StatusCodes([StatusLineFor(c), LocationKey + " " + u]) == [c]
  {
    var s, l := StatusLineFor(c), LocationKey + " " + u;
    TwoLines(s, l);
    StatusLineForCode(c);
    LocationLine(u);
  }

  /** A two-line list contributes what the loop body does with each line, in order. */
  lemma TwoLines(a: string, b: string)
    ensures LocationTargets([a, b]) == LineUrl(a) + LineUrl(b)
    ensures StatusCodes([a, b]) == LineCode(a) + LineCode(b)
  {
    assert [a, b] == [a] + [b];
    LocationTargetsAppend([a], [b]);
    StatusCodesAppend([a], [b]);
    SingleLine(a);
    SingleLine(b);
  }

  /**
   * For a well-formed chain (every hop a status line plus a Location line, then a final
   * status line) the report pairs each redirect URL with the code of its own hop, the two
   * lists have the same length, and `code` is the final one.
   */
  lemma RedirectChainReport(url: string, codes: seq<int>, urls: seq<string>, final: int)
    requires |codes| == |urls|
    requires forall i :: 0 <= i < |codes| ==> 0 <= codes[i] < 1000
    requires forall u :: u in urls ==> IsHttpCapture(u)
    requires 0 <= final < 1000
    ensures ReportOf(url, Some(Hops(codes, urls) + [StatusLineFor(final)]))
      == StatusReport(url, if urls == [] then url else urls[|urls| - 1], true, urls, codes, final)
  {
    var hops := Hops(codes, urls);
    var last := StatusLineFor(final);
    HopsLists(codes, urls);
    LocationTargetsAppend(hops, [last]);
    StatusCodesAppend(hops, [last]);
    SingleLine(last);
    StatusLineForCode(final);
    assert StatusCodes(hops + [last]) == codes + [final];
    assert LocationTargets(hops + [last]) == urls;
    assert (codes + [final])[..|urls|] == codes;
  }

  // ---------------------------------------------------------------------------
  // Worked sequences
  // ---------------------------------------------------------------------------

  /** A header line that is neither a status line nor a Location line (`Content-Type: ...`). */
  predicate IsPlainHeader(line: string) {
    !StartsWith(line, "HTTP") && !(|line| >= 9 && line[..9] == LocationKey)
  }

  /** Plain header lines contribute to neither list. */
  lemma {:induction false} PlainHeaders(others: seq<string>)
    requires forall i :: 0 <= i < |others| ==> IsPlainHeader(others[i])
    ensures LocationTargets(others) == [] && StatusCodes(others) == []
  {
    if others != [] {
      var n := |others|;
      PlainHeaders(others[..n - 1]);
      assert IsPlainHeader(others[n - 1]);
    }
  }

  /** A status line `HTTP/1.1 ddd reason` with a digit-free reason is a status line with code ddd. */
  lemma Http11Line(a: char, b: char, c: char, reason: string)
    requires IsDigit(a) && IsDigit(b) && IsDigit(c)
    requires forall k :: 0 <= k < |reason| ==> !IsDigit(reason[k])
    ensures LineUrl("HTTP/1.1 " + [a, b, c] + " " + reason) == []
    ensures LineCode("HTTP/1.1 " + [a, b, c] + " " + reason) == [ThreeDigitValue(a, b, c)]
  {
    var line := "HTTP/1.1 " + [a, b, c] + " " + reason;
    StatusLineRoundTrip("/1.1", a, b, c, reason);
    assert "HTTP" + "/1.1" + [' ', a, b, c, ' '] + reason == line;
    assert line[..4] == "HTTP";
    HttpLineIsNoLocationLine(line);
  }

  /** A `Location: ` line with an acceptable URL contributes that URL and no code. */
  lemma LocationLine(u: string)
    requires IsHttpCapture(u)
    ensures LineUrl(LocationKey + " " + u) == [u]
    ensures LineCode(LocationKey + " " + u) == []
  {
    LocationRoundTrip(' ', u);
    assert LocationKey + [' '] + u == LocationKey + " " + u;
  }

  /**
   * A single `HTTP/1.1 200` response followed by plain headers: valid, code 200, no
   * redirects, and the reached URL is the target.
   */
  lemma SingleOkResponse(url: string, reason: string, others: seq<string>)
    requires forall k :: 0 <= k < |reason| ==> !IsDigit(reason[k])
    requires forall i :: 0 <= i < |others| ==> IsPlainHeader(others[i])
    ensures ReportOf(url, Some(["HTTP/1.1 200 " + reason] + others))
      == StatusReport(url, url, true, [], [], 200)
  {
    var ok := "HTTP/1.1 200 " + reason;
    Http11Line('2', '0', '0', reason);
    assert "HTTP/1.1 " + ['2', '0', '0'] + " " + reason == ok;
    SingleLine(ok);
    PlainHeaders(others);
    LocationTargetsAppend([ok], others);
    StatusCodesAppend([ok], others);
  }

  /**
   * One 301 hop with a `Location:` to `target`, then a 200: the redirect lists are [target]
   * and [301], the reached URL is `target`, and `code` is 200.
   */
  lemma OneRedirect(url: string, target: string, movedReason: string, okReason: string)
    requires IsHttpCapture(target)
    requires forall k :: 0 <= k < |movedReason| ==> !IsDigit(movedReason[k])
    requires forall k :: 0 <= k < |okReason| ==> !IsDigit(okReason[k])
    ensures ReportOf(url, Some(["HTTP/1.1 301 " + movedReason, "Location: " + target, "HTTP/1.1 200 " + okReason]))
      == StatusReport(url, target, true, [target], [301], 200)
  {
    var moved, loc, ok := "HTTP/1.1 301 " + movedReason, LocationKey + " " + target, "HTTP/1.1 200 " + okReason;
    Http11Line('3', '0', '1', movedReason);
    assert "HTTP/1.1 " + ['3', '0', '1'] + " " + movedReason == moved;
    Http11Line('2', '0', '0', okReason);
    assert "HTTP/1.1 " + ['2', '0', '0'] + " " + okReason == ok;
    LocationLine(target);
    assert "Location: " + target == loc;
    ThreeLines(moved, loc, ok);
  }

  /** A three-line list contributes what the loop body does with each line, in order. */
  lemma ThreeLines(a: string, b: string, c: string)
    ensures LocationTargets([a, b, c]) == LineUrl(a) + LineUrl(b) + LineUrl(c)
    ensures StatusCodes([a, b, c]) == LineCode(a) + LineCode(b) + LineCode(c)
  {
    assert [a, b, c] == [a, b] + [c];
    LocationTargetsAppend([a, b], [c]);
    StatusCodesAppend([a, b], [c]);
    TwoLines(a, b);
    SingleLine(c);
  }

  // ---------------------------------------------------------------------------
  // Where the code keeps less than a redirect report would suggest
  // ---------------------------------------------------------------------------

  /**
   * A Location line without any status line: `isValidUrl` is false and yet `reachedUrl`
   * is that URL, and `redirectedCode` is shorter than `redirectedUrls`.
   */
  lemma LocationWithoutStatusLine(url: string, target: string)
    requires IsHttpCapture(target)
    ensures ReportOf(url, Some(["Location: " + target]))
      == StatusReport(url, target, false, [target], [], 0)
  {
    LocationLine(target);
    assert "Location: " + target == LocationKey + " " + target;
    SingleLine(LocationKey + " " + target);
  }

  /** An empty header list: not valid, yet `reachedUrl` is the input URL rather than "". */
  lemma NoHeaderLines(url: string)
    ensures ReportOf(url, Some([])) == StatusReport(url, url, false, [], [], 0)
  {
  }
}
