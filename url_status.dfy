/**
 * `SMB\UrlStatus`: the object `UrlStatus::get` builds and returns, its six accessors and
 * the `is{3 digits}` query that `__call` answers.
 *
 * The transport is a parameter: `get_headers($url)` becomes `transport`, where None is
 * its `false` result and Some(lines) the raw header lines it returned, in order.
 */
module SMB {
  import opened Wrappers
  import opened HeaderPatterns
  import opened HeaderFold

  /** The exception `__call` throws, with its message. */
  datatype Error = LogicException(message: string)

  const OnlyIsXxx := "Only isXXX functions are allowed"

  class UrlStatus {
    var targetUrl: string
    var reachedUrl: string
    var isValidUrl: bool
    var redirectedUrls: seq<string>
    var redirectedCode: seq<int>
    var code: int

    /** What the transport answered for `targetUrl`; recorded only to state what the fields mean. */
    ghost var transport: Option<seq<string>>

    /** The six fields, as a value. */
    function Snapshot(): StatusReport
      reads this
    {
      StatusReport(targetUrl, reachedUrl, isValidUrl, redirectedUrls, redirectedCode, code)
    }

    /** The fields are the report of `targetUrl` for what the transport answered. */
    ghost predicate Valid()
      reads this
    {
      Snapshot() == ReportOf(targetUrl, transport)
    }

    /** `new static()`: every field at its declared initial value. */
    constructor ()
      ensures Snapshot() == StatusReport("", "", false, [], [], 0)
      ensures transport == None && Valid()
    {
      targetUrl, reachedUrl, isValidUrl := "", "", false;
      redirectedUrls, redirectedCode, code := [], [], 0;
      transport := None;
    }

    /**
     * `UrlStatus::get($url)`: a new object whose fields are the report of `url` for the
     * transport's answer.
     */
    static method Get(url: string, transport: Option<seq<string>>) returns (self: UrlStatus)
      ensures fresh(self) && self.transport == transport
      ensures self.Snapshot() == ReportOf(url, transport)
      ensures self.Valid()
    {
      self := new UrlStatus();
      self.targetUrl := url;
      self.transport := transport;
      if transport.None? {
        return;
      }
      var urls, codes, code, isValid := ScanHeaders(transport.value);
      ReportFromScan(url, transport, urls, codes, code, isValid);
      self.Conclude(url, urls, codes, code, isValid);
    }

    /**
     * The end of `get`: stores what the header loop collected, the last redirect URL
     * (or `url` when there was none) as the reached URL, and the codes that have a
     * redirect URL at the same index.
     */
    method Conclude(url: string, urls: seq<string>, codes: seq<int>, code: int, isValid: bool)
      modifies this
      ensures Snapshot()
        == StatusReport(old(targetUrl), if |urls| > 0 then urls[|urls| - 1] else url, isValid, urls, IntersectKey(codes, urls), code)
      ensures transport == old(transport)
    {
      redirectedUrls, this.code, isValidUrl := urls, code, isValid;
      var redirectedCnt := |redirectedUrls|;
      if redirectedCnt > 0 {
        reachedUrl := redirectedUrls[redirectedCnt - 1];
      } else {
        reachedUrl := url;
      }
      redirectedCode := IntersectKey(codes, redirectedUrls);
    }

    /** `targetUrl()`: the URL asked about; it is also the reached URL when headers came back without redirect. */
    function TargetUrl(): (u: string)
      reads this
      requires Valid()
      ensures transport.Some? && LocationTargets(transport.value) == [] ==> reachedUrl == u
    {
      targetUrl
    }

    /** `reachedUrl()`: "" on failure, else the last redirect URL, or the target URL when there was none. */
    function ReachedUrl(): (r: string)
      reads this
      requires Valid()
      ensures transport.None? ==> r == ""
      ensures transport.Some? && LocationTargets(transport.value) == [] ==> r == targetUrl
      ensures transport.Some? && LocationTargets(transport.value) != []
        ==> r == LocationTargets(transport.value)[|LocationTargets(transport.value)| - 1]
    {
      reachedUrl
    }

    /** `isValidUrl()`: headers came back and at least one line of them is a status line. */
    function IsValidUrl(): (b: bool)
      reads this
      requires Valid()
      ensures b <==> transport.Some? && exists i :: 0 <= i < |transport.value| && IsStatusLine(transport.value[i])
    {
      HeadersObtained(targetUrl, transport);
      isValidUrl
    }

    /** `redirectedUrls()`: the URLs of the Location lines, in header order (none on failure). */
    function RedirectedUrls(): (r: seq<string>)
      reads this
      requires Valid()
      ensures transport.None? ==> r == []
      ensures transport.Some? ==> r == LocationTargets(transport.value)
      ensures forall u :: u in r ==> IsHttpCapture(u)
    {
      redirectedUrls
    }

    /** `redirectedCode()`: a prefix of the recorded status codes, never longer than `redirectedUrls()`. */
    function RedirectedCode(): (r: seq<int>)
      reads this
      requires Valid()
      ensures transport.None? ==> r == []
      ensures transport.Some? ==> r <= StatusCodes(transport.value)
      ensures |r| <= |redirectedUrls|
      ensures transport.Some? && |StatusCodes(transport.value)| >= |redirectedUrls| ==> |r| == |redirectedUrls|
      ensures transport.Some? ==> r == StatusCodes(transport.value)[..if |StatusCodes(transport.value)| <= |redirectedUrls| then |StatusCodes(transport.value)| else |redirectedUrls|]
    {
      redirectedCode
    }

    /** `code()`: the code of the last status line, 0 when there was none or the transport failed. */
    function Code(): (c: int)
      reads this
      requires Valid()
      ensures 0 <= c < 1000
      ensures !isValidUrl ==> c == 0
      ensures transport.Some? ==> forall j :: (0 <= j < |transport.value| && IsStatusLine(transport.value[j])
                                              && (forall k :: j < k < |transport.value| ==> !IsStatusLine(transport.value[k])))
                                             ==> c == StatusCode(transport.value[j]).value
    {
      HeadersObtained(targetUrl, transport);
      ReportInvariants(targetUrl, transport);
      code
    }

    /**
     * `__call($name, $args)`: for a name `is` + three digits, whether `code` equals the
     * number they spell; for any other name, the LogicException.
     */
    function Call(name: string): (r: Result<bool, Error>)
      reads this
      ensures r.Failure? <==> forall c :: 0 <= c < 1000 ==> name != QueryName(c)
      ensures r.Failure? ==> r.error == LogicException(OnlyIsXxx)
      ensures forall c :: 0 <= c < 1000 && name == QueryName(c) ==> r == Success(code == c)
    {
      match QueryCode(name)
      case Some(c) =>
        QueryCodeOnlyFromQueryName(name);
        QueryNamesDistinct(name, c);
        Success(code == c)
      case None =>
        QueryNamesAccepted(name);
        Failure(LogicException(OnlyIsXxx))
    }
  }

  /**
   * The `foreach ($headers as $header)` loop of `get`: a Location line appends its URL and
   * skips the rest of the body; otherwise a status line appends its code to the local list
   * and overwrites `code` and `isValidUrl`.
   */
  method ScanHeaders(headers: seq<string>) returns (urls: seq<string>, codes: seq<int>, code: int, isValid: bool)
    ensures urls == LocationTargets(headers)
    ensures codes == StatusCodes(headers)
    ensures code == TerminalCode(codes)
    ensures isValid <==> codes != []
  {
    urls, codes, code, isValid := [], [], 0, false;
    for i := 0 to |headers|
      invariant urls == LocationTargets(headers[..i])
      invariant codes == StatusCodes(headers[..i])
      invariant code == TerminalCode(codes)
      invariant isValid <==> codes != []
    {
      var header := headers[i];
      NextLine(headers, i);
      var location := LocationTarget(header);
      if location.Some? {
        assert LineUrl(header) == [location.value] && LineCode(header) == [];
        urls := urls + [location.value];
        continue;
      }
      assert LineUrl(header) == [];
      var status := StatusCode(header);
      assert LineCode(header) == if status.Some? then [status.value] else [];
      if status.Some? {
        codes := codes + [status.value];
        code := status.value;
        isValid := true;
      }
    }
    assert headers[..|headers|] == headers;
  }

  /** The report of headers, given what the loop collected from them. */
  lemma ReportFromScan(url: string, transport: Option<seq<string>>, urls: seq<string>, codes: seq<int>, code: int, isValid: bool)
    requires transport.Some?
    requires urls == LocationTargets(transport.value) && codes == StatusCodes(transport.value)
    requires code == TerminalCode(codes) && (isValid <==> codes != [])
    ensures ReportOf(url, transport)
      == StatusReport(url, if |urls| > 0 then urls[|urls| - 1] else url, isValid, urls, IntersectKey(codes, urls), code)
  {
  }

  /** One more line of the loop adds what the loop body does with it. */
  lemma NextLine(headers: seq<string>, i: int)
    requires 0 <= i < |headers|
    ensures LocationTargets(headers[..i + 1]) == LocationTargets(headers[..i]) + LineUrl(headers[i])
    ensures StatusCodes(headers[..i + 1]) == StatusCodes(headers[..i]) + LineCode(headers[i])
  {
    assert headers[..i + 1][..i] == headers[..i];
  }

  /** ReportOnHeaders, for an answer that may be the failure. */
  lemma HeadersObtained(url: string, transport: Option<seq<string>>)
    ensures ReportOf(url, transport).isValidUrl
      <==> transport.Some? && exists i :: 0 <= i < |transport.value| && IsStatusLine(transport.value[i])
    ensures transport.Some? ==> forall j :: (0 <= j < |transport.value| && IsStatusLine(transport.value[j])
                                            && (forall k :: j < k < |transport.value| ==> !IsStatusLine(transport.value[k])))
                                           ==> ReportOf(url, transport).code == StatusCode(transport.value[j]).value
  {
    if transport.Some? {
      ReportOnHeaders(url, transport.value);
    }
  }

  /** Only the name of its own code spells a code. */
  lemma QueryNamesDistinct(name: string, c: int)
    requires 0 <= c < 1000 && name == QueryName(c)
    ensures forall d :: 0 <= d < 1000 && name == QueryName(d) ==> d == c
  {
    forall d | 0 <= d < 1000 && name == QueryName(d) ensures d == c {
      QueryNameRoundTrip(c);
      QueryNameRoundTrip(d);
    }
  }

  /** A name that is refused is no code's name. */
  lemma QueryNamesAccepted(name: string)
    requires QueryCode(name).None?
    ensures forall c :: 0 <= c < 1000 ==> name != QueryName(c)
  {
    forall c | 0 <= c < 1000 ensures name != QueryName(c) {
      QueryNameRoundTrip(c);
    }
  }

  /** The redirect sequence of the tests, driven through `Get`, the accessors and `__call`. */
  method RedirectScenario(url: string, target: string, movedReason: string, okReason: string)
    requires IsHttpCapture(target)
    requires forall k :: 0 <= k < |movedReason| ==> !IsDigit(movedReason[k])
    requires forall k :: 0 <= k < |okReason| ==> !IsDigit(okReason[k])
  {
    var headers := ["HTTP/1.1 301 " + movedReason, "Location: " + target, "HTTP/1.1 200 " + okReason];
    OneRedirect(url, target, movedReason, okReason);
    var status := UrlStatus.Get(url, Some(headers));
    assert status.RedirectedCode() == [301];
    assert status.RedirectedUrls() == [target];
    assert status.TargetUrl() == url;
    assert status.ReachedUrl() == target;
    QueryNameRoundTrip(200);
    assert status.Call(QueryName(200)) == Success(true);
  }

  /** The unreachable host of the tests: the transport fails. */
  method FailureScenario(url: string)
  {
    var status := UrlStatus.Get(url, None);
    assert !status.IsValidUrl() && status.Code() == 0;
    assert status.RedirectedCode() == [] && status.RedirectedUrls() == [];
    assert status.TargetUrl() == url && status.ReachedUrl() == "";
  }
}
