/**
 * The three regular expressions of `SMB\UrlStatus`, written out as functions over one
 * header line (or one method name):
 *
 *   Location line   \ALocation:\s(http.+)\z        (the captured URL)
 *   status line     \AHTTP.+\s(\d\d\d)\s            (the captured code, as an int)
 *   query name      \Ais(\d{3})\z                    (the captured code, as an int)
 *
 * PCRE semantics without flags: `\s` is one of space, tab, LF, VT, FF, CR (the C-locale
 * tables), `\d` an ASCII digit, `.` any character except LF, `\A` and `\z` the very start
 * and the very end of the subject. Each `char` stands for one byte of the PHP string.
 */
module HeaderPatterns {
  import opened Wrappers

  predicate IsSpace(c: char) {
    c == ' ' || c == '\t' || c == '\n' || c == 11 as char || c == 12 as char || c == '\r'
  }

  predicate IsDigit(c: char) {
    '0' <= c <= '9'
  }

  function DigitValue(c: char): (d: int)
    requires IsDigit(c)
    ensures 0 <= d < 10
  {
    c as int - '0' as int
  }

  function DigitChar(d: int): (c: char)
    requires 0 <= d < 10
    ensures IsDigit(c) && DigitValue(c) == d
  {
    ('0' as int + d) as char
  }

  predicate StartsWith(s: string, prefix: string) {
    |prefix| <= |s| && s[..|prefix|] == prefix
  }

  /** What `(int)` makes of three ASCII digits: leading zeros vanish. */
  function ThreeDigitValue(a: char, b: char, c: char): (v: int)
    requires IsDigit(a) && IsDigit(b) && IsDigit(c)
    ensures 0 <= v < 1000
  {
    100 * DigitValue(a) + 10 * DigitValue(b) + DigitValue(c)
  }

  // ---------------------------------------------------------------------------
  // Location:  \ALocation:\s(http.+)\z
  // ---------------------------------------------------------------------------

  const LocationKey := "Location:"

  /** What the group `(http.+)` followed by `\z` accepts. */
  predicate IsHttpCapture(u: string) {
    |u| > 4 && u[..4] == "http" && forall k :: 4 <= k < |u| ==> u[k] != '\n'
  }

  /** The URL captured from a `Location:` line, or None when the line does not match. */
  function LocationTarget(line: string): (r: Option<string>)
    ensures r.Some? ==> IsHttpCapture(r.value)
    ensures r.Some? ==> |line| > 10 && IsSpace(line[9]) && line == LocationKey + [line[9]] + r.value
  {
    if |line| > 10 && line[..9] == LocationKey && IsSpace(line[9]) && IsHttpCapture(line[10..])
    then Some(line[10..])
    else None
  }

  /** Building a Location line from any separator and any acceptable URL, and matching it, gives the URL back. */
  lemma LocationRoundTrip(sep: char, url: string)
    requires IsSpace(sep) && IsHttpCapture(url)
    ensures LocationTarget(LocationKey + [sep] + url) == Some(url)
  {
    var line := LocationKey + [sep] + url;
    assert line[..9] == LocationKey;
    assert line[10..] == url;
  }

  /** The pattern is case-sensitive: a lower-case `location:` line never matches. */
  lemma LowerCaseLocationIgnored(line: string)
    requires StartsWith(line, "location:")
    ensures LocationTarget(line) == None
  {
    if LocationTarget(line).Some? {
      assert line[0] == 'L';
      assert line[..9][0] == 'l';
    }
  }

  // ---------------------------------------------------------------------------
  // Status line:  \AHTTP.+\s(\d\d\d)\s
  // ---------------------------------------------------------------------------

  /** The text `\s\d\d\d\s` starting at position p. */
  predicate Window(line: string, p: int) {
    0 <= p && p + 5 <= |line|
    && IsSpace(line[p]) && IsDigit(line[p + 1]) && IsDigit(line[p + 2]) && IsDigit(line[p + 3])
    && IsSpace(line[p + 4])
  }

  /**
   * The status pattern matches with its `\s` at position p: `HTTP` at the start,
   * `.+` over positions 4 .. p-1 (at least one character, none of them LF), then the window.
   */
  predicate StatusAt(line: string, p: int) {
    StartsWith(line, "HTTP") && 5 <= p && Window(line, p)
    && forall k :: 4 <= k < p ==> line[k] != '\n'
  }

  /** The first LF at or after position i, or |s| if there is none. */
  function FirstNewline(s: string, i: int): (n: int)
    requires 0 <= i <= |s|
    ensures i <= n <= |s|
    ensures forall k :: i <= k < n ==> s[k] != '\n'
    ensures n < |s| ==> s[n] == '\n'
    decreases |s| - i
  {
    if i == |s| || s[i] == '\n' then i else FirstNewline(s, i + 1)
  }

  /** The largest q with 5 <= q <= p at which a window starts; the backtracking of greedy `.+`. */
  function LastWindow(line: string, p: int): (r: Option<int>)
    ensures r.Some? ==> 5 <= r.value <= p && Window(line, r.value)
    ensures r.Some? ==> forall q :: r.value < q <= p ==> !Window(line, q)
    ensures r.None? ==> forall q :: 5 <= q <= p ==> !Window(line, q)
    decreases p
  {
    if p < 5 then None
    else if Window(line, p) then Some(p)
    else LastWindow(line, p - 1)
  }

  /**
   * Where the status pattern's `\s` sits in the match PCRE reports: greedy `.+` takes
   * the rightmost position at which the rest of the pattern matches.
   */
  function StatusPos(line: string): (r: Option<int>)
    ensures r.Some? ==> StatusAt(line, r.value)
    ensures r.Some? ==> forall q :: r.value < q ==> !StatusAt(line, q)
    ensures r.None? ==> forall q :: !StatusAt(line, q)
  {
    if !StartsWith(line, "HTTP") then None
    else
      var n := FirstNewline(line, 4);
      var r := LastWindow(line, n);
      assert forall q :: StatusAt(line, q) ==> q <= n;
      r
  }

  /** The captured code of a status line converted by `(int)`, or None when the line does not match. */
  function StatusCode(line: string): (r: Option<int>)
    ensures r.Some? <==> exists p :: StatusAt(line, p)
    ensures r.Some? ==> 0 <= r.value < 1000
  {
    match StatusPos(line)
    case None => None
    case Some(p) => Some(ThreeDigitValue(line[p + 1], line[p + 2], line[p + 3]))
  }

  /** A line that matches the Location pattern never matches the status pattern. */
  lemma LocationLineIsNoStatusLine(line: string)
    requires LocationTarget(line).Some?
    ensures StatusCode(line).None?
  {
    assert line[0] == LocationKey[0];
    assert !StartsWith(line, "HTTP") by {
      assert line[..4][0] == 'L';
    }
  }

  /**
   * A status line `HTTP` + version + SP + three digits + SP + reason, with no LF in the
   * version and no digit in the reason, yields exactly those three digits' value.
   */
  lemma {:induction false} StatusLineRoundTrip(version: string, a: char, b: char, c: char, reason: string)
    requires |version| > 0 && forall k :: 0 <= k < |version| ==> version[k] != '\n'
    requires IsDigit(a) && IsDigit(b) && IsDigit(c)
    requires forall k :: 0 <= k < |reason| ==> !IsDigit(reason[k])
    ensures StatusCode("HTTP" + version + [' ', a, b, c, ' '] + reason) == Some(ThreeDigitValue(a, b, c))
  {
    var line := "HTTP" + version + [' ', a, b, c, ' '] + reason;
    var p := 4 + |version|;
    assert line[..4] == "HTTP";
    assert line[p] == ' ' && line[p + 1] == a && line[p + 2] == b && line[p + 3] == c && line[p + 4] == ' ';
    forall k | 4 <= k < p ensures line[k] != '\n' {
      assert line[k] == version[k - 4];
    }
    assert StatusAt(line, p);
    forall q | p < q ensures !StatusAt(line, q) {
      if q <= p + 3 {
        assert !IsSpace(line[q]);
      } else if q + 5 <= |line| {
        assert line[q + 1] == reason[q + 1 - (p + 5)];
      }
    }
  }

  /** A match at p with no window to its right is the match PCRE reports, whatever lies to its left. */
  lemma StatusCodeAt(line: string, p: int)
    requires StatusAt(line, p)
    requires forall q :: p < q ==> !Window(line, q)
    ensures StatusCode(line) == Some(ThreeDigitValue(line[p + 1], line[p + 2], line[p + 3]))
  {
    var r := StatusPos(line);
    assert r.Some?;
    assert r.value == p;
  }

  /**
   * Greedy `.+`: when the text after a first code holds ` ddd ` again and the rest has no
   * digit, that later code is the one captured.
   */
  lemma RightmostCodeWins(reason: string)
    requires forall k :: 0 <= k < |reason| ==> !IsDigit(reason[k])
    ensures StatusCode("HTTP/1.1 200 See" + [' ', '4', '0', '4', ' '] + reason) == Some(404)
  {
    var version := "/1.1 200 See";
    assert forall k :: 0 <= k < |version| ==> version[k] != '\n';
    StatusLineRoundTrip(version, '4', '0', '4', reason);
    assert "HTTP" + version == "HTTP/1.1 200 See";
  }

  /** A status line with nothing after the code (not even one space) does not match. */
  lemma BareStatusLineIgnored()
    ensures StatusCode("HTTP/1.1 200") == None
  {
    var line := "HTTP/1.1 200";
    forall p ensures !StatusAt(line, p) {
    }
  }

  // ---------------------------------------------------------------------------
  // Query name:  \Ais(\d{3})\z
  // ---------------------------------------------------------------------------

  /** The method name `is` + the code as three digits with leading zeros. */
  function QueryName(code: int): (name: string)
    requires 0 <= code < 1000
    ensures |name| == 5
  {
    "is" + [DigitChar(code / 100), DigitChar(code / 10 % 10), DigitChar(code % 10)]
  }

  /** The code a method name asks about, or None when the name is not `is` + three digits. */
  function QueryCode(name: string): (r: Option<int>)
    ensures r.Some? ==> 0 <= r.value < 1000
  {
    if |name| == 5 && name[..2] == "is" && IsDigit(name[2]) && IsDigit(name[3]) && IsDigit(name[4])
    then Some(ThreeDigitValue(name[2], name[3], name[4]))
    else None
  }

  /** Writing a code as three digits and reading them back gives the code. */
  lemma DigitsOfCode(code: int)
    requires 0 <= code < 1000
    ensures ThreeDigitValue(DigitChar(code / 100), DigitChar(code / 10 % 10), DigitChar(code % 10)) == code
  {
  }

  /** Every code in 000..999 has a name, and the name asks about that code. */
  lemma QueryNameRoundTrip(code: int)
    requires 0 <= code < 1000
    ensures QueryCode(QueryName(code)) == Some(code)
  {
    var name := QueryName(code);
    assert name[..2] == "is";
    DigitsOfCode(code);
  }

  /** A name is accepted only in its three-digit form: it is the QueryName of the code it yields. */
  lemma QueryCodeOnlyFromQueryName(name: string)
    requires QueryCode(name).Some?
    ensures name == QueryName(QueryCode(name).value)
  {
    var a, b, c := DigitValue(name[2]), DigitValue(name[3]), DigitValue(name[4]);
    var v := 100 * a + 10 * b + c;
    assert v / 100 == a;
    assert v / 10 == 10 * a + b;
    assert v / 10 % 10 == b;
    assert v % 10 == c;
    var q := QueryName(v);
    assert q[2] == name[2] && q[3] == name[3] && q[4] == name[4];
    assert q[..2] == name[..2];
    assert q == q[..2] + q[2..] && name == name[..2] + name[2..];
  }

  /** Leading zeros collapse: `is000` asks about 0, `is007` about 7. */
  lemma LeadingZerosCollapse()
    ensures QueryCode("is000") == Some(0)
    ensures QueryCode("is007") == Some(7)
  {
  }

  /** Names that are not `is` + exactly three digits are refused. */
  lemma MalformedQueryNames()
    ensures QueryCode("isHoge") == None
    ensures QueryCode("is20") == None
    ensures QueryCode("is2000") == None
    ensures QueryCode("Is200") == None
  {
    assert "Is200"[..2][0] != "is"[0];
  }
}
