/** The request parser as a whole: its language, its runs over split input, and round trips. */
module HttpMessages {
  import opened Requests
  import opened HttpParser
  import opened HttpGrammar

  // ---------- The language ----------

  /** A request as it is written. */
  function RequestText(x: Syntax): string {
    x.verb + " " + x.uri + " HTTP/" + x.major + "." + x.minor + CRLF + LinesText(x.lines) + CRLF
  }

  // The alphabets, by code.

  predicate LetterCodes(s: string) { forall c | c in s :: 0x41 <= c as int <= 0x5A || 0x61 <= c as int <= 0x7A }
  predicate UriCodes(s: string) { forall c | c in s :: 0x21 <= c as int != 0x7F }
  predicate DigitCodes(s: string) { forall c | c in s :: 0x30 <= c as int <= 0x39 }
  predicate NameCodes(s: string) { forall c | c in s :: 0x21 <= c as int && c as int !in {0x3A, 0x7F} }
  predicate ValueCodes(s: string) { forall c | c in s :: 0x20 <= c as int != 0x7F }
  predicate BlankCodes(s: string) { forall c | c in s :: c as int in {0x20, 0x09} }

  /** Line `i` may stand where it does: a field, or, behind one, a fold that starts with a blank. */
  ghost predicate LegalAt(lines: seq<Line>, i: nat)
    requires i < |lines|
  {
    match lines[i]
    case Field(name, value) => name != "" && NameCodes(name) && ValueCodes(value)
    case Fold(blanks, content) =>
      i > 0 && blanks != "" && BlankCodes(blanks) && ValueCodes(content)
          && (content != "" ==> content[0] as int != 0x20)
  }

  ghost predicate LegalRequest(x: Syntax) {
    && x.verb != "" && LetterCodes(x.verb) && UriCodes(x.uri)
    && x.major != "" && DigitCodes(x.major) && x.minor != "" && DigitCodes(x.minor)
    && forall i | 0 <= i < |x.lines| :: LegalAt(x.lines, i)
  }

  /** What the parser's classes of characters are, by code. */
  lemma Alphabets(s: string)
    ensures LetterCodes(s) <==> AllAlpha(s)
    ensures UriCodes(s) <==> AllUri(s)
    ensures DigitCodes(s) <==> AllDigits(s)
    ensures NameCodes(s) <==> AllName(s)
    ensures ValueCodes(s) <==> AllPrintable(s)
    ensures BlankCodes(s) <==> AllBlank(s)
  {
    assert forall i | 0 <= i < |s| :: s[i] in s;
    forall c
      ensures IsAlpha(c) <==> 0x41 <= c as int <= 0x5A || 0x61 <= c as int <= 0x7A
      ensures IsDigit(c) <==> 0x30 <= c as int <= 0x39
      ensures IsCntrl(c) <==> c as int < 0x20 || c as int == 0x7F
      ensures IsNameChar(c) <==> 0x21 <= c as int && c as int !in {0x3A, 0x7F}
      ensures IsBlank(c) <==> c as int in {0x20, 0x09}
    {
    }
  }

  lemma {:induction false} LinesAreLegal(lines: seq<Line>, after: bool)
    ensures LegalLines(lines, after) <==> forall i | 0 <= i < |lines| :: LegalLine(lines[i], i > 0 || after)
  {
    if lines != [] {
      var rest := lines[1..];
      LinesAreLegal(rest, true);
      assert forall i | 0 <= i < |rest| :: rest[i] == lines[i + 1];
      assert forall i | 0 < i < |lines| :: lines[i] == rest[i - 1];
    }
  }

  lemma LineIsLegal(lines: seq<Line>, i: nat)
    requires i < |lines|
    ensures LegalAt(lines, i) <==> LegalLine(lines[i], i > 0)
  {
    match lines[i]
    case Field(name, value) =>
      Alphabets(name);
      Alphabets(value);
    case Fold(blanks, content) =>
      Alphabets(blanks);
      Alphabets(content);
  }

  lemma RequestIsLegal(x: Syntax)
    ensures LegalRequest(x) <==> Legal(METHOD_START, x, false)
  {
    Alphabets(x.verb);
    Alphabets(x.uri);
    Alphabets(x.major);
    Alphabets(x.minor);
    LinesAreLegal(x.lines, false);
    forall i | 0 <= i < |x.lines|
      ensures LegalAt(x.lines, i) <==> LegalLine(x.lines[i], i > 0)
    {
      LineIsLegal(x.lines, i);
    }
  }

  /** The number that digits spell, by place value. */
  function Number(digits: string): int {
    if digits == "" then 0
    else
      var n := |digits| - 1;
      10 * Number(digits[..n]) + (digits[n] as int - 0x30)
  }

  lemma {:induction false} DecimalIsNumber(digits: string)
    ensures Decimal(0, digits) == Number(digits)
  {
    if digits != "" {
      var n := |digits| - 1;
      DecimalIsNumber(digits[..n]);
      DecimalSnoc(0, digits[..n], digits[n]);
      assert digits[..n] + [digits[n]] == digits;
    }
  }

  function Parsed(input: string): Outcome {
    Run(METHOD_START, NO_FIELDS, input)
  }

  lemma Assoc(a: string, b: string, c: string)
    ensures (a + b) + c == a + (b + c)
  {
  }

  lemma VersionText(x: Syntax)
    ensures FromMajor(x.major, x.minor, x.lines) == x.major + "." + x.minor + CRLF + LinesText(x.lines) + CRLF
  {
    var end := FromLines(x.lines);
    assert CRLF + end == "\r" + FromNewline(x.lines);
    var upTo := x.major + "." + x.minor;
    Assoc(upTo + CRLF, LinesText(x.lines), CRLF);
    Assoc(upTo, CRLF, end);
    Assoc(x.major + ".", x.minor, CRLF + end);
    Assoc(x.major, ".", x.minor + (CRLF + end));
  }

  lemma TextIsRequest(x: Syntax)
    ensures Remaining(METHOD_START, x) == RequestText(x)
  {
    var version := FromMajor(x.major, x.minor, x.lines);
    VersionText(x);
    LiteralText(x);
    RequestInParts(x.verb, x.uri, x.major, x.minor, LinesText(x.lines));
    Assoc(x.uri, " HTTP/", version);
    Assoc(x.verb + " ", x.uri, " HTTP/" + version);
    Assoc(x.verb, " ", x.uri + (" HTTP/" + version));
  }

  lemma LiteralText(x: Syntax)
    ensures " " + FromH(x.major, x.minor, x.lines) == " HTTP/" + FromMajor(x.major, x.minor, x.lines)
  {
  }

  lemma RequestInParts(verb: string, uri: string, major: string, minor: string, lines: string)
    ensures verb + " " + uri + " HTTP/" + major + "." + minor + CRLF + lines + CRLF
        == (verb + " " + uri) + (" HTTP/" + (major + "." + minor + CRLF + lines + CRLF))
  {
    var head := verb + " " + uri;
    Assoc(head, " HTTP/", major);
    Assoc(head, " HTTP/" + major, ".");
    Assoc(head, " HTTP/" + major + ".", minor);
    Assoc(head, " HTTP/" + major + "." + minor, CRLF);
    Assoc(head, " HTTP/" + major + "." + minor + CRLF, lines);
    Assoc(head, " HTTP/" + major + "." + minor + CRLF + lines, CRLF);
    Assoc(" HTTP/", major, ".");
    Assoc(" HTTP/", major + ".", minor);
    Assoc(" HTTP/", major + "." + minor, CRLF);
    Assoc(" HTTP/", major + "." + minor + CRLF, lines);
    Assoc(" HTTP/", major + "." + minor + CRLF + lines, CRLF);
  }

  /** A legal request is accepted with exactly the fields it spells out, whatever follows it. */
  lemma RequestIsAccepted(x: Syntax, after: string)
    requires LegalRequest(x)
    ensures Parsed(RequestText(x) + after) == Outcome(GOOD, EXPECTING_NEWLINE_3,
              Fields(x.verb, x.uri, Number(x.major), Number(x.minor), AddLines([], x.lines)))
  {
    RequestIsLegal(x);
    TextIsRequest(x);
    DecimalIsNumber(x.major);
    DecimalIsNumber(x.minor);
    Accepts(METHOD_START, NO_FIELDS, x, after);
    assert "" + x.verb == x.verb && "" + x.uri == x.uri;
  }

  /** Whatever is accepted starts with a legal request and has its fields. */
  lemma Understood(input: string) returns (x: Syntax)
    requires Parsed(input).verdict == GOOD
    ensures LegalRequest(x) && RequestText(x) <= input
    ensures Parsed(input).fields
         == Fields(x.verb, x.uri, Number(x.major), Number(x.minor), AddLines([], x.lines))
  {
    x := Understand(METHOD_START, NO_FIELDS, input);
    RequestIsLegal(x);
    TextIsRequest(x);
    var after := input[|RequestText(x)|..];
    assert input == RequestText(x) + after;
    RequestIsAccepted(x, after);
  }

  /** The accepted inputs are exactly those that start with a legal request. */
  lemma Language(input: string)
    ensures Parsed(input).verdict == GOOD <==> exists x :: LegalRequest(x) && RequestText(x) <= input
  {
    if Parsed(input).verdict == GOOD {
      var x := Understood(input);
      assert LegalRequest(x) && RequestText(x) <= input;
    }
    forall x | LegalRequest(x) && RequestText(x) <= input
      ensures Parsed(input).verdict == GOOD
    {
      var after := input[|RequestText(x)|..];
      assert input == RequestText(x) + after;
      RequestIsAccepted(x, after);
    }
  }

  // ---------- Split input ----------

  /** Reading two pieces in turn, stopping at a verdict, is reading them joined; so verdicts are stable. */
  lemma {:induction false} RunJoined(s: State, f: Fields, a: string, b: string)
    requires Reachable(s, f)
    ensures var first := Run(s, f, a);
            Run(s, f, a + b) == if first.verdict == INDETERMINATE then Run(first.state, first.fields, b) else first
    decreases |a|
  {
    if a == "" {
      assert a + b == b;
    } else {
      assert a == [a[0]] + a[1..] && a + b == [a[0]] + (a[1..] + b);
      RunOne(s, f, a[0], a[1..]);
      RunOne(s, f, a[0], a[1..] + b);
      var step := OneByte(s, f, a[0]);
      if step.Go? {
        RunJoined(step.state, step.fields, a[1..], b);
      }
    }
  }

  function Flat(pieces: seq<string>): string {
    if pieces == [] then "" else pieces[0] + Flat(pieces[1..])
  }

  lemma {:induction false} FlatSnoc(pieces: seq<string>, last: string)
    ensures Flat(pieces + [last]) == Flat(pieces) + last
  {
    if pieces == [] {
      assert pieces + [last] == [last];
    } else {
      assert (pieces + [last])[1..] == pieces[1..] + [last];
      FlatSnoc(pieces[1..], last);
    }
  }

  /** One read after another until a verdict: the same outcome as one call on all the input. */
  method ReadAll(parser: Parser, req: Request, chunks: seq<string>) returns (verdict: Verdict)
    requires Reachable(parser.state, FieldsOf(req))
    modifies parser, req
    ensures Outcome(verdict, parser.state, FieldsOf(req)) == Run(old(parser.state), old(FieldsOf(req)), Flat(chunks))
    ensures req.body == old(req.body)
  {
    verdict := INDETERMINATE;
    var i := 0;
    ghost var s, f := parser.state, FieldsOf(req);
    while i < |chunks| && verdict == INDETERMINATE
      invariant 0 <= i <= |chunks| && req.body == old(req.body)
      invariant Reachable(parser.state, FieldsOf(req))
      invariant Outcome(verdict, parser.state, FieldsOf(req)) == Run(s, f, Flat(chunks[..i]))
    {
      assert chunks[..i + 1] == chunks[..i] + [chunks[i]];
      FlatSnoc(chunks[..i], chunks[i]);
      RunJoined(s, f, Flat(chunks[..i]), chunks[i]);
      verdict := parser.Parse(req, chunks[i]);
      i := i + 1;
    }
    FlatOf(chunks, i);
    RunJoined(s, f, Flat(chunks[..i]), Flat(chunks[i..]));
    assert i == |chunks| ==> Flat(chunks[i..]) == "" && chunks[..i] == chunks;
  }

  lemma {:induction false} FlatOf(pieces: seq<string>, i: nat)
    requires i <= |pieces|
    ensures Flat(pieces) == Flat(pieces[..i]) + Flat(pieces[i..])
  {
    if i == 0 {
      assert pieces[..0] == [] && pieces[0..] == pieces;
    } else {
      FlatOf(pieces[1..], i - 1);
      assert pieces[..i][1..] == pieces[1..][..i - 1] && pieces[i..] == pieces[1..][i - 1..];
    }
  }

  // ---------- Viable prefixes ----------

  /** Every reachable state can be completed to an accepted request. */
  lemma CanFinish(s: State, f: Fields) returns (end: string)
    requires Reachable(s, f)
    ensures Run(s, f, end).verdict == GOOD
  {
    var x := Syntax("G", "", "1", "1", "", "", "", []);
    end := Remaining(s, x);
    Accepts(s, f, x, "");
    assert end + "" == end;
  }

  /** The parser has not rejected exactly while some continuation is accepted. */
  lemma ViablePrefix(s: State, f: Fields, input: string)
    requires Reachable(s, f)
    ensures Run(s, f, input).verdict != BAD <==> exists more :: Run(s, f, input + more).verdict == GOOD
  {
    var end := Run(s, f, input);
    if end.verdict == INDETERMINATE {
      var more := CanFinish(end.state, end.fields);
      RunJoined(s, f, input, more);
    } else if end.verdict == GOOD {
      RunJoined(s, f, input, "");
    } else {
      forall more
        ensures Run(s, f, input + more).verdict == BAD
      {
        RunJoined(s, f, input, more);
      }
    }
  }

  // ---------- Folded headers ----------

  function Folds(pieces: seq<(string, string)>): seq<Line> {
    if pieces == [] then [] else [Fold(pieces[0].0, pieces[0].1)] + Folds(pieces[1..])
  }

  function Contents(pieces: seq<(string, string)>): string {
    if pieces == [] then "" else pieces[0].1 + Contents(pieces[1..])
  }

  lemma {:induction false} FoldsExtend(headers: seq<Header>, pieces: seq<(string, string)>, lines: seq<Line>)
    requires headers != []
    ensures AddLines(headers, Folds(pieces) + lines) == AddLines(Extend(headers, "", Contents(pieces)), lines)
    decreases |pieces|
  {
    if pieces == [] {
      ExtendNone(headers);
      assert Folds(pieces) + lines == lines;
    } else {
      var (blanks, content) := pieces[0];
      assert Folds(pieces) + lines == [Fold(blanks, content)] + (Folds(pieces[1..]) + lines);
      FoldsExtend(Extend(headers, "", content), pieces[1..], lines);
      ExtendTwice(headers, "", content, "", Contents(pieces[1..]));
      assert "" + "" == "";
    }
  }

  /** A folded header's value is the concatenation of its pieces without their leading blanks. */
  lemma FoldedValue(headers: seq<Header>, name: string, value: string,
                    pieces: seq<(string, string)>, lines: seq<Line>)
    ensures AddLines(headers, [Field(name, value)] + (Folds(pieces) + lines))
         == AddLines(headers + [Header(name, value + Contents(pieces))], lines)
  {
    var longer := headers + [Header(name, value)];
    FoldsExtend(longer, pieces, lines);
    assert name + "" == name;
  }

  // ---------- Version numbers ----------

  function Digits(n: nat): (r: string)
    ensures r != "" && AllDigits(r)
  {
    if n < 10 then [DigitChar(n)] else Digits(n / 10) + [DigitChar(n % 10)]
  }

  function DigitChar(n: nat): (c: char)
    requires n < 10
    ensures IsDigit(c) && DigitValue(c) == n
  {
    '0' + n as char
  }

  lemma {:induction false} DecimalSnoc(n: int, digits: string, c: char)
    ensures Decimal(n, digits + [c]) == Decimal(n, digits) * 10 + DigitValue(c)
    decreases |digits|
  {
    if digits == "" {
      assert digits + [c] == [c];
      assert [c][1..] == "";
    } else {
      assert (digits + [c])[1..] == digits[1..] + [c];
      DecimalSnoc(n * 10 + DigitValue(digits[0]), digits[1..], c);
    }
  }

  /** Reading a printed number gives it back. */
  lemma {:induction false} DigitsRoundTrip(n: nat)
    ensures Decimal(0, Digits(n)) == Number(Digits(n)) == n && DigitCodes(Digits(n))
  {
    DecimalIsNumber(Digits(n));
    Alphabets(Digits(n));
    if n < 10 {
      DecimalSnoc(0, "", DigitChar(n));
      assert "" + [DigitChar(n)] == [DigitChar(n)];
    } else {
      DigitsRoundTrip(n / 10);
      DecimalSnoc(0, Digits(n / 10), DigitChar(n % 10));
    }
  }

  const INT_LIMIT := 0x8000_0000

  /** While digits are read the number only grows: no step overflows exactly when the last does not. */
  lemma {:induction false} OverflowOnlyAtEnd(digits: string)
    requires AllDigits(digits)
    ensures Decimal(0, digits) < INT_LIMIT
        <==> forall k | 0 <= k <= |digits| :: 0 <= Decimal(0, digits[..k]) < INT_LIMIT
    ensures 0 <= Decimal(0, digits)
    decreases |digits|
  {
    if digits == "" {
    } else {
      var n := |digits| - 1;
      var init := digits[..n];
      OverflowOnlyAtEnd(init);
      DecimalSnoc(0, init, digits[n]);
      assert init + [digits[n]] == digits && digits[..n + 1] == digits;
      forall k | 0 <= k <= n
        ensures digits[..k] == init[..k]
      {
      }
    }
  }

  function Power10(k: nat): nat {
    if k == 0 then 1 else 10 * Power10(k - 1)
  }

  lemma {:induction false} DecimalBound(digits: string)
    requires AllDigits(digits)
    ensures 0 <= Decimal(0, digits) < Power10(|digits|)
    decreases |digits|
  {
    if digits == "" {
    } else {
      var n := |digits| - 1;
      DecimalBound(digits[..n]);
      DecimalSnoc(0, digits[..n], digits[n]);
      assert digits[..n] + [digits[n]] == digits;
    }
  }

  /** At most nine digits never overflow a 32-bit signed integer. */
  lemma NineDigits(digits: string)
    requires AllDigits(digits) && |digits| <= 9
    ensures forall k | 0 <= k <= |digits| :: 0 <= Decimal(0, digits[..k]) < INT_LIMIT
  {
    DecimalBound(digits);
    PowersGrow(|digits|, 9);
    assert Power10(9) == 1_000_000_000;
    OverflowOnlyAtEnd(digits);
  }

  lemma {:induction false} PowersGrow(a: nat, b: nat)
    requires a <= b
    ensures Power10(a) <= Power10(b)
  {
    if a < b {
      PowersGrow(a, b - 1);
    }
  }

  /** Ten digits may overflow. */
  lemma TenDigitsOverflow()
    ensures AllDigits(Digits(9_999_999_999)) && Decimal(0, Digits(9_999_999_999)) >= INT_LIMIT
  {
    DigitsRoundTrip(9_999_999_999);
  }

  // ---------- Headers as responses print them ----------

  class Response {
    var status: int
    var headers: seq<Header>
    var content: string

    constructor (status: int, headers: seq<Header>, content: string)
      ensures this.status == status && this.headers == headers && this.content == content
    {
      this.status, this.headers, this.content := status, headers, content;
    }

    /** The buffers to write: status line, headers, empty line, content. */
    method ToBuffers() returns (buffers: seq<string>)
      ensures Flat(buffers) == StatusLine(status) + HeaderBlock(headers) + content
    {
      buffers := [StatusLine(status)];
      assert Flat(buffers) == buffers[0] + "" == buffers[0];
      buffers := AddHeaders(buffers, headers);
      FlatSnoc(buffers, CRLF);
      buffers := buffers + [CRLF];
      FlatSnoc(buffers, content);
      buffers := buffers + [content];
    }
  }

  method AddHeaders(buffers: seq<string>, headers: seq<Header>) returns (longer: seq<string>)
    ensures Flat(longer) == Flat(buffers) + LinesText(FieldLines(headers))
  {
    longer := buffers;
    for i := 0 to |headers|
      invariant Flat(longer) == Flat(buffers) + LinesText(FieldLines(headers[..i]))
    {
      var h := headers[i];
      longer := AddHeader(longer, h);
      OneMoreField(headers[..i], h);
      assert headers[..i + 1] == headers[..i] + [h];
      Assoc(Flat(buffers), LinesText(FieldLines(headers[..i])), h.name + (": " + (h.value + CRLF)));
    }
    assert headers[..|headers|] == headers;
  }

  method AddHeader(buffers: seq<string>, h: Header) returns (longer: seq<string>)
    ensures Flat(longer) == Flat(buffers) + (h.name + (": " + (h.value + CRLF)))
  {
    longer := buffers + [h.name];
    longer := longer + [": "];
    longer := longer + [h.value];
    longer := longer + [CRLF];
    FlatFour(buffers, h.name, ": ", h.value, CRLF);
  }

  lemma FlatFour(pieces: seq<string>, a: string, b: string, c: string, d: string)
    ensures Flat(pieces + [a] + [b] + [c] + [d]) == Flat(pieces) + (a + (b + (c + d)))
  {
    FlatSnoc(pieces, a);
    FlatSnoc(pieces + [a], b);
    FlatSnoc(pieces + [a] + [b], c);
    FlatSnoc(pieces + [a] + [b] + [c], d);
  }

  function StatusLine(status: int): string {
    "HTTP/1.0 " + StatusText(status) + "\r\n"
  }

  function StatusText(status: int): string {
    match status
    case 200 => "200 OK"
    case 201 => "201 Created"
    case 202 => "202 Accepted"
    case 204 => "204 No Content"
    case 300 => "300 Multiple Choices"
    case 301 => "301 Moved Permanently"
    case 302 => "302 Moved Temporarily"
    case 304 => "304 Not Modified"
    case 400 => "400 Bad Request"
    case 401 => "401 Unauthorized"
    case 403 => "403 Forbidden"
    case 404 => "404 Not Found"
    case 500 => "500 Internal Server Error"
    case 501 => "501 Not Implemented"
    case 502 => "502 Bad Gateway"
    case 503 => "503 Service Unavailable"
    case _ => "500 Internal Server Error"
  }

  /** The codes that have a line of their own. */
  const CODES := {200, 201, 202, 204, 300, 301, 302, 304, 400, 401, 403, 404, 500, 501, 502, 503}

  lemma ThreeDigits(n: nat, digits: string)
    requires 100 <= n < 1000 && |digits| == 3 && AllDigits(digits)
    requires n == 100 * DigitValue(digits[0]) + 10 * DigitValue(digits[1]) + DigitValue(digits[2])
    ensures Digits(n) == digits
  {
    assert n / 10 == 10 * DigitValue(digits[0]) + DigitValue(digits[1]);
    assert n / 10 / 10 == DigitValue(digits[0]);
    assert Digits(n) == Digits(n / 10 / 10) + [DigitChar(n / 10 % 10)] + [DigitChar(n % 10)];
  }

  /** The code's own text starts with three digits that spell it, and a space. */
  ghost predicate Spells(text: string, status: int) {
    && |text| > 4 && text[3] == ' ' && IsDigit(text[0]) && IsDigit(text[1]) && IsDigit(text[2])
    && status == 100 * DigitValue(text[0]) + 10 * DigitValue(text[1]) + DigitValue(text[2])
  }

  lemma StatusTextSpells(status: int)
    requires status in CODES
    ensures Spells(StatusText(status), status)
  {
  }

  /** The line of a code is the protocol, the code in decimal, and a reason. */
  lemma StatusLineSpelt(status: int) returns (reason: string)
    requires status in CODES
    ensures StatusLine(status) == "HTTP/1.0 " + Digits(status) + " " + reason + "\r\n" && reason != ""
    ensures |Digits(status)| == 3 && StatusLine(status)[9..12] == Digits(status)
  {
    StatusTextSpells(status);
    var text := StatusText(status);
    reason := text[4..];
    ThreeDigits(status, text[..3]);
    SplitText(text);
    LineParts(text[..3], reason);
  }

  lemma SplitText(text: string)
    requires |text| > 4 && text[3] == ' '
    ensures text == text[..3] + " " + text[4..]
  {
  }

  lemma LineParts(code: string, reason: string)
    requires |code| == 3
    ensures "HTTP/1.0 " + (code + " " + reason) + "\r\n" == "HTTP/1.0 " + code + " " + reason + "\r\n"
    ensures ("HTTP/1.0 " + (code + " " + reason) + "\r\n")[9..12] == code
  {
  }

  /** Different codes have different lines; any other code gets that of 500. */
  lemma StatusLinesDiffer(a: int, b: int)
    ensures a in CODES && b in CODES && a != b ==> StatusLine(a) != StatusLine(b)
    ensures a !in CODES ==> StatusLine(a) == StatusLine(500)
  {
    if a in CODES && b in CODES && StatusLine(a) == StatusLine(b) {
      var r := StatusLineSpelt(a);
      var q := StatusLineSpelt(b);
      DigitsRoundTrip(a);
      DigitsRoundTrip(b);
    }
  }

  function FieldLines(headers: seq<Header>): seq<Line> {
    if headers == [] then [] else [Field(headers[0].name, headers[0].value)] + FieldLines(headers[1..])
  }

  /** The header lines and the empty line behind them. */
  function HeaderBlock(headers: seq<Header>): string {
    LinesText(FieldLines(headers)) + CRLF
  }

  lemma {:induction false} OneMoreField(headers: seq<Header>, h: Header)
    ensures LinesText(FieldLines(headers + [h]))
         == LinesText(FieldLines(headers)) + (h.name + (": " + (h.value + CRLF)))
  {
    if headers == [] {
      assert headers + [h] == [h];
      assert FieldLines([h]) == [Field(h.name, h.value)];
      assert LinesText([Field(h.name, h.value)]) == LineText(Field(h.name, h.value)) + "";
    } else {
      assert (headers + [h])[1..] == headers[1..] + [h];
      OneMoreField(headers[1..], h);
      var l := Field(headers[0].name, headers[0].value);
      assert FieldLines(headers + [h]) == [l] + FieldLines(headers[1..] + [h]);
    }
  }

  // ---------- The round trip ----------

  ghost predicate LegalHeader(h: Header) {
    h.name != "" && NameCodes(h.name) && ValueCodes(h.value)
  }

  ghost predicate LegalFields(f: Fields) {
    && f.verb != "" && LetterCodes(f.verb) && UriCodes(f.uri)
    && f.major >= 0 && f.minor >= 0
    && forall h | h in f.headers :: LegalHeader(h)
  }

  /** A request line for the fields, then their headers as a response prints them. */
  function Printed(f: Fields): string
    requires f.major >= 0 && f.minor >= 0
  {
    f.verb + " " + f.uri + " HTTP/" + Digits(f.major) + "." + Digits(f.minor) + CRLF + HeaderBlock(f.headers)
  }

  lemma {:induction false} FieldLinesAdd(before: seq<Header>, headers: seq<Header>, after: bool)
    requires forall h | h in headers :: LegalHeader(h)
    ensures LegalLines(FieldLines(headers), after)
    ensures AddLines(before, FieldLines(headers)) == before + headers
    decreases |headers|
  {
    if headers == [] {
      assert before + headers == before;
    } else {
      var h, rest := headers[0], headers[1..];
      assert LegalHeader(h) && headers == [h] + rest;
      FieldLinesAdd(before + [h], rest, true);
      var l := Field(h.name, h.value);
      assert FieldLines(headers) == [l] + FieldLines(rest) && FieldLines(headers)[1..] == FieldLines(rest);
      Alphabets(h.name);
      Alphabets(h.value);
      assert Header(h.name, h.value) == h && LegalLine(l, after);
      assert before + [h] + rest == before + headers;
    }
  }

  lemma {:induction false} AddedAreLegal(headers: seq<Header>, lines: seq<Line>)
    requires (forall h | h in headers :: LegalHeader(h)) && LegalLines(lines, headers != [])
    ensures forall h | h in AddLines(headers, lines) :: LegalHeader(h)
    decreases |lines|
  {
    if lines == [] {
    } else {
      match lines[0]
      case Field(name, value) =>
        Alphabets(name);
        Alphabets(value);
        AddedAreLegal(headers + [Header(name, value)], lines[1..]);
      case Fold(_, content) =>
        var n := |headers| - 1;
        var grown := Extend(headers, "", content);
        assert LegalHeader(headers[n]);
        assert headers[n].name + "" == headers[n].name;
        assert LegalHeader(grown[n]);
        AddedAreLegal(grown, lines[1..]);
    }
  }

  /** Whatever is accepted, the request's fields are legal. */
  lemma AcceptedIsLegal(input: string)
    requires Parsed(input).verdict == GOOD
    ensures LegalFields(Parsed(input).fields)
  {
    var x := Understood(input);
    RequestIsLegal(x);
    AddedAreLegal([], x.lines);
    NumberIsNatural(x.major);
    NumberIsNatural(x.minor);
  }

  lemma NumberIsNatural(digits: string)
    requires DigitCodes(digits)
    ensures Number(digits) >= 0
  {
    Alphabets(digits);
    DecimalIsNumber(digits);
    DecimalBound(digits);
  }

  lemma PrintedIsLegal(f: Fields, x: Syntax)
    requires LegalFields(f) && LegalLines(FieldLines(f.headers), false)
    requires x.verb == f.verb && x.uri == f.uri && x.lines == FieldLines(f.headers)
    requires x.major == Digits(f.major) && x.minor == Digits(f.minor)
    ensures LegalRequest(x)
  {
    Alphabets(f.verb);
    Alphabets(f.uri);
    RequestIsLegal(x);
  }

  /** Printing and parsing gives back exactly the fields, with the parser done, exactly when they are legal. */
  lemma RoundTrip(f: Fields)
    requires f.major >= 0 && f.minor >= 0
    ensures Parsed(Printed(f)) == Outcome(GOOD, EXPECTING_NEWLINE_3, f) <==> LegalFields(f)
  {
    if Parsed(Printed(f)) == Outcome(GOOD, EXPECTING_NEWLINE_3, f) {
      AcceptedIsLegal(Printed(f));
    }
    if LegalFields(f) {
      var x := Syntax(f.verb, f.uri, Digits(f.major), Digits(f.minor), "", "", "", FieldLines(f.headers));
      FieldLinesAdd([], f.headers, false);
      DigitsRoundTrip(f.major);
      DigitsRoundTrip(f.minor);
      PrintedIsLegal(f, x);
      RequestIsAccepted(x, "");
      assert RequestText(x) + "" == Printed(f);
      assert [] + f.headers == f.headers;
    }
  }
}
