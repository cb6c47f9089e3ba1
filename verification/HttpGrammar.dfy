/** The language of the request parser, and what follows from it. */
module HttpGrammar {
  import opened Requests
  import opened HttpParser

  // ---------- The grammar ----------

  /** A header field on one line, or a folded line that continues the field before it. */
  datatype Line = Field(name: string, value: string) | Fold(blanks: string, content: string)

  /**
   * What is still to come from some state on. From the start it is a whole request: the parts
   * `blanks`, `name` and `value` are the rest of a line already begun and are unused there.
   */
  datatype Syntax = Syntax(
    verb: string, uri: string, major: string, minor: string,
    blanks: string, name: string, value: string, lines: seq<Line>)

  const CRLF := "\r\n"

  function LineText(l: Line): string {
    match l
    case Field(name, value) => name + (": " + (value + CRLF))
    case Fold(blanks, content) => blanks + (content + CRLF)
  }

  function LinesText(lines: seq<Line>): string {
    if lines == [] then "" else LineText(lines[0]) + LinesText(lines[1..])
  }

  function FromLines(lines: seq<Line>): string { LinesText(lines) + CRLF }
  function FromNewline(lines: seq<Line>): string { "\n" + FromLines(lines) }
  function FromMinor(minor: string, lines: seq<Line>): string { minor + ("\r" + FromNewline(lines)) }
  function FromMajor(major: string, minor: string, lines: seq<Line>): string { major + ("." + FromMinor(minor, lines)) }
  function FromSlash(major: string, minor: string, lines: seq<Line>): string { "/" + FromMajor(major, minor, lines) }
  function FromP(major: string, minor: string, lines: seq<Line>): string { "P" + FromSlash(major, minor, lines) }
  function FromT2(major: string, minor: string, lines: seq<Line>): string { "T" + FromP(major, minor, lines) }
  function FromT1(major: string, minor: string, lines: seq<Line>): string { "T" + FromT2(major, minor, lines) }
  function FromH(major: string, minor: string, lines: seq<Line>): string { "H" + FromT1(major, minor, lines) }
  function FromUri(uri: string, major: string, minor: string,
      lines: seq<Line>): string { uri + (" " + FromH(major, minor, lines)) }
  function FromVerb(verb: string, uri: string, major: string, minor: string,
      lines: seq<Line>): string { verb + (" " + FromUri(uri, major, minor, lines)) }
  function FromValue(value: string, lines: seq<Line>): string { value + ("\r" + FromNewline(lines)) }
  function FromSpace(value: string, lines: seq<Line>): string { " " + FromValue(value, lines) }
  function FromName(name: string, value: string, lines: seq<Line>): string { name + (":" + FromSpace(value, lines)) }
  function FromBlanks(blanks: string, value: string, lines: seq<Line>): string { blanks + FromValue(value, lines) }

  /** The text still to come from state `s`. */
  function Remaining(s: State, x: Syntax): string {
    match s
    case METHOD_START => FromVerb(x.verb, x.uri, x.major, x.minor, x.lines)
    case METHOD => FromVerb(x.verb, x.uri, x.major, x.minor, x.lines)
    case URI => FromUri(x.uri, x.major, x.minor, x.lines)
    case HTTP_VERSION_H => FromH(x.major, x.minor, x.lines)
    case HTTP_VERSION_T_1 => FromT1(x.major, x.minor, x.lines)
    case HTTP_VERSION_T_2 => FromT2(x.major, x.minor, x.lines)
    case HTTP_VERSION_P => FromP(x.major, x.minor, x.lines)
    case HTTP_VERSION_SLASH => FromSlash(x.major, x.minor, x.lines)
    case HTTP_VERSION_MAJOR_START => FromMajor(x.major, x.minor, x.lines)
    case HTTP_VERSION_MAJOR => FromMajor(x.major, x.minor, x.lines)
    case HTTP_VERSION_MINOR_START => FromMinor(x.minor, x.lines)
    case HTTP_VERSION_MINOR => FromMinor(x.minor, x.lines)
    case EXPECTING_NEWLINE_1 => FromNewline(x.lines)
    case HEADER_LINE_START => FromLines(x.lines)
    case HEADER_LWS => FromBlanks(x.blanks, x.value, x.lines)
    case HEADER_NAME => FromName(x.name, x.value, x.lines)
    case SPACE_BEFORE_HEADER_VALUE => FromSpace(x.value, x.lines)
    case HEADER_VALUE => FromValue(x.value, x.lines)
    case EXPECTING_NEWLINE_2 => FromNewline(x.lines)
    case EXPECTING_NEWLINE_3 => "\n"
  }

  predicate AllAlpha(s: string) { forall i | 0 <= i < |s| :: IsAlpha(s[i]) }
  predicate AllDigits(s: string) { forall i | 0 <= i < |s| :: IsDigit(s[i]) }
  predicate AllUri(s: string) { forall i | 0 <= i < |s| :: !IsCntrl(s[i]) && s[i] != ' ' }
  predicate AllBlank(s: string) { forall i | 0 <= i < |s| :: IsBlank(s[i]) }
  predicate AllName(s: string) { forall i | 0 <= i < |s| :: IsNameChar(s[i]) }
  predicate AllPrintable(s: string) { forall i | 0 <= i < |s| :: !IsCntrl(s[i]) }

  predicate LegalLine(l: Line, after: bool) {
    match l
    case Field(name, value) => name != "" && AllName(name) && AllPrintable(value)
    case Fold(blanks, content) =>
      after && blanks != "" && AllBlank(blanks) && AllPrintable(content) && (content != "" ==> content[0] != ' ')
  }

  /** The lines are legal; the first may be folded only `after` a header field. */
  predicate LegalLines(lines: seq<Line>, after: bool) {
    lines != [] ==> LegalLine(lines[0], after) && LegalLines(lines[1..], true)
  }

  /** How far along the request line a state is. */
  function Phase(s: State): nat {
    match s
    case METHOD_START => 0
    case METHOD => 1
    case URI => 2
    case HTTP_VERSION_H => 3
    case HTTP_VERSION_T_1 => 3
    case HTTP_VERSION_T_2 => 3
    case HTTP_VERSION_P => 3
    case HTTP_VERSION_SLASH => 3
    case HTTP_VERSION_MAJOR_START => 3
    case HTTP_VERSION_MAJOR => 4
    case HTTP_VERSION_MINOR_START => 5
    case HTTP_VERSION_MINOR => 6
    case _ => 7
  }

  /** The states inside a header field, up to the end of its line. */
  predicate InHeader(s: State) {
    s.HEADER_LWS? || s.HEADER_NAME? || s.SPACE_BEFORE_HEADER_VALUE? || s.HEADER_VALUE?
  }

  /** What may come from state `s` on, `after` a header field or not. */
  predicate Legal(s: State, x: Syntax, after: bool) {
    && (Phase(s) <= 1 ==> AllAlpha(x.verb)) && (Phase(s) == 0 ==> x.verb != "")
    && (Phase(s) <= 2 ==> AllUri(x.uri))
    && (Phase(s) <= 4 ==> AllDigits(x.major)) && (Phase(s) <= 3 ==> x.major != "")
    && (Phase(s) <= 6 ==> AllDigits(x.minor)) && (Phase(s) <= 5 ==> x.minor != "")
    && (InHeader(s) ==> AllPrintable(x.value))
    && (s == HEADER_LWS ==> AllBlank(x.blanks) && (x.value != "" ==> x.value[0] != ' '))
    && (s == HEADER_NAME ==> AllName(x.name))
    && (s == EXPECTING_NEWLINE_3 ==> x.lines == [])
    && LegalLines(x.lines, after || NeedsHeader(s))
  }

  // ---------- What a request means ----------

  /** The number that a string of digits continues. */
  function Decimal(n: int, digits: string): int
    decreases |digits|
  {
    if digits == "" then n else Decimal(n * 10 + DigitValue(digits[0]), digits[1..])
  }

  function Extend(headers: seq<Header>, name: string, value: string): seq<Header> {
    if headers == [] then []
    else
      var n := |headers| - 1;
      headers[..n] + [Header(headers[n].name + name, headers[n].value + value)]
  }

  /** Fields add headers; folded lines extend the last header's value by their content. */
  function AddLines(headers: seq<Header>, lines: seq<Line>): seq<Header>
    decreases |lines|
  {
    if lines == [] then headers
    else match lines[0]
      case Field(name, value) => AddLines(headers + [Header(name, value)], lines[1..])
      case Fold(_, content) => AddLines(Extend(headers, "", content), lines[1..])
  }

  /** The request's fields once everything still to come from `s` has been read. */
  function Meaning(s: State, f: Fields, x: Syntax): Fields {
    Fields(
      if Phase(s) <= 1 then f.verb + x.verb else f.verb,
      if Phase(s) <= 2 then f.uri + x.uri else f.uri,
      if Phase(s) <= 3 then Decimal(0, x.major) else if Phase(s) == 4 then Decimal(f.major, x.major) else f.major,
      if Phase(s) <= 5 then Decimal(0, x.minor) else if Phase(s) == 6 then Decimal(f.minor, x.minor) else f.minor,
      AddLines(
        match s
        case HEADER_NAME => Extend(f.headers, x.name, x.value)
        case SPACE_BEFORE_HEADER_VALUE => Extend(f.headers, "", x.value)
        case HEADER_VALUE => Extend(f.headers, "", x.value)
        case HEADER_LWS => Extend(f.headers, "", x.value)
        case _ => f.headers,
        x.lines))
  }

  // ---------- One byte of the text, forwards ----------

  /** The rest of the text after its first byte, as seen from the state that byte leads to. */
  function Rest(s: State, x: Syntax): (State, Syntax)
    requires s != EXPECTING_NEWLINE_3
  {
    match s
    case METHOD_START => (METHOD, if x.verb == "" then x else x.(verb := x.verb[1..]))
    case METHOD => if x.verb == "" then (URI, x) else (METHOD, x.(verb := x.verb[1..]))
    case URI => if x.uri == "" then (HTTP_VERSION_H, x) else (URI, x.(uri := x.uri[1..]))
    case HTTP_VERSION_H => (HTTP_VERSION_T_1, x)
    case HTTP_VERSION_T_1 => (HTTP_VERSION_T_2, x)
    case HTTP_VERSION_T_2 => (HTTP_VERSION_P, x)
    case HTTP_VERSION_P => (HTTP_VERSION_SLASH, x)
    case HTTP_VERSION_SLASH => (HTTP_VERSION_MAJOR_START, x)
    case HTTP_VERSION_MAJOR_START => (HTTP_VERSION_MAJOR, if x.major == "" then x else x.(major := x.major[1..]))
    case HTTP_VERSION_MAJOR =>
      if x.major == "" then (HTTP_VERSION_MINOR_START, x) else (HTTP_VERSION_MAJOR, x.(major := x.major[1..]))
    case HTTP_VERSION_MINOR_START => (HTTP_VERSION_MINOR, if x.minor == "" then x else x.(minor := x.minor[1..]))
    case HTTP_VERSION_MINOR =>
      if x.minor == "" then (EXPECTING_NEWLINE_1, x) else (HTTP_VERSION_MINOR, x.(minor := x.minor[1..]))
    case EXPECTING_NEWLINE_1 => (HEADER_LINE_START, x)
    case HEADER_LINE_START =>
      if x.lines == [] then (EXPECTING_NEWLINE_3, x)
      else (match x.lines[0]
            case Field(name, value) =>
              (HEADER_NAME, x.(name := if name == "" then "" else name[1..], value := value, lines := x.lines[1..]))
            case Fold(blanks, content) =>
              (HEADER_LWS, x.(blanks := if blanks == "" then "" else blanks[1..], value := content,
                  lines := x.lines[1..])))
    case HEADER_LWS =>
      if x.blanks != "" then (HEADER_LWS, x.(blanks := x.blanks[1..]))
      else if x.value != "" then (HEADER_VALUE, x.(value := x.value[1..]))
      else (EXPECTING_NEWLINE_2, x)
    case HEADER_NAME => if x.name == "" then (SPACE_BEFORE_HEADER_VALUE, x) else (HEADER_NAME, x.(name := x.name[1..]))
    case SPACE_BEFORE_HEADER_VALUE => (HEADER_VALUE, x)
    case HEADER_VALUE => if x.value == "" then (EXPECTING_NEWLINE_2, x) else (HEADER_VALUE, x.(value := x.value[1..]))
    case EXPECTING_NEWLINE_2 => (HEADER_LINE_START, x)
  }

  lemma Cut(p: string, r: string)
    ensures p != "" ==> p + r == [p[0]] + (p[1..] + r)
    ensures p == "" ==> p + r == r
  {
  }

  lemma Regroup(a: string, b: string, c: string, d: string)
    ensures (a + (b + c)) + d == a + (b + (c + d))
  {
  }

  /** A first line's text is the text from inside that line. */
  lemma FirstLine(lines: seq<Line>)
    requires lines != []
    ensures FromLines(lines) == match lines[0]
              case Field(name, value) => FromName(name, value, lines[1..])
              case Fold(blanks, content) => FromBlanks(blanks, content, lines[1..])
  {
    var rest := LinesText(lines[1..]);
    match lines[0]
    case Field(name, value) => FieldLine(name, value, rest);
    case Fold(blanks, content) => FoldLine(blanks, content, rest);
  }

  lemma ValueLine(value: string, rest: string)
    ensures value + CRLF + rest == value + ("\r" + ("\n" + rest))
  {
  }

  lemma FieldLine(name: string, value: string, rest: string)
    ensures LineText(Field(name, value)) + rest + CRLF
        == name + (":" + (" " + (value + ("\r" + ("\n" + (rest + CRLF))))))
  {
    var end := rest + CRLF;
    ValueLine(value, end);
    Regroup(name, ": ", value + CRLF, end);
    assert ": " + (value + CRLF + end) == ":" + (" " + (value + CRLF + end));
    assert LineText(Field(name, value)) + rest + CRLF == LineText(Field(name, value)) + end;
  }

  lemma FoldLine(blanks: string, content: string, rest: string)
    ensures LineText(Fold(blanks, content)) + rest + CRLF == blanks + (content + ("\r" + ("\n" + (rest + CRLF))))
  {
    var end := rest + CRLF;
    ValueLine(content, end);
    Regroup(blanks, content, CRLF, end);
    assert LineText(Fold(blanks, content)) + rest + CRLF == LineText(Fold(blanks, content)) + end;
    assert content + CRLF + end == content + (CRLF + end);
  }

  /** The first byte of the text. */
  function First(s: State, x: Syntax): char {
    match s
    case METHOD_START => if x.verb == "" then ' ' else x.verb[0]
    case METHOD => if x.verb == "" then ' ' else x.verb[0]
    case URI => if x.uri == "" then ' ' else x.uri[0]
    case HTTP_VERSION_H => 'H'
    case HTTP_VERSION_T_1 => 'T'
    case HTTP_VERSION_T_2 => 'T'
    case HTTP_VERSION_P => 'P'
    case HTTP_VERSION_SLASH => '/'
    case HTTP_VERSION_MAJOR_START => if x.major == "" then '.' else x.major[0]
    case HTTP_VERSION_MAJOR => if x.major == "" then '.' else x.major[0]
    case HTTP_VERSION_MINOR_START => if x.minor == "" then '\r' else x.minor[0]
    case HTTP_VERSION_MINOR => if x.minor == "" then '\r' else x.minor[0]
    case EXPECTING_NEWLINE_1 => '\n'
    case HEADER_LINE_START =>
      if x.lines == [] then '\r'
      else (match x.lines[0]
            case Field(name, _) => if name == "" then ':' else name[0]
            case Fold(blanks, _) => if blanks == "" then '\r' else blanks[0])
    case HEADER_LWS => if x.blanks != "" then x.blanks[0] else if x.value != "" then x.value[0] else '\r'
    case HEADER_NAME => if x.name == "" then ':' else x.name[0]
    case SPACE_BEFORE_HEADER_VALUE => ' '
    case HEADER_VALUE => if x.value == "" then '\r' else x.value[0]
    case EXPECTING_NEWLINE_2 => '\n'
    case EXPECTING_NEWLINE_3 => '\n'
  }

  lemma MajorText(major: string, minor: string, lines: seq<Line>)
    ensures FromMajor(major, minor, lines)
        == if major == "" then "." + FromMinor(minor, lines) else [major[0]] + FromMajor(major[1..], minor, lines)
  {
    Cut(major, "." + FromMinor(minor, lines));
  }

  lemma MinorText(minor: string, lines: seq<Line>)
    ensures FromMinor(minor, lines)
        == if minor == "" then "\r" + FromNewline(lines) else [minor[0]] + FromMinor(minor[1..], lines)
  {
    Cut(minor, "\r" + FromNewline(lines));
  }

  lemma UriText(uri: string, major: string, minor: string, lines: seq<Line>)
    ensures FromUri(uri, major, minor, lines)
        == if uri == "" then " " + FromH(major, minor, lines) else [uri[0]] + FromUri(uri[1..], major, minor, lines)
  {
    Cut(uri, " " + FromH(major, minor, lines));
  }

  lemma VerbText(verb: string, uri: string, major: string, minor: string, lines: seq<Line>)
    ensures FromVerb(verb, uri, major, minor, lines)
        == if verb == "" then " " + FromUri(uri, major, minor, lines)
           else [verb[0]] + FromVerb(verb[1..], uri, major, minor, lines)
  {
    Cut(verb, " " + FromUri(uri, major, minor, lines));
  }

  lemma NameText(name: string, value: string, lines: seq<Line>)
    ensures FromName(name, value, lines)
        == if name == "" then ":" + FromSpace(value, lines) else [name[0]] + FromName(name[1..], value, lines)
  {
    Cut(name, ":" + FromSpace(value, lines));
  }

  lemma BlanksText(blanks: string, value: string, lines: seq<Line>)
    ensures FromBlanks(blanks, value, lines)
        == if blanks == "" then FromValue(value, lines) else [blanks[0]] + FromBlanks(blanks[1..], value, lines)
  {
    Cut(blanks, FromValue(value, lines));
  }

  lemma ValueText(value: string, lines: seq<Line>)
    ensures FromValue(value, lines)
        == if value == "" then "\r" + FromNewline(lines) else [value[0]] + FromValue(value[1..], lines)
  {
    Cut(value, "\r" + FromNewline(lines));
  }

  /** Reading the first byte off a non-empty text leaves the text of the rest. */
  ghost predicate TextPeels(s: State, x: Syntax)
    requires !s.EXPECTING_NEWLINE_3?
  {
    Remaining(s, x) == [First(s, x)] + Remaining(Rest(s, x).0, Rest(s, x).1)
  }

  lemma RequestLineText(s: State, x: Syntax)
    requires Phase(s) <= 2 && (s.METHOD_START? ==> x.verb != "")
    ensures TextPeels(s, x)
  {
    VerbText(x.verb, x.uri, x.major, x.minor, x.lines);
    UriText(x.uri, x.major, x.minor, x.lines);
  }

  lemma LiteralText(s: State, x: Syntax)
    requires Phase(s) == 3 && !s.HTTP_VERSION_MAJOR_START?
    ensures TextPeels(s, x)
  {
  }

  lemma VersionText(s: State, x: Syntax)
    requires s.HTTP_VERSION_MAJOR_START? || 4 <= Phase(s) <= 6
    requires (s.HTTP_VERSION_MAJOR_START? ==> x.major != "") && (s.HTTP_VERSION_MINOR_START? ==> x.minor != "")
    ensures TextPeels(s, x)
  {
    MajorText(x.major, x.minor, x.lines);
    MinorText(x.minor, x.lines);
  }

  lemma FieldFirst(lines: seq<Line>, name: string, value: string)
    requires lines != [] && lines[0] == Field(name, value) && name != ""
    ensures FromLines(lines) == [name[0]] + FromName(name[1..], value, lines[1..])
  {
    FirstLine(lines);
    NameText(name, value, lines[1..]);
  }

  lemma FoldFirst(lines: seq<Line>, blanks: string, content: string)
    requires lines != [] && lines[0] == Fold(blanks, content) && blanks != ""
    ensures FromLines(lines) == [blanks[0]] + FromBlanks(blanks[1..], content, lines[1..])
  {
    FirstLine(lines);
    BlanksText(blanks, content, lines[1..]);
  }

  lemma LinesPeel(x: Syntax)
    requires LegalLines(x.lines, true)
    ensures TextPeels(HEADER_LINE_START, x)
  {
    if x.lines == [] {
      assert FromLines(x.lines) == "\r" + "\n";
    } else {
      match x.lines[0]
      case Field(name, value) => FieldFirst(x.lines, name, value);
      case Fold(blanks, content) => FoldFirst(x.lines, blanks, content);
    }
  }

  lemma HeaderText(s: State, x: Syntax)
    requires Phase(s) == 7 && !s.EXPECTING_NEWLINE_3? && !s.HEADER_LINE_START?
    ensures TextPeels(s, x)
  {
    BlanksText(x.blanks, x.value, x.lines);
    NameText(x.name, x.value, x.lines);
    ValueText(x.value, x.lines);
  }

  /** The parser accepts the first byte and moves on to where the rest is legal. */
  ghost predicate Accepted(s: State, f: Fields, x: Syntax)
    requires Reachable(s, f) && !s.EXPECTING_NEWLINE_3?
  {
    var step := OneByte(s, f, First(s, x));
    step.Go? && step.state == Rest(s, x).0 && Legal(Rest(s, x).0, Rest(s, x).1, step.fields.headers != [])
  }

  lemma RequestLineAccepted(s: State, f: Fields, x: Syntax)
    requires Phase(s) <= 2 && Legal(s, x, f.headers != [])
    ensures Accepted(s, f, x)
  {
  }

  lemma LiteralAccepted(s: State, f: Fields, x: Syntax)
    requires Phase(s) == 3 && Legal(s, x, f.headers != [])
    ensures Accepted(s, f, x)
  {
  }

  lemma VersionAccepted(s: State, f: Fields, x: Syntax)
    requires 4 <= Phase(s) <= 6 && Legal(s, x, f.headers != [])
    ensures Accepted(s, f, x)
  {
  }

  lemma LineAccepted(f: Fields, x: Syntax)
    requires Legal(HEADER_LINE_START, x, f.headers != [])
    ensures Accepted(HEADER_LINE_START, f, x)
  {
  }

  lemma NewlineAccepted(s: State, f: Fields, x: Syntax)
    requires s.EXPECTING_NEWLINE_1? || s.EXPECTING_NEWLINE_2?
    requires Reachable(s, f) && Legal(s, x, f.headers != [])
    ensures Accepted(s, f, x)
  {
  }

  lemma HeaderAccepted(s: State, f: Fields, x: Syntax)
    requires InHeader(s) && Reachable(s, f) && Legal(s, x, f.headers != [])
    ensures Accepted(s, f, x)
  {
  }

  /** What was read and what is to come mean the same as before. */
  ghost predicate SameMeaning(s: State, f: Fields, x: Syntax)
    requires Reachable(s, f) && !s.EXPECTING_NEWLINE_3?
  {
    var step := OneByte(s, f, First(s, x));
    step.Go? ==> Meaning(Rest(s, x).0, step.fields, Rest(s, x).1) == Meaning(s, f, x)
  }

  lemma ExtendNone(headers: seq<Header>)
    ensures Extend(headers, "", "") == headers
  {
    if headers != [] {
      var h := headers[|headers| - 1];
      assert h.name + "" == h.name && h.value + "" == h.value;
    }
  }

  lemma FieldAdded(headers: seq<Header>, name: string, value: string)
    requires name != ""
    ensures Extend(headers + [Header([name[0]], "")], name[1..], value) == headers + [Header(name, value)]
  {
    assert "" + value == value && [name[0]] + name[1..] == name;
  }

  lemma ExtendTwice(headers: seq<Header>, name: string, value: string, name': string, value': string)
    requires headers != []
    ensures Extend(Extend(headers, name, value), name', value') == Extend(headers, name + name', value + value')
  {
    var h := headers[|headers| - 1];
    assert (h.name + name) + name' == h.name + (name + name');
    assert (h.value + value) + value' == h.value + (value + value');
    assert Extend(headers, name, value)[..|headers| - 1] == headers[..|headers| - 1];
  }

  lemma PushExtends(f: Fields, c: char)
    requires f.headers != []
    ensures PushName(f, c).headers == Extend(f.headers, [c], "")
    ensures PushValue(f, c).headers == Extend(f.headers, "", [c])
  {
    var h := f.headers[|f.headers| - 1];
    assert h.name + "" == h.name && h.value + "" == h.value;
  }

  lemma NameGrows(f: Fields, name: string, value: string)
    requires f.headers != [] && name != ""
    ensures Extend(PushName(f, name[0]).headers, name[1..], value) == Extend(f.headers, name, value)
  {
    PushExtends(f, name[0]);
    ExtendTwice(f.headers, [name[0]], "", name[1..], value);
    assert [name[0]] + name[1..] == name && "" + value == value;
  }

  lemma ValueGrows(f: Fields, value: string)
    requires f.headers != [] && value != ""
    ensures Extend(PushValue(f, value[0]).headers, "", value[1..]) == Extend(f.headers, "", value)
  {
    PushExtends(f, value[0]);
    ExtendTwice(f.headers, "", [value[0]], "", value[1..]);
    assert [value[0]] + value[1..] == value && "" + "" == "";
  }

  lemma RequestLineMeans(s: State, f: Fields, x: Syntax)
    requires Phase(s) <= 2 && Legal(s, x, f.headers != [])
    ensures SameMeaning(s, f, x)
  {
    assert x.verb != "" ==> (f.verb + [x.verb[0]]) + x.verb[1..] == f.verb + x.verb;
    assert x.verb == "" ==> f.verb + x.verb == f.verb;
    assert x.uri != "" ==> (f.uri + [x.uri[0]]) + x.uri[1..] == f.uri + x.uri;
    assert x.uri == "" ==> f.uri + x.uri == f.uri;
  }

  lemma LiteralMeans(s: State, f: Fields, x: Syntax)
    requires Phase(s) == 3 && x.major != ""
    ensures SameMeaning(s, f, x)
  {
  }

  lemma MajorMeans(f: Fields, x: Syntax)
    requires AllDigits(x.major)
    ensures SameMeaning(HTTP_VERSION_MAJOR, f, x)
  {
  }

  lemma MinorStartMeans(f: Fields, x: Syntax)
    requires x.minor != ""
    ensures SameMeaning(HTTP_VERSION_MINOR_START, f, x)
  {
  }

  lemma MinorMeans(f: Fields, x: Syntax)
    requires AllDigits(x.minor)
    ensures SameMeaning(HTTP_VERSION_MINOR, f, x)
  {
  }

  lemma VersionMeans(s: State, f: Fields, x: Syntax)
    requires 4 <= Phase(s) <= 6 && Legal(s, x, f.headers != [])
    ensures SameMeaning(s, f, x)
  {
    if s.HTTP_VERSION_MAJOR? {
      MajorMeans(f, x);
    } else if s.HTTP_VERSION_MINOR_START? {
      MinorStartMeans(f, x);
    } else {
      MinorMeans(f, x);
    }
  }

  /** A header begun with its first character, and the rest of its line, mean the same as the line. */
  lemma FieldMeaning(f: Fields, x: Syntax, name: string, value: string)
    requires name != "" && x.lines != [] && x.lines[0] == Field(name, value)
    ensures Meaning(HEADER_NAME, f.(headers := f.headers + [Header([name[0]], "")]),
                    x.(name := name[1..], value := value, lines := x.lines[1..]))
        == Meaning(HEADER_LINE_START, f, x)
  {
    FieldAdded(f.headers, name, value);
  }

  lemma FieldMeans(f: Fields, x: Syntax, name: string, value: string)
    requires name != "" && IsNameChar(name[0]) && !IsBlank(name[0]) && x.lines != [] && x.lines[0] == Field(name, value)
    ensures SameMeaning(HEADER_LINE_START, f, x)
  {
    FieldMeaning(f, x, name, value);
  }

  lemma FoldMeans(f: Fields, x: Syntax, blanks: string, content: string)
    requires Legal(HEADER_LINE_START, x, f.headers != []) && x.lines != [] && x.lines[0] == Fold(blanks, content)
    ensures SameMeaning(HEADER_LINE_START, f, x)
  {
    assert OneByte(HEADER_LINE_START, f, First(HEADER_LINE_START, x)) == Go(HEADER_LWS, f);
    assert AddLines(f.headers, x.lines) == AddLines(Extend(f.headers, "", content), x.lines[1..]);
  }

  lemma LineMeans(f: Fields, x: Syntax)
    requires Legal(HEADER_LINE_START, x, f.headers != [])
    ensures SameMeaning(HEADER_LINE_START, f, x)
  {
    if x.lines != [] {
      match x.lines[0]
      case Field(name, value) => FieldMeans(f, x, name, value);
      case Fold(blanks, content) => FoldMeans(f, x, blanks, content);
    }
  }

  lemma NameMeans(f: Fields, x: Syntax)
    requires f.headers != [] && Legal(HEADER_NAME, x, true)
    ensures SameMeaning(HEADER_NAME, f, x)
  {
    if x.name != "" {
      NameGrows(f, x.name, x.value);
    }
  }

  lemma ValueMeans(s: State, f: Fields, x: Syntax)
    requires s.HEADER_VALUE? || s.HEADER_LWS?
    requires f.headers != [] && Legal(s, x, true)
    ensures SameMeaning(s, f, x)
  {
    if s.HEADER_LWS? && x.blanks != "" {
      BlankMeans(f, x);
    } else if x.value != "" {
      ValueCharMeans(s, f, x);
    } else {
      ExtendNone(f.headers);
    }
  }

  lemma BlankMeans(f: Fields, x: Syntax)
    requires f.headers != [] && x.blanks != "" && IsBlank(x.blanks[0])
    ensures SameMeaning(HEADER_LWS, f, x)
  {
  }

  lemma ValueCharMeans(s: State, f: Fields, x: Syntax)
    requires f.headers != [] && x.value != "" && !IsCntrl(x.value[0])
    requires s.HEADER_VALUE? || (s.HEADER_LWS? && x.blanks == "" && !IsBlank(x.value[0]))
    ensures SameMeaning(s, f, x)
  {
    ValueGrows(f, x.value);
  }

  /**
   * The parser accepts the first byte of the text; the rest is again a legal text, and what was
   * read and what is to come mean the same as before.
   */
  lemma PeelOne(s: State, f: Fields, x: Syntax)
    requires Reachable(s, f) && !s.EXPECTING_NEWLINE_3? && Legal(s, x, f.headers != [])
    ensures TextPeels(s, x) && Accepted(s, f, x) && SameMeaning(s, f, x)
  {
    if Phase(s) <= 2 {
      RequestLineText(s, x);
      RequestLineAccepted(s, f, x);
      RequestLineMeans(s, f, x);
    } else if Phase(s) <= 6 {
      if s.HTTP_VERSION_MAJOR_START? || Phase(s) > 3 {
        VersionText(s, x);
      } else {
        LiteralText(s, x);
      }
      if Phase(s) == 3 {
        LiteralAccepted(s, f, x);
        LiteralMeans(s, f, x);
      } else {
        VersionAccepted(s, f, x);
        VersionMeans(s, f, x);
      }
    } else if s.HEADER_LINE_START? {
      LinesPeel(x);
      LineAccepted(f, x);
      LineMeans(f, x);
    } else {
      PeelHeader(s, f, x);
    }
  }

  lemma PeelHeader(s: State, f: Fields, x: Syntax)
    requires Phase(s) == 7 && !s.EXPECTING_NEWLINE_3? && !s.HEADER_LINE_START?
    requires Reachable(s, f) && Legal(s, x, f.headers != [])
    ensures TextPeels(s, x) && Accepted(s, f, x) && SameMeaning(s, f, x)
  {
    HeaderText(s, x);
    if InHeader(s) {
      HeaderAccepted(s, f, x);
    } else {
      NewlineAccepted(s, f, x);
    }
    if s.HEADER_NAME? {
      NameMeans(f, x);
    } else if s.HEADER_VALUE? || s.HEADER_LWS? {
      ValueMeans(s, f, x);
    }
  }

  lemma RunOne(s: State, f: Fields, c: char, input: string)
    requires Reachable(s, f)
    ensures var step := OneByte(s, f, c);
            Run(s, f, [c] + input) ==
              if step.Go? then Run(step.state, step.fields, input) else Outcome(step.verdict, s, f)
  {
    assert ([c] + input)[1..] == input;
  }

  lemma RunPast(s: State, f: Fields, text: string, c: char, text': string, after: string)
    requires Reachable(s, f) && OneByte(s, f, c).Go? && text == [c] + text'
    ensures var step := OneByte(s, f, c); Run(s, f, text + after) == Run(step.state, step.fields, text' + after)
  {
    ConsPast(c, text', after);
    RunOne(s, f, c, text' + after);
  }

  lemma ConsPast(c: char, text: string, after: string)
    ensures ([c] + text) + after == [c] + (text + after)
  {
  }

  /** Every legal text is accepted, whatever follows it, with exactly the fields it means. */
  lemma {:induction false} Accepts(s: State, f: Fields, x: Syntax, after: string)
    requires Reachable(s, f) && Legal(s, x, f.headers != [])
    ensures Run(s, f, Remaining(s, x) + after) == Outcome(GOOD, EXPECTING_NEWLINE_3, Meaning(s, f, x))
    decreases |Remaining(s, x)|
  {
    if s == EXPECTING_NEWLINE_3 {
      RunOne(s, f, '\n', after);
    } else {
      PeelOne(s, f, x);
      var rest := Rest(s, x);
      RunPast(s, f, Remaining(s, x), First(s, x), Remaining(rest.0, rest.1), after);
      Accepts(rest.0, OneByte(s, f, First(s, x)).fields, rest.1, after);
    }
  }

  // ---------- One byte of an accepted text, backwards ----------

  /** The parts that lie behind a state are empty. */
  predicate Tidy(s: State, x: Syntax) {
    && (Phase(s) >= 2 ==> x.verb == "") && (Phase(s) >= 3 ==> x.uri == "")
    && (Phase(s) >= 5 ==> x.major == "") && (Phase(s) >= 7 ==> x.minor == "")
    && (s != HEADER_LWS ==> x.blanks == "") && (s != HEADER_NAME ==> x.name == "")
    && (!InHeader(s) ==> x.value == "")
  }

  /** The syntax of a text whose first byte `c` leads from `s` to the syntax `x` in state `s'`. */
  function Back(s: State, c: char, s': State, x: Syntax): Syntax {
    match s'
    case METHOD => x.(verb := [c] + x.verb)
    case URI => if s == METHOD then x else x.(uri := [c] + x.uri)
    case HTTP_VERSION_MAJOR => x.(major := [c] + x.major)
    case HTTP_VERSION_MINOR => x.(minor := [c] + x.minor)
    case HEADER_NAME =>
      if s == HEADER_NAME then x.(name := [c] + x.name)
      else x.(name := "", value := "", lines := [Field([c] + x.name, x.value)] + x.lines)
    case HEADER_LWS =>
      if s == HEADER_LWS then x.(blanks := [c] + x.blanks)
      else x.(blanks := "", value := "", lines := [Fold([c] + x.blanks, x.value)] + x.lines)
    case HEADER_VALUE => if s == SPACE_BEFORE_HEADER_VALUE then x else x.(value := [c] + x.value)
    case _ => x
  }

  /** Going back one byte and then reading it again. */
  ghost predicate GoesBack(s: State, f: Fields, c: char, x: Syntax)
    requires Reachable(s, f) && OneByte(s, f, c).Go?
  {
    var s' := OneByte(s, f, c).state;
    var whole := Back(s, c, s', x);
    && Legal(s, whole, f.headers != []) && Tidy(s, whole)
    && s != EXPECTING_NEWLINE_3 && First(s, whole) == c && Rest(s, whole) == (s', x)
  }

  /** What a step from `s` may be followed by. */
  ghost predicate Follows(s: State, f: Fields, c: char, x: Syntax)
    requires Reachable(s, f)
  {
    var step := OneByte(s, f, c);
    step.Go? && Legal(step.state, x, step.fields.headers != []) && Tidy(step.state, x)
  }

  lemma VerbBack(s: State, f: Fields, c: char, x: Syntax)
    requires Phase(s) <= 1 && Follows(s, f, c, x)
    ensures GoesBack(s, f, c, x)
  {
  }

  lemma UriBack(f: Fields, c: char, x: Syntax)
    requires Follows(URI, f, c, x)
    ensures GoesBack(URI, f, c, x)
  {
  }

  lemma LiteralBack(s: State, f: Fields, c: char, x: Syntax)
    requires Phase(s) == 3 && !s.HTTP_VERSION_MAJOR_START? && Follows(s, f, c, x)
    ensures GoesBack(s, f, c, x)
  {
  }

  lemma MajorStartBack(f: Fields, c: char, x: Syntax)
    requires Follows(HTTP_VERSION_MAJOR_START, f, c, x)
    ensures GoesBack(HTTP_VERSION_MAJOR_START, f, c, x)
  {
  }

  lemma MajorBack(f: Fields, c: char, x: Syntax)
    requires Follows(HTTP_VERSION_MAJOR, f, c, x)
    ensures GoesBack(HTTP_VERSION_MAJOR, f, c, x)
  {
  }

  lemma MinorStartBack(f: Fields, c: char, x: Syntax)
    requires Follows(HTTP_VERSION_MINOR_START, f, c, x)
    ensures GoesBack(HTTP_VERSION_MINOR_START, f, c, x)
  {
  }

  lemma MinorBack(f: Fields, c: char, x: Syntax)
    requires Follows(HTTP_VERSION_MINOR, f, c, x)
    ensures GoesBack(HTTP_VERSION_MINOR, f, c, x)
  {
  }

  lemma NewlineBack(s: State, f: Fields, c: char, x: Syntax)
    requires s.EXPECTING_NEWLINE_1? || s.EXPECTING_NEWLINE_2?
    requires Reachable(s, f) && Follows(s, f, c, x)
    ensures GoesBack(s, f, c, x)
  {
  }

  lemma LineBack(f: Fields, c: char, x: Syntax)
    requires Reachable(HEADER_LINE_START, f) && Follows(HEADER_LINE_START, f, c, x)
    ensures GoesBack(HEADER_LINE_START, f, c, x)
  {
    if IsBlank(c) {
      FoldBack(f, c, x);
    } else if c != '\r' {
      FieldBack(f, c, x);
    }
  }

  lemma FoldBack(f: Fields, c: char, x: Syntax)
    requires IsBlank(c) && Reachable(HEADER_LINE_START, f) && Follows(HEADER_LINE_START, f, c, x)
    ensures GoesBack(HEADER_LINE_START, f, c, x)
  {
    assert Back(HEADER_LINE_START, c, HEADER_LWS, x).lines[1..] == x.lines;
  }

  lemma FieldBack(f: Fields, c: char, x: Syntax)
    requires c != '\r' && !IsBlank(c) && Reachable(HEADER_LINE_START, f) && Follows(HEADER_LINE_START, f, c, x)
    ensures GoesBack(HEADER_LINE_START, f, c, x)
  {
    assert Back(HEADER_LINE_START, c, HEADER_NAME, x).lines[1..] == x.lines;
  }

  lemma NameBack(f: Fields, c: char, x: Syntax)
    requires Reachable(HEADER_NAME, f) && Follows(HEADER_NAME, f, c, x)
    ensures GoesBack(HEADER_NAME, f, c, x)
  {
  }

  lemma SpaceBack(f: Fields, c: char, x: Syntax)
    requires Reachable(SPACE_BEFORE_HEADER_VALUE, f) && Follows(SPACE_BEFORE_HEADER_VALUE, f, c, x)
    ensures GoesBack(SPACE_BEFORE_HEADER_VALUE, f, c, x)
  {
  }

  lemma ValueBack(f: Fields, c: char, x: Syntax)
    requires Reachable(HEADER_VALUE, f) && Follows(HEADER_VALUE, f, c, x)
    ensures GoesBack(HEADER_VALUE, f, c, x)
  {
  }

  lemma BlankBack(f: Fields, c: char, x: Syntax)
    requires Reachable(HEADER_LWS, f) && Follows(HEADER_LWS, f, c, x)
    ensures GoesBack(HEADER_LWS, f, c, x)
  {
    if IsBlank(c) {
      assert Back(HEADER_LWS, c, HEADER_LWS, x) == x.(blanks := [c] + x.blanks);
    }
  }

  lemma OneBack(s: State, f: Fields, c: char, x: Syntax)
    requires Reachable(s, f) && Follows(s, f, c, x)
    ensures GoesBack(s, f, c, x)
  {
    if Phase(s) <= 1 {
      VerbBack(s, f, c, x);
    } else if s.URI? {
      UriBack(f, c, x);
    } else if s.HTTP_VERSION_MAJOR_START? {
      MajorStartBack(f, c, x);
    } else if Phase(s) == 3 {
      LiteralBack(s, f, c, x);
    } else if s.HTTP_VERSION_MAJOR? {
      MajorBack(f, c, x);
    } else if s.HTTP_VERSION_MINOR_START? {
      MinorStartBack(f, c, x);
    } else if s.HTTP_VERSION_MINOR? {
      MinorBack(f, c, x);
    } else if s.EXPECTING_NEWLINE_1? || s.EXPECTING_NEWLINE_2? {
      NewlineBack(s, f, c, x);
    } else {
      HeaderBack(s, f, c, x);
    }
  }

  lemma HeaderBack(s: State, f: Fields, c: char, x: Syntax)
    requires s.HEADER_LINE_START? || InHeader(s)
    requires Reachable(s, f) && Follows(s, f, c, x)
    ensures GoesBack(s, f, c, x)
  {
    if s.HEADER_LINE_START? {
      LineBack(f, c, x);
    } else if s.HEADER_NAME? {
      NameBack(f, c, x);
    } else if s.HEADER_LWS? {
      BlankBack(f, c, x);
    } else if s.HEADER_VALUE? {
      ValueBack(f, c, x);
    } else {
      SpaceBack(f, c, x);
    }
  }

  /** The text of the syntax so built is the byte and the text it was built from. */
  lemma BackText(s: State, f: Fields, c: char, x: Syntax) returns (whole: Syntax)
    requires Reachable(s, f) && Follows(s, f, c, x)
    ensures Legal(s, whole, f.headers != []) && Tidy(s, whole)
    ensures Remaining(s, whole) == [c] + Remaining(OneByte(s, f, c).state, x)
  {
    OneBack(s, f, c, x);
    whole := Back(s, c, OneByte(s, f, c).state, x);
    PeelOne(s, f, whole);
  }

  /** Every accepted input starts with a legal text. */
  lemma {:induction false} Understand(s: State, f: Fields, input: string) returns (x: Syntax)
    requires Reachable(s, f) && Run(s, f, input).verdict == GOOD
    ensures Legal(s, x, f.headers != []) && Tidy(s, x) && Remaining(s, x) <= input
    decreases |input|
  {
    var c, rest := input[0], input[1..];
    assert input == [c] + rest;
    RunOne(s, f, c, rest);
    var step := OneByte(s, f, c);
    if step.Stop? {
      x := Syntax("", "", "", "", "", "", "", []);
    } else {
      var x' := Understand(step.state, step.fields, rest);
      x := BackText(s, f, c, x');
      Prefixed(c, Remaining(step.state, x'), rest);
    }
  }

  lemma Prefixed(c: char, a: string, b: string)
    requires a <= b
    ensures [c] + a <= [c] + b
  {
  }
}
