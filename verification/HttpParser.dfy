/** The incremental request parser: a byte machine whose state survives between reads. */
module HttpParser {
  import opened Requests

  datatype State =
    | METHOD_START | METHOD | URI
    | HTTP_VERSION_H | HTTP_VERSION_T_1 | HTTP_VERSION_T_2 | HTTP_VERSION_P | HTTP_VERSION_SLASH
    | HTTP_VERSION_MAJOR_START | HTTP_VERSION_MAJOR | HTTP_VERSION_MINOR_START | HTTP_VERSION_MINOR
    | EXPECTING_NEWLINE_1 | HEADER_LINE_START | HEADER_LWS | HEADER_NAME
    | SPACE_BEFORE_HEADER_VALUE | HEADER_VALUE | EXPECTING_NEWLINE_2 | EXPECTING_NEWLINE_3

  datatype Verdict = GOOD | BAD | INDETERMINATE

  predicate IsAlpha(c: char) {
    'A' <= c <= 'Z' || 'a' <= c <= 'z'
  }

  predicate IsDigit(c: char) {
    '0' <= c <= '9'
  }

  predicate IsCntrl(c: char) {
    c < ' ' || c == '\U{007F}'
  }

  function DigitValue(c: char): int {
    c as int - '0' as int
  }

  /** The fields the parser fills. */
  datatype Fields = Fields(verb: string, uri: string, major: int, minor: int, headers: seq<Header>)

  const NO_FIELDS := Fields("", "", 0, 0, [])

  /** The states in which the last header is written to. */
  predicate NeedsHeader(s: State) {
    s.HEADER_LWS? || s.HEADER_NAME? || s.SPACE_BEFORE_HEADER_VALUE? || s.HEADER_VALUE? || s.EXPECTING_NEWLINE_2?
  }

  /** What the parser can have reached: a last header exists wherever one is written to. */
  predicate Reachable(s: State, f: Fields) {
    NeedsHeader(s) ==> f.headers != []
  }

  function PushName(f: Fields, c: char): Fields
    requires f.headers != []
  {
    var n := |f.headers| - 1;
    f.(headers := f.headers[n := f.headers[n].(name := f.headers[n].name + [c])])
  }

  function PushValue(f: Fields, c: char): Fields
    requires f.headers != []
  {
    var n := |f.headers| - 1;
    f.(headers := f.headers[n := f.headers[n].(value := f.headers[n].value + [c])])
  }

  /** One byte: on to a state with updated fields, or a verdict. */
  datatype Step = Go(state: State, fields: Fields) | Stop(verdict: Verdict)

  function Expect(c: char, wanted: char, next: State, f: Fields): Step {
    if c == wanted then Go(next, f) else Stop(BAD)
  }

  function OneByte(s: State, f: Fields, c: char): (r: Step)
    requires Reachable(s, f)
    ensures r.Go? ==> Reachable(r.state, r.fields)
    ensures r.Stop? ==> r.verdict != INDETERMINATE
  {
    match s
    case METHOD_START =>
      if IsAlpha(c) then Go(METHOD, f.(verb := f.verb + [c])) else Stop(BAD)
    case METHOD =>
      if c == ' ' then Go(URI, f)
      else if IsAlpha(c) then Go(METHOD, f.(verb := f.verb + [c]))
      else Stop(BAD)
    case URI =>
      if c == ' ' then Go(HTTP_VERSION_H, f)
      else if IsCntrl(c) then Stop(BAD)
      else Go(URI, f.(uri := f.uri + [c]))
    case HTTP_VERSION_H => Expect(c, 'H', HTTP_VERSION_T_1, f)
    case HTTP_VERSION_T_1 => Expect(c, 'T', HTTP_VERSION_T_2, f)
    case HTTP_VERSION_T_2 => Expect(c, 'T', HTTP_VERSION_P, f)
    case HTTP_VERSION_P => Expect(c, 'P', HTTP_VERSION_SLASH, f)
    case HTTP_VERSION_SLASH => Expect(c, '/', HTTP_VERSION_MAJOR_START, f)
    case HTTP_VERSION_MAJOR_START =>
      if IsDigit(c) then Go(HTTP_VERSION_MAJOR, f.(major := DigitValue(c))) else Stop(BAD)
    case HTTP_VERSION_MAJOR =>
      if c == '.' then Go(HTTP_VERSION_MINOR_START, f)
      else if IsDigit(c) then Go(HTTP_VERSION_MAJOR, f.(major := f.major * 10 + DigitValue(c)))
      else Stop(BAD)
    case HTTP_VERSION_MINOR_START =>
      if IsDigit(c) then Go(HTTP_VERSION_MINOR, f.(minor := DigitValue(c))) else Stop(BAD)
    case HTTP_VERSION_MINOR =>
      if c == '\r' then Go(EXPECTING_NEWLINE_1, f)
      else if IsDigit(c) then Go(HTTP_VERSION_MINOR, f.(minor := f.minor * 10 + DigitValue(c)))
      else Stop(BAD)
    case EXPECTING_NEWLINE_1 => Expect(c, '\n', HEADER_LINE_START, f)
    case HEADER_LINE_START =>
      if c == '\r' then Go(EXPECTING_NEWLINE_3, f)
      else if f.headers != [] && IsBlank(c) then Go(HEADER_LWS, f)
      else if IsNameChar(c) then Go(HEADER_NAME, f.(headers := f.headers + [Header([c], "")]))
      else Stop(BAD)
    case HEADER_LWS =>
      if c == '\r' then Go(EXPECTING_NEWLINE_2, f)
      else if IsBlank(c) then Go(HEADER_LWS, f)
      else if !IsCntrl(c) then Go(HEADER_VALUE, PushValue(f, c))
      else Stop(BAD)
    case HEADER_NAME =>
      if c == ':' then Go(SPACE_BEFORE_HEADER_VALUE, f)
      else if !IsCntrl(c) && c != ' ' then Go(HEADER_NAME, PushName(f, c))
      else Stop(BAD)
    case SPACE_BEFORE_HEADER_VALUE => Expect(c, ' ', HEADER_VALUE, f)
    case HEADER_VALUE =>
      if c == '\r' then Go(EXPECTING_NEWLINE_2, f)
      else if IsCntrl(c) then Stop(BAD)
      else Go(HEADER_VALUE, PushValue(f, c))
    case EXPECTING_NEWLINE_2 => Expect(c, '\n', HEADER_LINE_START, f)
    case EXPECTING_NEWLINE_3 => Stop(if c == '\n' then GOOD else BAD)
  }

  predicate IsBlank(c: char) {
    c == ' ' || c == '\t'
  }

  predicate IsNameChar(c: char) {
    !IsCntrl(c) && c != ':' && c != ' '
  }

  /** Where a run over some bytes ends: the verdict, and the state and fields left behind. */
  datatype Outcome = Outcome(verdict: Verdict, state: State, fields: Fields)

  function Run(s: State, f: Fields, input: string): (r: Outcome)
    requires Reachable(s, f)
    ensures Reachable(r.state, r.fields)
    decreases |input|
  {
    if input == "" then Outcome(INDETERMINATE, s, f)
    else match OneByte(s, f, input[0])
      case Go(s', f') => Run(s', f', input[1..])
      case Stop(verdict) => Outcome(verdict, s, f)
  }

  class Parser {
    var state: State

    constructor ()
      ensures state == METHOD_START
    {
      state := METHOD_START;
    }

    /** Reads bytes until a verdict or the end, advancing the state and filling the request in place. */
    method Parse(req: Request, input: string) returns (verdict: Verdict)
      requires Reachable(state, FieldsOf(req))
      modifies this, req
      ensures Outcome(verdict, state, FieldsOf(req)) == Run(old(state), old(FieldsOf(req)), input)
      ensures req.body == old(req.body)
    {
      ghost var whole := Run(state, FieldsOf(req), input);
      var i := 0;
      while i < |input|
        invariant 0 <= i <= |input| && req.body == old(req.body)
        invariant Reachable(state, FieldsOf(req)) && Run(state, FieldsOf(req), input[i..]) == whole
      {
        var c := input[i];
        assert input[i..][0] == c && input[i..][1..] == input[i + 1..];
        i := i + 1;
        verdict := Consume(req, c);
        if verdict != INDETERMINATE {
          return;
        }
      }
      verdict := INDETERMINATE;
    }

    /** The switch on the state, for one byte; INDETERMINATE goes on to the next. */
    method Consume(req: Request, c: char) returns (verdict: Verdict)
      requires Reachable(state, FieldsOf(req))
      modifies this, req
      ensures req.body == old(req.body)
      ensures OneByte(old(state), old(FieldsOf(req)), c)
              == if verdict == INDETERMINATE then Go(state, FieldsOf(req)) else Stop(verdict)
      ensures verdict != INDETERMINATE ==> state == old(state) && FieldsOf(req) == old(FieldsOf(req))
    {
      match state {
        case METHOD_START =>
          if !IsAlpha(c) {
            return BAD;
          }
          req.verb := req.verb + [c];
          state := METHOD;
        case METHOD =>
          if c == ' ' {
            state := URI;
          } else if !IsAlpha(c) {
            return BAD;
          } else {
            req.verb := req.verb + [c];
          }
        case URI =>
          if c == ' ' {
            state := HTTP_VERSION_H;
          } else if IsCntrl(c) {
            return BAD;
          } else {
            req.uri := req.uri + [c];
          }
        case HTTP_VERSION_H =>
          if c != 'H' {
            return BAD;
          }
          state := HTTP_VERSION_T_1;
        case HTTP_VERSION_T_1 =>
          if c != 'T' {
            return BAD;
          }
          state := HTTP_VERSION_T_2;
        case HTTP_VERSION_T_2 =>
          if c != 'T' {
            return BAD;
          }
          state := HTTP_VERSION_P;
        case HTTP_VERSION_P =>
          if c != 'P' {
            return BAD;
          }
          state := HTTP_VERSION_SLASH;
        case HTTP_VERSION_SLASH =>
          if c != '/' {
            return BAD;
          }
          state := HTTP_VERSION_MAJOR_START;
        case HTTP_VERSION_MAJOR_START =>
          if !IsDigit(c) {
            return BAD;
          }
          req.httpVersionMajor := DigitValue(c);
          state := HTTP_VERSION_MAJOR;
        case HTTP_VERSION_MAJOR =>
          if c == '.' {
            state := HTTP_VERSION_MINOR_START;
          } else if IsDigit(c) {
            req.httpVersionMajor := req.httpVersionMajor * 10 + DigitValue(c);
          } else {
            return BAD;
          }
        case HTTP_VERSION_MINOR_START =>
          if !IsDigit(c) {
            return BAD;
          }
          req.httpVersionMinor := DigitValue(c);
          state := HTTP_VERSION_MINOR;
        case HTTP_VERSION_MINOR =>
          if c == '\r' {
            state := EXPECTING_NEWLINE_1;
          } else if IsDigit(c) {
            req.httpVersionMinor := req.httpVersionMinor * 10 + DigitValue(c);
          } else {
            return BAD;
          }
        case EXPECTING_NEWLINE_1 =>
          if c != '\n' {
            return BAD;
          }
          state := HEADER_LINE_START;
        case HEADER_LINE_START =>
          if c == '\r' {
            state := EXPECTING_NEWLINE_3;
          } else if req.headers != [] && (c == ' ' || c == '\t') {
            state := HEADER_LWS;
          } else if !IsCntrl(c) && c != ':' && c != ' ' {
            ghost var before := req.headers;
            req.headers := req.headers + [Header("", "")];
            req.PushBackName(c);
            assert req.headers == before + [Header([c], "")] by {
              assert "" + [c] == [c];
            }
            state := HEADER_NAME;
          } else {
            return BAD;
          }
        case HEADER_LWS =>
          if c == '\r' {
            state := EXPECTING_NEWLINE_2;
          } else if c == ' ' || c == '\t' {
          } else if !IsCntrl(c) {
            req.PushBackValue(c);
            state := HEADER_VALUE;
          } else {
            return BAD;
          }
        case HEADER_NAME =>
          if c == ':' {
            state := SPACE_BEFORE_HEADER_VALUE;
          } else if !IsCntrl(c) && c != ' ' {
            req.PushBackName(c);
          } else {
            return BAD;
          }
        case SPACE_BEFORE_HEADER_VALUE =>
          if c != ' ' {
            return BAD;
          }
          state := HEADER_VALUE;
        case HEADER_VALUE =>
          if c == '\r' {
            state := EXPECTING_NEWLINE_2;
          } else if IsCntrl(c) {
            return BAD;
          } else {
            req.PushBackValue(c);
          }
        case EXPECTING_NEWLINE_2 =>
          if c != '\n' {
            return BAD;
          }
          state := HEADER_LINE_START;
        case EXPECTING_NEWLINE_3 =>
          return if c == '\n' then GOOD else BAD;
      }
      verdict := INDETERMINATE;
    }
  }

  function FieldsOf(req: Request): Fields
    reads req
  {
    Fields(req.verb, req.uri, req.httpVersionMajor, req.httpVersionMinor, req.headers)
  }
}
