/** The request object and the parsers of its query string and cookies. */
module Requests {
  import opened Text

  datatype Header = Header(name: string, value: string)

  class Request {
    var verb: string
    var uri: string
    var httpVersionMajor: int
    var httpVersionMinor: int
    var headers: seq<Header>
    var body: string

    constructor ()
      ensures verb == "" && uri == "" && headers == [] && body == ""
    {
      verb, uri, headers, body := "", "", [], "";
    }

    /** Appends to the last header's name. */
    method PushBackName(c: char)
      requires headers != []
      modifies this`headers
      ensures headers == old(headers)[|old(headers)| - 1 :=
          old(headers)[|old(headers)| - 1].(name := old(headers)[|old(headers)| - 1].name + [c])]
    {
      var n := |headers| - 1;
      headers := headers[n := headers[n].(name := headers[n].name + [c])];
    }

    /** Appends to the last header's value. */
    method PushBackValue(c: char)
      requires headers != []
      modifies this`headers
      ensures headers == old(headers)[|old(headers)| - 1 :=
          old(headers)[|old(headers)| - 1].(value := old(headers)[|old(headers)| - 1].value + [c])]
    {
      var n := |headers| - 1;
      headers := headers[n := headers[n].(value := headers[n].value + [c])];
    }

    function GetPath(): string
      reads this
    {
      uri[..IndexOf(uri, '?')]
    }

    function GetHeader(name: string): string
      reads this
    {
      FirstValue(headers, name)
    }

    /** What a printed URI has in front of its question mark, and the first header of a name. */
    lemma ReadsItself(path: string, query: string, name: string) returns (i: nat)
      requires '?' !in path
      ensures uri == path || uri == path + "?" + query ==> GetPath() == path
      ensures i <= |headers| && forall j | 0 <= j < i :: headers[j].name != name
      ensures GetHeader(name) == if i < |headers| then headers[i].value else ""
      ensures i < |headers| ==> headers[i].name == name
    {
      i := FirstOfName(headers, name);
      QuestionMark(path, query);
      IndexOfFirst(path, '?');
    }

    method GetQueryParams() returns (params: map<string, string>)
      ensures params == QueryParams(uri)
    {
      params := map[];
      var pos := IndexOf(uri, '?');
      if pos < |uri| {
        params := ScanQuery(uri[pos + 1..]);
      }
    }
  }

  /** The value of the first header of that name, or the empty string. */
  function FirstValue(headers: seq<Header>, name: string): (v: string)
    ensures (forall h | h in headers :: h.name != name) ==> v == ""
    ensures v != "" ==> Header(name, v) in headers
  {
    if headers == [] then ""
    else if headers[0].name == name then headers[0].value
    else FirstValue(headers[1..], name)
  }

  /** It is the first such header that counts. */
  lemma {:induction false} FirstOfName(headers: seq<Header>, name: string) returns (i: nat)
    ensures i <= |headers| && forall j | 0 <= j < i :: headers[j].name != name
    ensures if i < |headers| then headers[i].name == name && FirstValue(headers, name) == headers[i].value
            else FirstValue(headers, name) == ""
  {
    if headers == [] || headers[0].name == name {
      i := 0;
    } else {
      var k := FirstOfName(headers[1..], name);
      i := k + 1;
      assert forall j | 0 < j < i :: headers[j] == headers[1..][j - 1];
    }
  }

  // ---------- The query string ----------

  /** The last two `=`-separated parts of a piece; without a `=` the key is carried over. */
  function KeyOf(carried: string, piece: string): string {
    var parts := SplitOn(piece, '=');
    if |parts| >= 2 then parts[|parts| - 2] else carried
  }

  function ValueOf(piece: string): string {
    var parts := SplitOn(piece, '=');
    parts[|parts| - 1]
  }

  /** The key in force after the pieces: that of the last one, or one carried over. */
  function LastKey(pieces: seq<string>): string {
    if pieces == [] then "" else KeyOf(LastKey(pieces[..|pieces| - 1]), pieces[|pieces| - 1])
  }

  /** Reads the pieces between ampersands from left to right; later pairs replace earlier ones. */
  function ParamsOf(pieces: seq<string>): map<string, string> {
    if pieces == [] then map[]
    else ParamsOf(pieces[..|pieces| - 1])[LastKey(pieces) := ValueOf(pieces[|pieces| - 1])]
  }

  function QueryParams(uri: string): map<string, string> {
    var pos := IndexOf(uri, '?');
    if pos < |uri| then ParamsOf(SplitOn(uri[pos + 1..], '&')) else map[]
  }

  lemma PieceGrows(carried: string, piece: string, c: char)
    ensures if c == '='
            then KeyOf(carried, piece + [c]) == ValueOf(piece) && ValueOf(piece + [c]) == ""
            else KeyOf(carried, piece + [c]) == KeyOf(carried, piece) && ValueOf(piece + [c]) == ValueOf(piece) + [c]
  {
    SplitSnoc(piece, c, '=');
  }

  /** The pieces read so far and one more. */
  lemma OneMorePiece(all: seq<string>, k: nat, piece: string)
    requires k < |all| && all[k] == piece
    ensures LastKey(all[..k + 1]) == KeyOf(LastKey(all[..k]), piece)
    ensures ParamsOf(all[..k + 1]) == ParamsOf(all[..k])[LastKey(all[..k + 1]) := ValueOf(piece)]
  {
    assert all[..k + 1][..k] == all[..k];
  }

  /** The scan is in a piece that starts at `from` and knows its key and value so far. */
  ghost predicate InPiece(query: string, i: nat, from: nat, start: nat, carried: string, key: string) {
    && from <= start <= i <= |query| && '&' !in query[from..i]
    && key == KeyOf(carried, query[from..i]) && query[start..i] == ValueOf(query[from..i])
  }

  lemma PieceBegins(query: string, i: nat, carried: string)
    requires i <= |query|
    ensures InPiece(query, i, i, i, carried, carried)
  {
    assert query[i..i] == "";
    assert SplitOn("", '=') == [""];
  }

  lemma PieceGoesOn(query: string, i: nat, from: nat, start: nat, carried: string, key: string)
    requires InPiece(query, i, from, start, carried, key) && i < |query| && query[i] != '&'
    ensures if query[i] == '=' then InPiece(query, i + 1, from, i + 1, carried, query[start..i])
            else InPiece(query, i + 1, from, start, carried, key)
  {
    PieceGrows(carried, query[from..i], query[i]);
    assert query[from..i + 1] == query[from..i] + [query[i]];
    if query[i] != '=' {
      assert query[start..i + 1] == query[start..i] + [query[i]];
    }
  }

  /** An ampersand, or the end of the string, completes piece `k`. */
  lemma PieceEnds(query: string, i: nat, from: nat, all: seq<string>, k: nat)
    requires from <= i <= |query| && '&' !in query[from..i] && (i == |query| || query[i] == '&')
    requires k <= |all| && all[k..] == SplitOn(query[from..], '&')
    ensures k < |all| && all[k] == query[from..i]
    ensures if i < |query| then all[k + 1..] == SplitOn(query[i + 1..], '&') else k + 1 == |all|
  {
    if i < |query| {
      assert query[from..] == query[from..i] + ['&'] + query[i + 1..];
      SplitCons(query[from..i], query[i + 1..], '&');
    } else {
      assert query[from..] == query[from..i];
      SplitAtom(query[from..i], '&');
    }
    assert all[k] == all[k..][0] && all[k + 1..] == all[k..][1..];
  }

  /** The single pass over the characters, against the pieces. */
  method ScanQuery(query: string) returns (params: map<string, string>)
    ensures params == ParamsOf(SplitOn(query, '&'))
  {
    params := map[];
    var key, start: nat := "", 0;
    ghost var all, k: nat, from: nat := SplitOn(query, '&'), 0, 0;
    assert query[0..] == query && all[0..] == all;
    PieceBegins(query, 0, "");
    for i := 0 to |query|
      invariant k <= |all| && from <= |query|
      invariant InPiece(query, i, from, start, LastKey(all[..k]), key)
      invariant all[k..] == SplitOn(query[from..], '&')
      invariant params == ParamsOf(all[..k])
    {
      if query[i] == '=' {
        PieceGoesOn(query, i, from, start, LastKey(all[..k]), key);
        key := query[start..i];
        start := i + 1;
      } else if query[i] == '&' {
        PieceEnds(query, i, from, all, k);
        OneMorePiece(all, k, query[from..i]);
        params := params[key := query[start..i]];
        start := i + 1;
        PieceBegins(query, i + 1, key);
        k, from := k + 1, i + 1;
      } else {
        PieceGoesOn(query, i, from, start, LastKey(all[..k]), key);
      }
    }
    PieceEnds(query, |query|, from, all, k);
    OneMorePiece(all, k, query[from..|query|]);
    assert all[..k + 1] == all && query[start..|query|] == query[start..];
    params := params[key := query[start..]];
  }

  // ---------- Printing a query and reading it back ----------

  type Pair = (string, string)

  function PrintPair(p: Pair): string {
    p.0 + "=" + p.1
  }

  /** Later pairs replace earlier ones with the same key. */
  function LastWins(pairs: seq<Pair>): map<string, string> {
    if pairs == [] then map[]
    else LastWins(pairs[..|pairs| - 1])[pairs[|pairs| - 1].0 := pairs[|pairs| - 1].1]
  }

  /**
   * What may stand between two ampersands: a value alone, or a key and a value, with anything more in front
   * set off by equals signs.
   */
  datatype QueryPiece = Bare(value: string) | Keyed(lead: seq<string>, key: string, value: string)

  ghost predicate PlainText(s: string) {
    '=' !in s && '&' !in s
  }

  ghost predicate PlainQuery(pieces: seq<QueryPiece>) {
    forall p | p in pieces ::
      PlainText(p.value) && (p.Keyed? ==> PlainText(p.key) && forall s | s in p.lead :: PlainText(s))
  }

  function PrintQueryPiece(p: QueryPiece): string {
    match p
    case Bare(value) => value
    case Keyed(lead, key, value) => Join(lead + [key, value], '=')
  }

  function PrintQuery(pieces: seq<QueryPiece>): (r: seq<string>)
    ensures |r| == |pieces|
  {
    seq(|pieces|, i requires 0 <= i < |pieces| => PrintQueryPiece(pieces[i]))
  }

  /** The pairs meant: a bare value goes with the key before it, and with the empty key at the start. */
  function PairsMeant(pieces: seq<QueryPiece>, before: string): seq<Pair>
    decreases |pieces|
  {
    if pieces == [] then []
    else
      var key := if pieces[0].Keyed? then pieces[0].key else before;
      [(key, pieces[0].value)] + PairsMeant(pieces[1..], key)
  }

  lemma PairSplits(p: Pair)
    requires '=' !in p.0 && '=' !in p.1
    ensures SplitOn(PrintPair(p), '=') == [p.0, p.1]
  {
    assert PrintPair(p) == p.0 + ['='] + p.1;
    SplitCons(p.0, p.1, '=');
    SplitAtom(p.1, '=');
  }

  lemma {:induction false} JoinedPlain(parts: seq<string>)
    requires forall s | s in parts :: '&' !in s
    ensures '&' !in Join(parts, '=')
  {
    if |parts| > 1 {
      JoinedPlain(parts[1..]);
    }
  }

  lemma QueryPieceReads(carried: string, p: QueryPiece)
    requires PlainQuery([p])
    ensures '&' !in PrintQueryPiece(p) && ValueOf(PrintQueryPiece(p)) == p.value
    ensures KeyOf(carried, PrintQueryPiece(p)) == if p.Keyed? then p.key else carried
  {
    assert p in [p];
    match p
    case Bare(value) => SplitAtom(value, '=');
    case Keyed(lead, key, value) =>
      SplitJoin(lead + [key, value], '=');
      JoinedPlain(lead + [key, value]);
  }

  lemma {:induction false} PairsMeantSnoc(pieces: seq<QueryPiece>, before: string, p: QueryPiece)
    ensures var pairs := PairsMeant(pieces, before);
            var key := if p.Keyed? then p.key else if pairs == [] then before else pairs[|pairs| - 1].0;
            PairsMeant(pieces + [p], before) == pairs + [(key, p.value)]
    decreases |pieces|
  {
    if pieces == [] {
      assert pieces + [p] == [p];
    } else {
      assert (pieces + [p])[1..] == pieces[1..] + [p];
      PairsMeantSnoc(pieces[1..], if pieces[0].Keyed? then pieces[0].key else before, p);
    }
  }

  lemma {:induction false} QueryReads(pieces: seq<QueryPiece>)
    requires PlainQuery(pieces)
    ensures var pairs := PairsMeant(pieces, "");
            && ParamsOf(PrintQuery(pieces)) == LastWins(pairs)
            && LastKey(PrintQuery(pieces)) == if pairs == [] then "" else pairs[|pairs| - 1].0
  {
    if pieces == [] {
    } else {
      var n := |pieces| - 1;
      var printed := PrintQuery(pieces);
      assert pieces == pieces[..n] + [pieces[n]] && printed[..n] == PrintQuery(pieces[..n]);
      QueryReads(pieces[..n]);
      var before := PairsMeant(pieces[..n], "");
      PairsMeantSnoc(pieces[..n], "", pieces[n]);
      QueryPieceReads(LastKey(printed[..n]), pieces[n]);
      assert PairsMeant(pieces, "")[..|before|] == before;
    }
  }

  lemma QuestionMark(path: string, query: string)
    requires '?' !in path
    ensures var uri := path + "?" + query;
            IndexOf(uri, '?') == |path| && uri[..|path|] == path && uri[|path| + 1..] == query
  {
    IndexBehind(path, '?', query);
    assert path + "?" + query == path + ['?'] + query;
  }

  /** A printed path and query give back the path and the last value of every key meant. */
  lemma QueryRoundTrip(path: string, pieces: seq<QueryPiece>)
    requires '?' !in path && pieces != [] && PlainQuery(pieces)
    ensures var uri := path + "?" + Join(PrintQuery(pieces), '&');
            uri[..IndexOf(uri, '?')] == path && QueryParams(uri) == LastWins(PairsMeant(pieces, ""))
  {
    var printed := PrintQuery(pieces);
    QuestionMark(path, Join(printed, '&'));
    forall s | s in printed
      ensures '&' !in s
    {
      var i :| 0 <= i < |pieces| && printed[i] == s;
      assert pieces[i] in pieces;
      QueryPieceReads("", pieces[i]);
    }
    SplitJoin(printed, '&');
    QueryReads(pieces);
  }

  /** Later pairs win: the value of a key is that of its last pair. */
  lemma {:induction false} LastPairWins(pairs: seq<Pair>, key: string) returns (i: nat)
    ensures i <= |pairs| && forall j | i <= j < |pairs| :: pairs[j].0 != key
    ensures if i > 0 then pairs[i - 1].0 == key && key in LastWins(pairs) && LastWins(pairs)[key] == pairs[i - 1].1
            else key !in LastWins(pairs)
  {
    i := |pairs|;
    if pairs != [] && pairs[|pairs| - 1].0 != key {
      i := LastPairWins(pairs[..|pairs| - 1], key);
    }
  }

  /** A piece without `=` goes to the key before it: "a=1&b" means a = "b". */
  lemma BarePieceOverwrites(path: string, key: string, value: string, bare: string)
    requires '?' !in path && PlainText(key) && PlainText(value) && PlainText(bare)
    ensures QueryParams(path + "?" + (key + "=" + value + "&" + bare)) == map[key := bare]
    ensures QueryParams(path + "?" + bare) == map["" := bare]
  {
    var two := [Keyed([], key, value), Bare(bare)];
    assert [] + [key, value] == [key, value] && [key, value][1..] == [value];
    assert Join([key, value], '=') == key + ['='] + Join([value], '=');
    assert PrintQuery(two) == [key + "=" + value, bare];
    assert PrintQuery([Bare(bare)]) == [bare];
    assert [key + "=" + value, bare][1..] == [bare];
    assert two[1..] == [Bare(bare)];
    QueryRoundTrip(path, two);
    QueryRoundTrip(path, [Bare(bare)]);
    var pairs := [(key, value), (key, bare)];
    assert PairsMeant([Bare(bare)], key) == [(key, bare)];
    assert PairsMeant(two, "") == pairs;
    assert pairs[..1] == [(key, value)];
    assert PairsMeant([Bare(bare)], "") == [("", bare)];
  }

  /** No part after splitting holds the separator; and a string that holds it has at least two parts. */
  lemma PartsOf(s: string, sep: char)
    ensures Without(SplitOn(s, sep), sep)
    ensures sep in s <==> |SplitOn(s, sep)| >= 2
  {
    JoinSplit(s, sep);
    if |SplitOn(s, sep)| >= 2 {
      var r := SplitOn(s, sep);
      assert s == r[0] + [sep] + Join(r[1..], sep);
      assert s[|r[0]|] == sep;
    } else {
      assert s == SplitOn(s, sep)[0];
    }
  }

  /** One pair survives exactly when neither half holds an equals sign: with one, the last two parts count. */
  lemma OnePairRoundTrip(path: string, p: Pair)
    requires '?' !in path && '&' !in p.0 && '&' !in p.1
    ensures QueryParams(path + "?" + PrintPair(p)) == map[p.0 := p.1] <==> '=' !in p.0 && '=' !in p.1
  {
    var piece := PrintPair(p);
    QuestionMark(path, piece);
    SplitAtom(piece, '&');
    var one := [piece];
    OneMorePiece(one, 0, piece);
    assert one[..0 + 1] == one;
    PartsOf(piece, '=');
    assert piece[|p.0|] == '=';
    var parts := SplitOn(piece, '=');
    var key, value := KeyOf("", piece), ValueOf(piece);
    assert key in parts && value in parts;
    if '=' !in p.0 && '=' !in p.1 {
      PairSplits(p);
    } else {
      var got, wanted := map[key := value], map[p.0 := p.1];
      assert key in got && p.0 in wanted;
    }
  }

  // ---------- Cookies ----------

  predicate IsSpace(c: char) {
    c == ' ' || c == '\t' || c == '\n' || c == '\r' || c == '\U{000C}' || c == '\U{000B}'
  }

  function TrimLeft(s: string): (r: string)
    ensures r == "" || !IsSpace(r[0])
  {
    if s == "" then ""
    else if IsSpace(s[0]) then TrimLeft(s[1..])
    else s
  }

  /** A piece without `=` is skipped; the first `=` splits. */
  function WithCookie(cookies: map<string, string>, pair: string): map<string, string> {
    var eq := IndexOf(pair, '=');
    if eq < |pair| then cookies[TrimLeft(pair[..eq]) := pair[eq + 1..]] else cookies
  }

  /** Reads the pieces between semicolons from left to right. */
  function CookiesOf(pieces: seq<string>): map<string, string> {
    if pieces == [] then map[]
    else WithCookie(CookiesOf(pieces[..|pieces| - 1]), pieces[|pieces| - 1])
  }

  /** The pieces from `pos` on; none once the last one is read. */
  function PiecesFrom(s: string, pos: nat): seq<string> {
    if pos <= |s| then SplitOn(s[pos..], ';') else []
  }

  lemma NextPiece(s: string, pos: nat, len: nat)
    requires pos <= |s| && len == IndexOf(s[pos..], ';')
    ensures PiecesFrom(s, pos) == [s[pos..pos + len]] + PiecesFrom(s, pos + len + 1)
  {
    var rest := s[pos..];
    IndexOfFirst(rest, ';');
    assert s[pos..pos + len] == rest[..len];
    if len < |rest| {
      assert rest == rest[..len] + [';'] + rest[len + 1..];
      assert s[pos + len + 1..] == rest[len + 1..];
      SplitCons(rest[..len], rest[len + 1..], ';');
    } else {
      assert rest[..len] == rest;
      SplitAtom(rest, ';');
    }
  }

  /** The next semicolon, or the end: where the piece that starts at `pos` ends. */
  method FindSemicolon(s: string, pos: nat) returns (end: nat)
    requires pos <= |s|
    ensures pos <= end <= |s| && PiecesFrom(s, pos) == [s[pos..end]] + PiecesFrom(s, end + 1)
  {
    var len := IndexOf(s[pos..], ';');
    NextPiece(s, pos, len);
    end := pos + len;
  }

  /** The last piece, when nothing follows the last semicolon, is empty and adds no cookie. */
  lemma LastPieceEmpty(header: string, pos: nat, all: seq<string>, k: nat)
    requires k <= |all| && all[k..] == PiecesFrom(header, pos) && pos >= |header|
    ensures CookiesOf(all) == CookiesOf(all[..k])
  {
    if pos == |header| {
      assert header[pos..] == "";
      assert all[k..] == [""];
      assert |all| == k + 1 && all[k] == all[k..][0] == "";
      assert all[..|all| - 1] == all[..k];
    } else {
      assert all[..k] == all;
    }
  }

  method ParseCookies(header: string) returns (cookies: map<string, string>)
    ensures cookies == CookiesOf(SplitOn(header, ';'))
  {
    cookies := map[];
    var pos: nat := 0;
    ghost var all, k := SplitOn(header, ';'), 0;
    assert header[0..] == header;
    while pos < |header|
      invariant k <= |all| && all[k..] == PiecesFrom(header, pos)
      invariant cookies == CookiesOf(all[..k])
      decreases |header| - pos
    {
      var end := FindSemicolon(header, pos);
      var pair := header[pos..end];
      assert all[k] == all[k..][0] == pair && all[k + 1..] == all[k..][1..];
      assert all[..k + 1][..k] == all[..k];
      cookies := AddCookie(cookies, pair);
      pos, k := end + 1, k + 1;
    }
    LastPieceEmpty(header, pos, all, k);
  }

  method AddCookie(cookies: map<string, string>, pair: string) returns (cookies': map<string, string>)
    ensures cookies' == WithCookie(cookies, pair)
  {
    cookies' := cookies;
    var eq := IndexOf(pair, '=');
    if eq < |pair| {
      var key := TrimLeft(pair[..eq]);
      var value := pair[eq + 1..];
      cookies' := cookies'[key := value];
    }
  }

  /**
   * What may stand between two semicolons: a pair behind blanks, as section 4.2.1 of RFC 6265 has it but for
   * values that hold `=`, or something without `=`.
   */
  datatype CookiePiece = Named(blanks: string, pair: Pair) | Unnamed(text: string)

  /** Space, tab, line feed, carriage return, form feed and vertical tab. */
  predicate Blank(c: char) {
    c as int in {0x20, 0x09, 0x0A, 0x0D, 0x0C, 0x0B}
  }

  ghost predicate LegalPiece(p: CookiePiece) {
    match p
    case Named(blanks, (name, value)) =>
      && (forall c | c in blanks :: Blank(c))
      && ';' !in name && '=' !in name && ';' !in value && (name == "" || !Blank(name[0]))
    case Unnamed(text) => ';' !in text && '=' !in text
  }

  function PrintPiece(p: CookiePiece): string {
    match p
    case Named(blanks, pair) => blanks + PrintPair(pair)
    case Unnamed(text) => text
  }

  function PrintPieces(pieces: seq<CookiePiece>): (r: seq<string>)
    ensures |r| == |pieces|
  {
    seq(|pieces|, i requires 0 <= i < |pieces| => PrintPiece(pieces[i]))
  }

  /** The pairs among the pieces. */
  function NamedPairs(pieces: seq<CookiePiece>): seq<Pair> {
    if pieces == [] then []
    else
      var n := |pieces| - 1;
      NamedPairs(pieces[..n]) + if pieces[n].Named? then [pieces[n].pair] else []
  }

  lemma {:induction false} BlanksTrimmed(blanks: string, s: string)
    requires forall c | c in blanks :: Blank(c)
    requires s == "" || !Blank(s[0])
    ensures TrimLeft(blanks + s) == s
  {
    if blanks == "" {
      assert blanks + s == s;
    } else {
      assert (blanks + s)[1..] == blanks[1..] + s && blanks[0] in blanks;
      BlanksTrimmed(blanks[1..], s);
    }
  }

  lemma WithPrinted(cookies: map<string, string>, key: string, value: string)
    requires '=' !in key
    ensures WithCookie(cookies, key + ['='] + value) == cookies[TrimLeft(key) := value]
  {
    IndexBehind(key, '=', value);
  }

  lemma PieceReads(cookies: map<string, string>, p: CookiePiece)
    requires LegalPiece(p)
    ensures WithCookie(cookies, PrintPiece(p)) == if p.Named? then cookies[p.pair.0 := p.pair.1] else cookies
  {
    match p
    case Named(blanks, pair) =>
      assert blanks + PrintPair(pair) == (blanks + pair.0) + ['='] + pair.1;
      assert '=' !in blanks + pair.0 by {
        assert !Blank('=');
      }
      WithPrinted(cookies, blanks + pair.0, pair.1);
      BlanksTrimmed(blanks, pair.0);
    case Unnamed(text) =>
      IndexOfFirst(text, '=');
  }

  lemma {:induction false} PiecesRead(pieces: seq<CookiePiece>)
    requires forall p | p in pieces :: LegalPiece(p)
    ensures CookiesOf(PrintPieces(pieces)) == LastWins(NamedPairs(pieces))
  {
    if pieces == [] {
    } else {
      var n := |pieces| - 1;
      var printed := PrintPieces(pieces);
      assert pieces[n] in pieces && printed[..n] == PrintPieces(pieces[..n]);
      PiecesRead(pieces[..n]);
      PieceReads(LastWins(NamedPairs(pieces[..n])), pieces[n]);
      var before := NamedPairs(pieces[..n]);
      if pieces[n].Named? {
        assert (before + [pieces[n].pair])[..|before|] == before;
      } else {
        assert before + [] == before;
      }
    }
  }

  /**
   * Pieces joined by semicolons give back the last value of every name: blanks in front of a name do not
   * count, values may hold `=`, and a piece without `=` changes nothing.
   */
  lemma CookieRoundTrip(pieces: seq<CookiePiece>)
    requires pieces != [] && forall p | p in pieces :: LegalPiece(p)
    ensures CookiesOf(SplitOn(Join(PrintPieces(pieces), ';'), ';')) == LastWins(NamedPairs(pieces))
  {
    var printed := PrintPieces(pieces);
    forall s | s in printed
      ensures ';' !in s
    {
      var i :| 0 <= i < |pieces| && printed[i] == s;
      assert pieces[i] in pieces && LegalPiece(pieces[i]) && !Blank(';');
    }
    SplitJoin(printed, ';');
    PiecesRead(pieces);
  }
}
