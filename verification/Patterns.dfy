/** Route patterns: how a path is cut into segments and how one segment is read. */
module Patterns {
  import opened Text

  datatype NodeType = STATIC | PARAMETER | WILDCARD | REGEX

  /** One pattern segment as the router stores it. `regex` is meant only for REGEX. */
  datatype Segment = Segment(kind: NodeType, part: string, optional: bool, defaultValue: string, regex: string)

  function NonEmpty(parts: seq<string>): (r: seq<string>)
    ensures "" !in r
    ensures forall p | p in r :: p in parts
  {
    if parts == [] then []
    else if parts[0] == "" then NonEmpty(parts[1..])
    else [parts[0]] + NonEmpty(parts[1..])
  }

  /** The non-empty pieces of a path between slashes. */
  function Segments(path: string): seq<string> {
    NonEmpty(SplitOn(path, '/'))
  }

  lemma {:induction false} SegmentsPiece(p: string, rest: string)
    requires '/' !in p
    ensures Segments(p + "/" + rest) == (if p == "" then [] else [p]) + Segments(rest)
  {
    SplitCons(p, rest, '/');
    assert p + ['/'] + rest == p + "/" + rest;
    assert ([p] + SplitOn(rest, '/'))[1..] == SplitOn(rest, '/');
  }

  lemma {:induction false} SegmentsAtom(p: string)
    requires '/' !in p
    ensures Segments(p) == if p == "" then [] else [p]
  {
    SplitAtom(p, '/');
    var none: seq<string> := [];
    assert [p][1..] == none;
    assert NonEmpty(none) == [];
    assert [p] + none == [p];
  }

  /** One `getline`: the piece up to the next slash, then the rest behind it. */
  lemma {:induction false} SegmentsStep(rest: string, end: nat)
    requires end == IndexOf(rest, '/')
    ensures Segments(rest)
            == (if end == 0 then [] else [rest[..end]])
               + Segments(if end < |rest| then rest[end + 1..] else "")
  {
    IndexOfFirst(rest, '/');
    if end < |rest| {
      assert rest == rest[..end] + "/" + rest[end + 1..];
      SegmentsPiece(rest[..end], rest[end + 1..]);
    } else {
      assert rest == rest[..end];
      SegmentsAtom(rest);
      SegmentsAtom("");
    }
  }

  /** Reading a path with `getline` until it runs out gives exactly its segments. */
  method SplitPath(path: string) returns (segments: seq<string>)
    ensures segments == Segments(path)
  {
    segments := [];
    var pos := 0;
    ghost var rest := path;
    while pos < |path|
      invariant 0 <= pos <= |path| + 1
      invariant rest == if pos <= |path| then path[pos..] else ""
      invariant segments + Segments(rest) == Segments(path)
      decreases |path| + 1 - pos
    {
      var len := IndexOf(path[pos..], '/');
      SegmentsStep(rest, len);
      var segment := path[pos..pos + len];
      assert rest[..len] == segment;
      rest := if len < |rest| then rest[len + 1..] else "";
      if segment != "" {
        segments := segments + [segment];
      }
      pos := pos + len + 1;
    }
    SegmentsAtom("");
  }

  lemma {:induction false} NonEmptyFixed(parts: seq<string>)
    requires "" !in parts
    ensures NonEmpty(parts) == parts
  {
    if parts == [] {
    } else {
      NonEmptyFixed(parts[1..]);
      assert [parts[0]] + parts[1..] == parts;
    }
  }

  /** No segment is empty or holds a slash. */
  lemma {:induction false} SegmentsClean(path: string)
    ensures "" !in Segments(path)
    ensures Without(Segments(path), '/')
  {
    JoinSplit(path, '/');
  }

  /** Segments joined with slashes split back to themselves: nothing is lost or added. */
  lemma {:induction false} SegmentsOfJoin(parts: seq<string>)
    requires "" !in parts && Without(parts, '/')
    ensures Segments(Join(parts, '/')) == parts
  {
    if parts == [] {
      SegmentsAtom("");
    } else {
      SplitJoin(parts, '/');
      NonEmptyFixed(parts);
    }
  }

  const LITERAL_ALL := ".*"

  function ReadStatic(seg: string): (r: Segment)
    ensures r.kind == STATIC && !r.optional
  {
    Segment(STATIC, seg, false, "", "")
  }

  function ReadParameter(name: string): Segment
    requires name != ""
  {
    var marked := name[|name| - 1] == '?';
    var bare := if marked then name[..|name| - 1] else name;
    var eq := IndexOf(bare, '=');
    if eq < |bare| then Segment(PARAMETER, bare[..eq], true, bare[eq + 1..], "")
    else Segment(PARAMETER, bare, marked, "", "")
  }

  function ReadRegex(content: string): Segment {
    var colon := IndexOf(content, ':');
    if colon < |content| then Segment(REGEX, content[..colon], false, "", content[colon + 1..])
    else Segment(REGEX, content, false, "", LITERAL_ALL)
  }

  /** A lone ":" makes `add_route` look at the last character of an empty string, so callers must not pass it. */
  predicate Readable(seg: string) {
    seg != "" && seg != ":"
  }

  function ReadSegment(seg: string): (r: Segment)
    requires Readable(seg)
    ensures r.optional ==> r.kind == PARAMETER
    ensures forall c | c in r.part :: c in seg
  {
    if seg[0] == ':' then ReadParameter(seg[1..])
    else if seg[0] == '*' then Segment(WILDCARD, seg[1..], false, "", "")
    else if seg[0] == '<' && seg[|seg| - 1] == '>' then ReadRegex(seg[1..|seg| - 1])
    else ReadStatic(seg)
  }

  predicate ReadablePath(path: string) {
    forall seg | seg in Segments(path) :: Readable(seg)
  }

  function ReadAll(segs: seq<string>): (r: seq<Segment>)
    requires forall seg | seg in segs :: Readable(seg)
    ensures |r| == |segs|
  {
    seq(|segs|, i requires 0 <= i < |segs| => assert segs[i] in segs; ReadSegment(segs[i]))
  }

  function Literals(segs: seq<string>): (r: seq<Segment>)
    ensures |r| == |segs|
  {
    seq(|segs|, i requires 0 <= i < |segs| => ReadStatic(segs[i]))
  }
}
