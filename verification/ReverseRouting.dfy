/** Building a URL from a named route and matching it again. */
module ReverseRouting {
  import opened Text
  import opened Patterns
  import opened Middlewares
  import opened Tries
  import opened Bindings
  import opened Matcher
  import opened RouteTable
  import opened LinearScan
  import opened Substitution

  /**
   * Every segment is a literal or the plain `:name` of a parameter, every parameter has one, and no
   * placeholder can be taken for another: `url_for` meets each only where it stands.
   */
  ghost predicate PlainRoute(path: string, params: Params) {
    && path != "/" && ReadablePath(path)
    && Unambiguous(SplitOn(path, '/'), params)
    && (forall s | s in Segments(path) :: PlainSegment(s, params))
    && (forall k | k in params :: Placeholder(k) in Segments(path))
  }

  ghost predicate PlainSegment(s: string, params: Params)
    requires Readable(s)
  {
    if s[0] == ':' then s[1..] in params && ReadSegment(s) == Segment(PARAMETER, s[1..], false, "", "")
    else ReadSegment(s).kind == STATIC
  }

  /** Values that can stand in a path. */
  ghost predicate PathValues(params: Params) {
    forall k | k in params :: params[k] != "" && '/' !in params[k] && ':' !in params[k]
  }

  /** The request segments of the filled path. */
  ghost function FilledSegments(path: string, params: Params): seq<string> {
    FillPieces(Segments(path), params, params.Keys)
  }

  /** Filling and cutting into segments can change places. */
  lemma {:induction false} FillCutsTheSame(pieces: seq<string>, params: Params)
    requires PathValues(params)
    ensures NonEmpty(FillPieces(pieces, params, params.Keys)) == FillPieces(NonEmpty(pieces), params, params.Keys)
  {
    if pieces == [] {
    } else {
      var filled := FillPieces(pieces, params, params.Keys);
      FillCutsTheSame(pieces[1..], params);
      assert filled[1..] == FillPieces(pieces[1..], params, params.Keys);
      if pieces[0] != "" {
        assert ([pieces[0]] + NonEmpty(pieces[1..]))[1..] == NonEmpty(pieces[1..]);
      }
    }
  }

  lemma FilledWithout(pieces: seq<string>, params: Params)
    requires Without(pieces, '/') && PathValues(params)
    ensures Without(FillPieces(pieces, params, params.Keys), '/')
  {
    var filled := FillPieces(pieces, params, params.Keys);
    forall p | p in filled
      ensures '/' !in p
    {
      var i :| 0 <= i < |pieces| && filled[i] == p;
      assert pieces[i] in pieces;
    }
  }

  /** Every order of filling gives the same URL: the path with each placeholder replaced by its value. */
  lemma OneUrl(path: string, params: Params, url: string)
    requires Unambiguous(SplitOn(path, '/'), params) && IsFilling(url, path, params)
    ensures url == Join(FillPieces(SplitOn(path, '/'), params, params.Keys), '/')
  {
    var pieces := SplitOn(path, '/');
    JoinSplit(path, '/');
    var order :| Listing(order, params.Keys) && (forall k | k in order :: k in params)
        && url == FilledIn(path, params, order);
    OrderDoesNotMatter(pieces, params, order, params.Keys);
  }

  /** The URL's segments are the pattern's, filled, whatever order the parameters came in. */
  lemma UrlSegments(path: string, params: Params, url: string)
    requires PlainRoute(path, params) && PathValues(params)
    requires IsFilling(url, path, params)
    ensures Segments(url) == FilledSegments(path, params)
  {
    var pieces := SplitOn(path, '/');
    JoinSplit(path, '/');
    OneUrl(path, params, url);
    var filled := FillPieces(pieces, params, params.Keys);
    FilledWithout(pieces, params);
    SplitJoin(filled, '/');
    FillCutsTheSame(pieces, params);
  }

  // ---------- The filled path matches its own pattern ----------

  /** A pattern segment, what it reads as, and what it is filled with. */
  ghost predicate FilledAs(s: string, r: Segment, u: string, params: Params) {
    || (r.kind == STATIC && r.part == u && !r.optional)
    || (r.kind == PARAMETER && !r.optional && s == Placeholder(r.part) && r.part in params && params[r.part] == u)
  }

  lemma FilledSegment(s: string, params: Params)
    requires Readable(s) && PlainSegment(s, params)
    ensures FilledAs(s, ReadSegment(s), FillPiece(s, params, params.Keys), params)
  {
    if s[0] == ':' {
      assert s == ":" + s[1..];
    }
  }

  /** What the filled segment at `j` is. */
  lemma FilledAt(path: string, params: Params, j: nat)
    requires PlainRoute(path, params) && j < |Segments(path)|
    ensures FilledAs(Segments(path)[j], ReadAll(Segments(path))[j], FilledSegments(path, params)[j], params)
  {
    var s := Segments(path)[j];
    assert s in Segments(path) && s in SplitOn(path, '/');
    FilledSegment(s, params);
  }

  lemma FilledMatches(table: Table, path: string, handler: Option<Handler>, middlewares: seq<Middleware>, priority: int,
                      params: Params, rx: RegexMatch)
    requires PlainRoute(path, params)
    requires var e := RouteEntry(path, handler, middlewares, priority);
             e in table && HandlerAt(table, PathTo(e)).Some?
    ensures var e := RouteEntry(path, handler, middlewares, priority);
            EntryMatches(table, e, rx, FilledSegments(path, params), true)
            && PatternWalks(e.segs, |e.segs|, rx, FilledSegments(path, params), true)
  {
    var e := RouteEntry(path, handler, middlewares, priority);
    forall j | 0 <= j < |e.segs|
      ensures SegmentTakes(e.segs[j], rx, FilledSegments(path, params)[j], true)
    {
      FilledAt(path, params, j);
    }
  }

  // ---------- The bindings of the filled path ----------

  /** What the pattern segment at `j` is, and what takes its place in the URL. */
  lemma PlaceAt(path: string, params: Params, j: nat)
    requires PlainRoute(path, params) && j < |Segments(path)|
    ensures var r, u := ReadAll(Segments(path))[j], FilledSegments(path, params)[j];
            && (r.kind == STATIC || r.kind == PARAMETER)
            && (r.kind == PARAMETER
                ==> r.part in params && params[r.part] == u && Segments(path)[j] == Placeholder(r.part))
  {
    FilledAt(path, params, j);
  }

  /** Node `j` on the way to the entry takes `u[j]`, the value of its own parameter if it is dynamic. */
  ghost predicate TakesOwn(t: Trie, b: Path, u: seq<string>, segs: seq<string>, params: Params, j: nat) {
    && j < |b| == |u| == |segs| && Present(t, b, j)
    && (Dynamic(t, b, j) ==> b[j] in params && u[j] == params[b[j]] && ValueAt(t, u, b, j) == u[j]
                             && segs[j] == Placeholder(b[j]))
  }

  lemma NodeTakes(table: Table, e: Entry, u: seq<string>, segs: seq<string>, params: Params, j: nat)
    requires ProperTable(table) && ClashFree(table) && e in table && j < |e.segs| == |u| == |segs|
    requires var r := e.segs[j];
             && (r.kind == STATIC || r.kind == PARAMETER)
             && (r.kind == PARAMETER ==> r.part in params && params[r.part] == u[j] && segs[j] == Placeholder(r.part))
    ensures TakesOwn(Built(table), PathTo(e), u, segs, params, j)
    ensures Dynamic(Built(table), PathTo(e), j) <==> e.segs[j].kind == PARAMETER
  {
    NodeReads(table, e, j);
  }

  lemma NodeAtEntry(table: Table, e: Entry, path: string, params: Params, j: nat)
    requires ProperTable(table) && ClashFree(table) && e in table
    requires PlainRoute(path, params) && e.segs == ReadAll(Segments(path)) && j < |e.segs|
    ensures TakesOwn(Built(table), PathTo(e), FilledSegments(path, params), Segments(path), params, j)
    ensures Dynamic(Built(table), PathTo(e), j) <==> e.segs[j].kind == PARAMETER
  {
    PlaceAt(path, params, j);
    NodeTakes(table, e, FilledSegments(path, params), Segments(path), params, j);
  }

  lemma {:induction false} FirstNoLater(t: Trie, segs: seq<string>, b: Path, i: nat, n: string, j: nat)
    requires OnTrie(t, segs, b) && i <= j < |b| && b[..j + 1] in t && Dynamic(t, b, j) && b[j] == n
    ensures FirstNamed(t, segs, b, i, n) <= j
    decreases j - i
  {
    assert Present(t, b, i);
    if i < j && !(Dynamic(t, b, i) && b[i] == n) {
      FirstNoLater(t, segs, b, i + 1, n, j);
    }
  }

  lemma ParameterIn(path: string, params: Params, k: string) returns (j: nat)
    requires PlainRoute(path, params) && k in params
    ensures j < |Segments(path)|
    ensures ReadAll(Segments(path))[j] == Segment(PARAMETER, k, false, "", "")
  {
    j :| 0 <= j < |Segments(path)| && Segments(path)[j] == Placeholder(k);
    var s := Segments(path)[j];
    assert s in Segments(path) && PlainSegment(s, params) && s[1..] == k;
  }

  /** The position of a parameter in the pattern. */
  lemma ParameterPosition(table: Table, e: Entry, path: string, params: Params, k: string) returns (j: nat)
    requires ProperTable(table) && ClashFree(table) && e in table && k in params
    requires PlainRoute(path, params) && e.segs == ReadAll(Segments(path))
    ensures j < |e.segs| && PathTo(e)[j] == k && Present(Built(table), PathTo(e), j)
        && Dynamic(Built(table), PathTo(e), j)
  {
    j := ParameterIn(path, params, k);
    NodeReads(table, e, j);
  }

  /** The walk of the filled path binds each name to its value, in full. */
  lemma FilledBindings(table: Table, e: Entry, path: string, params: Params)
    requires ProperTable(table) && ClashFree(table) && e in table
    requires PlainRoute(path, params) && e.segs == ReadAll(Segments(path))
    ensures var t, b, u := Built(table), PathTo(e), FilledSegments(path, params);
            && OnTrie(t, u, b) && WalkParams(t, u, b, 0, false) == params
            && ((forall j: nat :: !FirstLost(t, u, b, j)) <==> forall k | k in params :: params[k] != k)
  {
    var t, b, u := Built(table), PathTo(e), FilledSegments(path, params);
    forall j | 0 <= j < |b|
      ensures Present(t, b, j)
    {
      NodeAtEntry(table, e, path, params, j);
    }
    var full := WalkParams(t, u, b, 0, false);
    forall n
      ensures SameAt(full, params, n)
      ensures n in params ==>
                FirstNamed(t, u, b, 0, n) < |b|
                && (FirstLost(t, u, b, FirstNamed(t, u, b, 0, n)) <==> params[n] == n)
    {
      DeclaredParams(t, u, b, 0, n);
      var f := FirstNamed(t, u, b, 0, n);
      if n in params {
        var j := ParameterPosition(table, e, path, params, n);
        FirstNoLater(t, u, b, 0, n, j);
      }
      if f < |b| {
        FirstIsDynamic(t, u, b, 0, n);
        NodeAtEntry(table, e, path, params, f);
      }
    }
    SameEverywhere(full, params);
    forall j: nat | FirstLost(t, u, b, j)
      ensures b[j] in params && params[b[j]] == b[j]
    {
      NodeAtEntry(table, e, path, params, j);
    }
  }

  lemma {:induction false} FirstIsDynamic(t: Trie, segs: seq<string>, b: Path, i: nat, n: string)
    requires OnTrie(t, segs, b) && i <= |b|
    ensures FirstNamed(t, segs, b, i, n) < |b| ==> Dynamic(t, b, FirstNamed(t, segs, b, i, n))
    decreases |b| - i
  {
    if i < |b| {
      assert Present(t, b, i);
      FirstIsDynamic(t, segs, b, i + 1, n);
    }
  }

  lemma SameEverywhere(a: Params, b: Params)
    requires forall n :: SameAt(a, b, n)
    ensures a == b
  {
    forall n
      ensures n in a.Keys <==> n in b.Keys
    {
      assert SameAt(a, b, n);
    }
    assert a.Keys == b.Keys;
    forall n | n in a
      ensures a[n] == b[n]
    {
      assert SameAt(a, b, n);
    }
  }

  // ---------- The round trip ----------

  /**
   * Filling a plain named route and matching the result: when the route's node is the answer, the
   * caller's map is exactly the one the URL was built from, for every order of filling, if and only
   * if no value spells its own parameter's name.
   */
  lemma RoundTrip(table: Table, path: string, handler: Option<Handler>, middlewares: seq<Middleware>, priority: int,
                  params: Params, rx: RegexMatch, url: string, params0: Params, answer: Option<Path>,
                  params': Params)
    requires ProperTable(table) && ClashFree(table) && PlainRoute(path, params) && PathValues(params)
    requires var e := RouteEntry(path, handler, middlewares, priority);
             e in table && HandlerAt(table, PathTo(e)).Some? && answer == Some(PathTo(e))
    requires IsFilling(url, path, params)
    requires MatchAnswer(Built(table), rx, Segments(url), params0, answer, params')
    ensures params' == params <==> forall k | k in params :: params[k] != k
  {
    var e := RouteEntry(path, handler, middlewares, priority);
    var t, b, u := Built(table), PathTo(e), FilledSegments(path, params);
    UrlSegments(path, params, url);
    FilledMatches(table, path, handler, middlewares, priority, params, rx);
    TrieRefinesScan(table, rx, u);
    BuiltDescribes(table);
    assert b[..|e.segs|] == b;
    WalksLikePattern(t, table, e, |e.segs|, rx, u);
    FilledBindings(table, e, path, params);
    PlainRouteIsOrdinary(table, e, path, params);
    BindingsAsDeclared(t, rx, u, b);
    NoDefault(table, e, path, params);
  }

  /** No segment of a plain route is a wildcard or optional. */
  lemma PlainSegments(path: string, params: Params, j: nat)
    requires PlainRoute(path, params) && j < |Segments(path)|
    ensures var s := ReadAll(Segments(path))[j]; s.kind != WILDCARD && !s.optional
  {
    FilledAt(path, params, j);
  }

  lemma PlainRouteIsOrdinary(table: Table, e: Entry, path: string, params: Params)
    requires ProperTable(table) && ClashFree(table) && e in table
    requires PlainRoute(path, params) && e.segs == ReadAll(Segments(path))
    ensures Ordinary(Built(table), PathTo(e))
  {
    assert Proper(e);
    var t, b := Built(table), PathTo(e);
    forall j | 0 <= j < |b|
      ensures '/' !in b[j] && !(Present(t, b, j) && t[b[..j + 1]].kind == WILDCARD)
    {
      assert e.segs[j] in e.segs;
      NodeReads(table, e, j);
      PlainSegments(path, params, j);
    }
  }

  lemma NoDefault(table: Table, e: Entry, path: string, params: Params)
    requires ProperTable(table) && ClashFree(table) && e in table
    requires PlainRoute(path, params) && e.segs == ReadAll(Segments(path))
    ensures PathTo(e) in Built(table) && !Built(table)[PathTo(e)].isOptional
  {
    if e.segs == [] {
      BuiltDescribesAt(table, []);
    } else {
      var j := |e.segs| - 1;
      NodeReads(table, e, j);
      PlainSegments(path, params, j);
      assert PathTo(e)[..j + 1] == PathTo(e);
    }
  }

  /** The route's node is the answer when every other matching registration has a lower priority. */
  lemma HighestIsAnswer(table: Table, path: string, handler: Option<Handler>, middlewares: seq<Middleware>,
                        priority: int, params: Params, rx: RegexMatch, url: string, params0: Params,
                        answer: Option<Path>, params': Params)
    requires ProperTable(table) && ClashFree(table) && PlainRoute(path, params) && PathValues(params)
    requires var e := RouteEntry(path, handler, middlewares, priority);
             && e in table && HandlerAt(table, PathTo(e)).Some? && Clear(table, e)
             && forall f | f in table && PathTo(f) != PathTo(e)
                 && EntryMatches(table, f, rx, FilledSegments(path, params), true) ::
                  PriorityAt(table, PathTo(f)) < PriorityAt(table, PathTo(e))
    requires IsFilling(url, path, params)
    requires MatchAnswer(Built(table), rx, Segments(url), params0, answer, params')
    ensures answer == Some(PathTo(RouteEntry(path, handler, middlewares, priority)))
  {
    var e := RouteEntry(path, handler, middlewares, priority);
    var u := FilledSegments(path, params);
    UrlSegments(path, params, url);
    FilledMatches(table, path, handler, middlewares, priority, params, rx);
    MatchIsScan(table, rx, u, true, params0, answer, params');
    var b := answer.value;
    var f :| f in table && PathTo(f) == b && EntryMatches(table, f, rx, u, true);
  }

  // ---------- A value that spells its own name ----------

  /** A literal segment, and a name that can stand behind a colon as it is. */
  ghost predicate PlainNames(dir: string, name: string) {
    && dir != "" && '/' !in dir && dir[0] != ':' && dir[0] != '*' && dir[0] != '<'
    && name != "" && '/' !in name && '=' !in name && name[|name| - 1] != '?'
  }

  /** As in "/users/:id". */
  function ItemPath(dir: string, name: string): string {
    "/" + (dir + "/" + Placeholder(name))
  }

  function ItemEntry(dir: string, name: string): Entry {
    Entry([Segment(STATIC, dir, false, "", ""), Segment(PARAMETER, name, false, "", "")], Handle(Some(1), [], 0))
  }

  lemma TwoPieces(p: string, q: string)
    requires p != "" && q != "" && '/' !in p && '/' !in q
    ensures Segments("/" + (p + "/" + q)) == [p, q]
  {
    SegmentsAtom(q);
    SegmentsPiece(p, q);
    SegmentsPiece("", p + "/" + q);
    assert "" + "/" + (p + "/" + q) == "/" + (p + "/" + q);
  }

  lemma ItemRead(dir: string, name: string)
    requires PlainNames(dir, name)
    ensures Segments(ItemPath(dir, name)) == [dir, Placeholder(name)]
    ensures ReadablePath(ItemPath(dir, name)) && RouteEntry(ItemPath(dir, name), Some(1), [], 0) == ItemEntry(dir, name)
  {
    var keyed := Placeholder(name);
    TwoPieces(dir, keyed);
    assert keyed[1..] == name && keyed[0] == ':';
    IndexOfFirst(name, '=');
    assert IndexOf(name, '=') == |name|;
    assert ReadSegment(keyed) == Segment(PARAMETER, name, false, "", "");
    assert ReadSegment(dir) == Segment(STATIC, dir, false, "", "");
    assert ReadAll([dir, keyed]) == ItemEntry(dir, name).segs;
  }

  lemma ItemAnswer(table: Table, dir: string, name: string, rx: RegexMatch, segs: seq<string>,
                   params: Params, answer: Option<Path>, params': Params)
    requires PlainNames(dir, name) && table == [ItemEntry(dir, name)] && segs == [dir, name]
    requires MatchAnswer(Built(table), rx, segs, params, answer, params')
    ensures answer == Some(segs) && params' == map[]
  {
    var e, t := table[0], Built(table);
    assert PathTo(e) == segs;
    assert PatternWalks(e.segs, 2, rx, segs, true);
    assert HandlerAt(table, segs).Some?;
    assert EntryMatches(table, e, rx, segs, true);
    TrieRefinesScan(table, rx, segs);
    BuiltDescribes(table);
    var f := CandidateMatches(t, table, rx, segs, answer.value);
    assert segs[..2] == segs;
    assert DescribesAt(t, table, segs) && OnPath(e.segs, segs);
    assert DescribesAt(t, table, segs[..1]) && OnPath(e.segs, segs[..1]);
    assert Rebuilds(t, rx, segs, segs, 2);
    assert Rebuilds(t, rx, segs, segs, 1) && Rebound(t, rx, segs, segs, 1, map[]) == map[];
    assert Rebuilds(t, rx, segs, segs, 0) && Rebound(t, rx, segs, segs, 0, map[]) == map[];
  }

  /**
   * A route like "/users/:id" filled with id = "id" is requested as "/users/id": the route answers, and the
   * map comes back empty.
   */
  lemma OwnNameIsLost(dir: string, name: string, rx: RegexMatch, params: Params)
    requires PlainNames(dir, name)
    ensures ReadablePath(ItemPath(dir, name))
    ensures FilledSegments(ItemPath(dir, name), map[name := name]) == Segments("/" + (dir + "/" + name)) == [dir, name]
    ensures var table := [RouteEntry(ItemPath(dir, name), Some(1), [], 0)];
            forall answer, params' | MatchAnswer(Built(table), rx, [dir, name], params, answer, params') ::
              answer == Some([dir, name]) && params' == map[]
  {
    ItemRead(dir, name);
    TwoPieces(dir, name);
    var own := map[name := name];
    assert Placeholder(name)[1..] == name;
    assert FillPieces([dir, Placeholder(name)], own, own.Keys) == [dir, name];
    var table := [RouteEntry(ItemPath(dir, name), Some(1), [], 0)];
    forall answer, params' | MatchAnswer(Built(table), rx, [dir, name], params, answer, params')
      ensures answer == Some([dir, name]) && params' == map[]
    {
      ItemAnswer(table, dir, name, rx, [dir, name], params, answer, params');
    }
  }
}
