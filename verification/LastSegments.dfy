/**
 * Routes of literal segments and one last segment of any kind, like "/lang/:locale=en" or "/item/<id:[0-9]+>":
 * which requests they answer, and with which parameters.
 */
module LastSegments {
  import opened Text
  import opened Patterns
  import opened PatternTexts
  import opened Tries
  import opened Bindings
  import opened Matcher
  import opened RouteTable
  import opened LinearScan
  import opened MatchedParams
  import opened Routers
  import opened RouterAsScan
  import opened StoredRoutes

  ghost predicate Literal(dirs: seq<string>) {
    forall d | d in dirs :: d != "" && '/' !in d && d[0] != ':' && d[0] != '*' && d[0] != '<'
  }

  /** The pattern as it is written. */
  function PatternOf(dirs: seq<string>, last: Segment): string {
    "/" + Join(dirs + [PrintSegment(last)], '/')
  }

  function SegmentsOf(dirs: seq<string>, last: Segment): (r: seq<Segment>)
    ensures |r| == |dirs| + 1
  {
    Literals(dirs) + [last]
  }

  lemma PatternRead(dirs: seq<string>, last: Segment)
    requires Literal(dirs) && Printable(last) && '/' !in PrintSegment(last)
    ensures ReadablePath(PatternOf(dirs, last)) && ReadAll(Segments(PatternOf(dirs, last))) == SegmentsOf(dirs, last)
  {
    var segs := SegmentsOf(dirs, last);
    forall i | 0 <= i < |segs|
      ensures Printable(segs[i]) && '/' !in PrintSegment(segs[i])
      ensures PrintSegment(segs[i]) == if i < |dirs| then dirs[i] else PrintSegment(last)
    {
      if i < |dirs| {
        LiteralPrints(dirs, i);
      }
    }
    PatternRoundTrip(segs);
    assert PrintAll(segs) == dirs + [PrintSegment(last)];
  }

  lemma LiteralPrints(dirs: seq<string>, i: nat)
    requires i < |dirs| && Literal(dirs)
    ensures Printable(ReadStatic(dirs[i])) && PrintSegment(ReadStatic(dirs[i])) == dirs[i] && '/' !in dirs[i]
  {
    assert dirs[i] in dirs;
  }

  // ---------- Which requests ----------

  /** What the last segment takes behind the literal ones; a dynamic one also takes its own name. */
  ghost predicate TakesRest(last: Segment, rx: RegexMatch, given: seq<string>) {
    match last.kind
    case STATIC => given == [last.part]
    case PARAMETER => |given| == 1 || (given == [] && last.optional)
    case WILDCARD => |given| >= 1
    case REGEX => |given| == 1 && (rx(last.regex, given[0]) || given[0] == last.part)
  }

  lemma LiteralsWalk(dirs: seq<string>, last: Segment, n: nat, rx: RegexMatch, segs: seq<string>)
    requires n <= |dirs|
    ensures PatternWalks(SegmentsOf(dirs, last), n, rx, segs, true) <==> n <= |segs| && segs[..n] == dirs[..n]
  {
    var pat := SegmentsOf(dirs, last);
    if n <= |segs| && segs[..n] == dirs[..n] {
      assert forall j | 0 <= j < n :: segs[j] == segs[..n][j] == dirs[..n][j] == dirs[j];
    }
    if PatternWalks(pat, n, rx, segs, true) {
      assert forall j | 0 <= j < n :: SegmentTakes(pat[j], rx, segs[j], true);
    }
  }

  /** The route answers exactly the requests that have its literals and a rest that its last segment takes. */
  lemma MatchesRest(table: Table, e: Entry, dirs: seq<string>, last: Segment, rx: RegexMatch, segs: seq<string>)
    requires e.segs == SegmentsOf(dirs, last) && !e.action.Files? && HandlerAt(table, PathTo(e)).Some?
    requires last.kind != PARAMETER ==> !last.optional
    ensures EntryMatches(table, e, rx, segs, true)
        <==> |segs| >= |dirs| && segs[..|dirs|] == dirs && TakesRest(last, rx, segs[|dirs|..])
  {
    var n := |dirs|;
    assert dirs[..n] == dirs;
    LiteralsWalk(dirs, last, n, rx, segs);
    assert PatternWalks(e.segs, n + 1, rx, segs, true)
      <==> |segs| > n && PatternWalks(e.segs, n, rx, segs, true) && SegmentTakes(last, rx, segs[n], true);
    assert |segs| == n + 1 ==> segs[n..] == [segs[n]];
    assert n > 0 ==> e.segs[n - 1].kind == STATIC;
  }

  // ---------- Which parameters ----------

  /** A value, or several joined by slashes, is bound unless it is the very name; then a default counts. */
  function GivenParams(last: Segment, given: seq<string>): Params {
    if last.kind == STATIC then map[]
    else if given != [] && given != [last.part] then map[last.part := Join(given, '/')]
    else if last.optional && last.defaultValue != "" then map[last.part := last.defaultValue]
    else map[]
  }

  lemma {:induction false} LiteralsBindNothing(pat: seq<Segment>, segs: seq<string>, i: nat, n: nat)
    requires i <= n <= |pat| <= |segs| && forall j | i <= j < n :: pat[j].kind == STATIC
    ensures PatternParams(pat, segs, i, true) == PatternParams(pat, segs, n, true)
    decreases n - i
  {
    if i < n {
      LiteralsBindNothing(pat, segs, i + 1, n);
    }
  }

  lemma RestBound(dirs: seq<string>, last: Segment, given: seq<string>)
    requires given != [] && (last.kind != WILDCARD ==> |given| == 1)
    ensures PatternParams(SegmentsOf(dirs, last), dirs + given, 0, true)
         == if last.kind == STATIC || given == [last.part] then map[]
            else map[last.part := if last.kind == WILDCARD then Join(given, '/') else given[0]]
  {
    var pat, segs, n := SegmentsOf(dirs, last), dirs + given, |dirs|;
    LiteralsBindNothing(pat, segs, 0, n);
    assert PatternParams(pat, segs, n + 1, true) == map[];
    assert segs[n..] == given;
  }

  /** What the route's pattern gives a request that it answers. */
  lemma RestParams(e: Entry, dirs: seq<string>, last: Segment, rx: RegexMatch, given: seq<string>)
    requires e.segs == SegmentsOf(dirs, last) && TakesRest(last, rx, given)
    requires last.kind != PARAMETER ==> !last.optional
    ensures EntryParams(e, rx, dirs + given, true) == GivenParams(last, given)
  {
    var segs, n := dirs + given, |dirs|;
    if given == [] {
      ShortParams(e, rx, segs);
    } else {
      RestBound(dirs, last, given);
      LiteralsWalk(dirs, last, n, rx, segs);
      assert segs[..n] == dirs == dirs[..n] && segs[n] == given[0];
      RestConsumed(e, dirs, last, rx, given);
    }
  }

  lemma RestConsumed(e: Entry, dirs: seq<string>, last: Segment, rx: RegexMatch, given: seq<string>)
    requires e.segs == SegmentsOf(dirs, last) && TakesRest(last, rx, given) && given != []
    ensures PatternConsumes(e.segs, |e.segs|, rx, dirs + given, true)
  {
    var segs, n := dirs + given, |dirs|;
    LiteralsWalk(dirs, last, n, rx, segs);
    assert segs[..n] == dirs == dirs[..n] && segs[n] == given[0];
  }

  // ---------- Through the router ----------

  /** Nothing stands in the way of the entry: no files at it or above it, no other match of its priority. */
  ghost predicate Prevails(table: Table, e: Entry, rx: RegexMatch, segs: seq<string>) {
    && HandlerAt(table, PathTo(e)).Some? && !ServesFiles(table, PathTo(e)) && Clear(table, e)
    && forall f | f in table && PathTo(f) != PathTo(e) && EntryMatches(table, f, rx, segs, true) ::
         PriorityAt(table, PathTo(f)) < PriorityAt(table, PathTo(e))
  }

  lemma WinnerAnswers(table: Table, e: Entry, rx: RegexMatch, segs: seq<string>, params: Params,
                      p: Path, params': Params)
    requires ProperTable(table) && ClashFree(table) && WildcardsComeLast(table) && e in table
    requires EntryMatches(table, e, rx, segs, true) && Prevails(table, e, rx, segs)
    requires MatchAnswer(Built(table), rx, segs, params, Some(p), params')
    ensures p == PathTo(e) && params' == EntryParams(e, rx, segs, true)
  {
    MatchIsScan(table, rx, segs, true, params, Some(p), params');
    var f :| f in table && PathTo(f) == p && EntryMatches(table, f, rx, segs, true);
    TrieRefinesScan(table, rx, segs);
    MatchBindings(table, e, rx, segs, true, params, params');
  }

  /**
   * Among any other registrations, a route like this that prevails answers the requests that it takes, and
   * the caller's parameters become exactly the one that its last segment binds: the value given, all
   * segments that are left for a wildcard, the default when nothing is given or just the name.
   */
  lemma PrevailingAnswers(router: Router, regs: seq<Registration>, i: nat, dirs: seq<string>, last: Segment,
                          path: string, given: seq<string>, params: Params, result: MatchResult, params': Params)
    requires Readings(regs) && RouterAsScan.Holds(router, regs) && i < |regs| && regs[i].Route?
    requires Literal(dirs) && Printable(last) && '/' !in PrintSegment(last)
    requires regs[i].call.path == PatternOf(dirs, last)
    requires Segments(path) == dirs + given && TakesRest(last, router.rx, given)
    requires var table := TableOf(regs, regs[i].call.verb);
             ClashFree(table) && WildcardsComeLast(table)
                 && Prevails(table, EntryOf(regs[i]), router.rx, Segments(path))
    requires router.DispatchedTo(regs[i].call.verb, Segments(path), params, result, params')
    ensures result.target.ChainOf? && result.target.node.path == NodeOf(regs[i].call)
    ensures params' == GivenParams(last, given)
  {
    var verb, e := regs[i].call.verb, EntryOf(regs[i]);
    var table := TableOf(regs, verb);
    PatternRead(dirs, last);
    PatternIsNotRoot(dirs, last);
    NamedRoutes.EntryListed(regs, i);
    RouterIsBuilt(regs, verb);
    RestTaken(table, e, dirs, last, router.rx, given);
    TrieRefinesScan(table, router.rx, Segments(path));
    var p :| p in router.indexes[verb]
      && MatchAnswer(router.indexes[verb], router.rx, Segments(path), params, Some(p), params')
      && if router.indexes[verb][p].isStaticFiles
         then result.target == FilesFrom(router.indexes[verb][p].baseDir)
         else result.target.ChainOf? && result.target.node.path == p;
    WinnerAnswers(table, e, router.rx, Segments(path), params, p, params');
    RestParams(e, dirs, last, router.rx, given);
    BuiltDescribesAt(table, p);
  }

  lemma RestTaken(table: Table, e: Entry, dirs: seq<string>, last: Segment, rx: RegexMatch, given: seq<string>)
    requires e.segs == SegmentsOf(dirs, last) && !e.action.Files? && HandlerAt(table, PathTo(e)).Some?
    requires (last.kind != PARAMETER ==> !last.optional) && TakesRest(last, rx, given)
    ensures EntryMatches(table, e, rx, dirs + given, true)
  {
    assert (dirs + given)[..|dirs|] == dirs && (dirs + given)[|dirs|..] == given;
    MatchesRest(table, e, dirs, last, rx, dirs + given);
  }

  lemma PatternIsNotRoot(dirs: seq<string>, last: Segment)
    requires Literal(dirs) && Printable(last)
    ensures PatternOf(dirs, last) != "/"
  {
    SegmentRoundTrip(last);
    var texts := dirs + [PrintSegment(last)];
    assert texts[0] != "" by {
      assert dirs != [] ==> dirs[0] in dirs;
    }
    assert Join(texts, '/') != "";
  }

  /** A router with nothing but such a route answers exactly the requests that it takes. */
  lemma OnlyRouteAnswers(router: Router, call: RouteCall, dirs: seq<string>, last: Segment, segs: seq<string>)
    requires Literal(dirs) && Printable(last) && '/' !in PrintSegment(last) && call.path == PatternOf(dirs, last)
    requires call.handler.Some? && ReadablePath(call.path) && RouterAsScan.Holds(router, [Route(call)])
    ensures router.MethodAnswers(call.verb, segs)
        <==> |segs| >= |dirs| && segs[..|dirs|] == dirs && TakesRest(last, router.rx, segs[|dirs|..])
  {
    var regs := [Route(call)];
    var e := EntryOf(regs[0]);
    PatternRead(dirs, last);
    PatternIsNotRoot(dirs, last);
    RouterIsBuilt(regs, call.verb);
    assert regs[..0] == [];
    assert TableOf(regs, call.verb) == [e];
    OneEntryAnswers(e, router.rx, segs);
    MatchesRest([e], e, dirs, last, router.rx, segs);
  }

  lemma OneEntryAnswers(e: Entry, rx: RegexMatch, segs: seq<string>)
    requires RouteTable.Proper(e) && e.action.Handle?
    ensures Answers(Built([e]), rx, segs) <==> EntryMatches([e], e, rx, segs, true)
    ensures HandlerAt([e], PathTo(e)) == e.action.handler
  {
    TrieRefinesScan([e], rx, segs);
    BuiltDescribesAt([e], []);
    assert !HasCatchAll([e]);
    assert e in [e];
  }

  // ---------- What a missing last segment costs ----------

  /** As in "/:user/:page=1". */
  function TwoParameters(user: string, page: string, one: string): seq<Segment> {
    [Segment(PARAMETER, user, false, "", ""), Segment(PARAMETER, page, true, one, "")]
  }

  lemma TwoParametersAnswer(table: Table, user: string, page: string, one: string, value: string, rx: RegexMatch,
                            params: Params, answer: Option<Path>, params': Params)
    requires table == [Entry(TwoParameters(user, page, one), Handle(Some(1), [], 0))] && ProperTable(table)
    requires one != "" && MatchAnswer(Built(table), rx, [value], params, answer, params')
    ensures answer == Some([user, page]) && params' == map[page := one]
  {
    var e := table[0];
    assert PathTo(e) == [user, page] && e in table;
    assert PatternWalks(e.segs, 1, rx, [value], true);
    assert HandlerAt(table, PathTo(e)) == Some(1);
    assert EntryMatches(table, e, rx, [value], true);
    MatchIsScan(table, rx, [value], true, params, answer, params');
    var f :| f in table && PathTo(f) == answer.value;
    MissingOptional(table, e, rx, [value], params, params');
  }

  lemma TwoParametersRead(user: string, page: string, one: string)
    requires forall s | s in TwoParameters(user, page, one) :: Printable(s) && '/' !in PrintSegment(s)
    ensures var path := PrintPath(TwoParameters(user, page, one));
            ReadablePath(path)
            && RouteEntry(path, Some(1), [], 0) == Entry(TwoParameters(user, page, one), Handle(Some(1), [], 0))
  {
    PatternRoundTrip(TwoParameters(user, page, one));
    RootPath();
  }

  /** A route like "/:user/:page=1" requested as "/x" answers, and the map has the default but not the user. */
  lemma OptionalLosesOthers(user: string, page: string, one: string, value: string, rx: RegexMatch, params: Params)
    requires one != "" && forall s | s in TwoParameters(user, page, one) :: Printable(s) && '/' !in PrintSegment(s)
    ensures ReadablePath(PrintPath(TwoParameters(user, page, one)))
    ensures var table := [RouteEntry(PrintPath(TwoParameters(user, page, one)), Some(1), [], 0)];
            forall answer, params' | MatchAnswer(Built(table), rx, [value], params, answer, params') ::
              answer == Some([user, page]) && params' == map[page := one]
  {
    TwoParametersRead(user, page, one);
    var path := PrintPath(TwoParameters(user, page, one));
    var table := [RouteEntry(path, Some(1), [], 0)];
    EntriesProper(path, Some(1), [], 0, "");
    forall answer, params' | MatchAnswer(Built(table), rx, [value], params, answer, params')
      ensures answer == Some([user, page]) && params' == map[page := one]
    {
      TwoParametersAnswer(table, user, page, one, value, rx, params, answer, params');
    }
  }
}
