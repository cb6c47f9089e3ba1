/** The router as its users see it: after any registrations, `match_route` answers like a scan of them. */
module RouterAsScan {
  import opened Patterns
  import opened Tries
  import opened Bindings
  import opened Matcher
  import opened RouteTable
  import opened LinearScan
  import opened MatchedParams
  import opened Routers
  import opened RouteGroups

  /** A call of `add_route` or of `add_static_route`. */
  datatype Registration = Route(call: RouteCall) | StaticFiles(path: string, baseDir: string)

  const NOTHING_YET := Content(map[], map[])

  ghost predicate Readings(regs: seq<Registration>) {
    forall i | 0 <= i < |regs| :: regs[i].Route? ==> ReadablePath(regs[i].call.path)
  }

  ghost function WithFiles(c: Content, path: string, baseDir: string): (r: Content)
    requires Routers.Proper(c)
    ensures Routers.Proper(r)
  {
    EmptyWellFormed();
    var t := IndexOr(c.indexes, "GET");
    WithStaticFilesWellFormed(t, path, baseDir);
    c.(indexes := c.indexes["GET" := WithStaticFiles(t, path, baseDir)])
  }

  /** The router's content after registrations in order, up to one that raises, and whether none did. */
  ghost function AfterAll(c: Content, regs: seq<Registration>): (r: (Content, bool))
    requires Routers.Proper(c) && Readings(regs)
    ensures Routers.Proper(r.0)
    decreases |regs|
  {
    if regs == [] then (c, true)
    else
      var n := |regs| - 1;
      var z := AfterAll(c, regs[..n]);
      if z.1 then AfterOne(z.0, regs[n]) else z
  }

  /** The content after one registration, and whether it went through. */
  ghost function AfterOne(c: Content, reg: Registration): (r: (Content, bool))
    requires Routers.Proper(c) && (reg.Route? ==> ReadablePath(reg.call.path))
    ensures Routers.Proper(r.0)
  {
    match reg
    case Route(call) => if NameTaken(c, call) then (c, false) else (Called(c, call), true)
    case StaticFiles(path, baseDir) => (WithFiles(c, path, baseDir), true)
  }

  method RegisterOne(router: Router, reg: Registration) returns (ok: bool)
    requires router.Valid() && (reg.Route? ==> ReadablePath(reg.call.path))
    modifies router`trees, router`namedRoutes, router`indexes, router`repr, router.repr
    ensures router.Valid() && (forall o | o in router.repr :: o in old(router.repr) || fresh(o))
    ensures Routers.Proper(old(router.Contents())) && (router.Contents(), ok) == AfterOne(old(router.Contents()), reg)
  {
    router.ContentsProper();
    match reg
    case Route(call) =>
      ok := router.AddRoute(call.verb, call.path, call.handler, call.middlewares, call.name, call.priority);
    case StaticFiles(path, baseDir) =>
      router.AddStaticRoute(path, baseDir);
      ok := true;
  }

  /** Registering in place, stopping where a call raises. */
  method RegisterAll(router: Router, regs: seq<Registration>) returns (ok: bool)
    requires router.Valid() && Readings(regs)
    modifies router`trees, router`namedRoutes, router`indexes, router`repr, router.repr
    ensures router.Valid() && Routers.Proper(old(router.Contents()))
    ensures (router.Contents(), ok) == AfterAll(old(router.Contents()), regs)
  {
    ok := true;
    router.ContentsProper();
    ghost var c := router.Contents();
    var i := 0;
    while i < |regs| && ok
      invariant 0 <= i <= |regs| && router.Valid() && (forall o | o in router.repr :: o in old(router.repr) || fresh(o))
      invariant if ok then (router.Contents(), true) == AfterAll(c, regs[..i])
                else (router.Contents(), false) == AfterAll(c, regs)
    {
      assert regs[..i + 1][..i] == regs[..i];
      ok := RegisterOne(router, regs[i]);
      i := i + 1;
      if !ok {
        StaysRaised(c, regs, i);
      }
    }
    assert regs[..|regs|] == regs;
  }

  lemma {:induction false} StaysRaised(c: Content, regs: seq<Registration>, i: nat)
    requires Routers.Proper(c) && Readings(regs) && i <= |regs| && !AfterAll(c, regs[..i]).1
    ensures AfterAll(c, regs) == AfterAll(c, regs[..i])
    decreases |regs| - i
  {
    if i == |regs| {
      assert regs[..i] == regs;
    } else {
      assert regs[..i + 1][..i] == regs[..i];
      StaysRaised(c, regs, i + 1);
    }
  }

  // ---------- The table of a method ----------

  function EntryOf(reg: Registration): Entry
    requires reg.Route? ==> ReadablePath(reg.call.path)
  {
    match reg
    case Route(call) => RouteEntry(call.path, call.handler, call.middlewares, call.priority)
    case StaticFiles(path, baseDir) => FilesEntry(path, baseDir)
  }

  function VerbOf(reg: Registration): string {
    if reg.Route? then reg.call.verb else "GET"
  }

  /** The registrations made for one method, in order. */
  ghost function TableOf(regs: seq<Registration>, verb: string): (table: Table)
    requires Readings(regs)
    ensures ProperTable(table)
    decreases |regs|
  {
    if regs == [] then []
    else
      var n := |regs| - 1;
      var before := TableOf(regs[..n], verb);
      if VerbOf(regs[n]) != verb then before
      else
        EntryIsProper(regs[n]);
        before + [EntryOf(regs[n])]
  }

  lemma EntryIsProper(reg: Registration)
    requires reg.Route? ==> ReadablePath(reg.call.path)
    ensures RouteTable.Proper(EntryOf(reg))
  {
    match reg
    case Route(call) => EntriesProper(call.path, call.handler, call.middlewares, call.priority, "");
    case StaticFiles(path, baseDir) => EntriesProper(path, None, [], 0, baseDir);
  }

  lemma BuiltSnoc(table: Table, e: Entry)
    ensures Built(table + [e]) == Register(Built(table), e)
  {
    assert (table + [e])[..|table|] == table;
  }

  /** One registration grows the tree of its own method by its entry, and no other. */
  lemma OneTreeGrows(c: Content, reg: Registration, verb: string)
    requires Routers.Proper(c) && (reg.Route? ==> ReadablePath(reg.call.path)) && AfterOne(c, reg).1
    ensures WellFormed(IndexOr(c.indexes, verb))
    ensures var r := AfterOne(c, reg).0;
            && IndexOr(r.indexes, verb) == (if VerbOf(reg) == verb then Register(IndexOr(c.indexes, verb), EntryOf(reg))
                                            else IndexOr(c.indexes, verb))
            && (verb in r.indexes <==> verb in c.indexes || VerbOf(reg) == verb)
  {
    EmptyWellFormed();
    var t := IndexOr(c.indexes, verb);
    match reg
    case Route(call) => RegisterIsAdd(t, call.path, call.handler, call.middlewares, call.priority, "");
    case StaticFiles(path, baseDir) => RegisterIsAdd(t, path, None, [], 0, baseDir);
  }

  /** A method's tree is the trie built of its registrations. */
  lemma {:induction false} RouterIsBuilt(regs: seq<Registration>, verb: string)
    requires Readings(regs) && AfterAll(NOTHING_YET, regs).1
    ensures var c := AfterAll(NOTHING_YET, regs).0; IndexOr(c.indexes, verb) == Built(TableOf(regs, verb))
    ensures verb in AfterAll(NOTHING_YET, regs).0.indexes <==> TableOf(regs, verb) != []
    decreases |regs|
  {
    if regs == [] {
    } else {
      var n := |regs| - 1;
      RouterIsBuilt(regs[..n], verb);
      OneTreeGrows(AfterAll(NOTHING_YET, regs[..n]).0, regs[n], verb);
      BuiltSnoc(TableOf(regs[..n], verb), EntryOf(regs[n]));
    }
  }

  // ---------- The theorem ----------

  /** The scan's verdict on a request made with a method. */
  ghost predicate ScanAnswers(regs: seq<Registration>, verb: string, rx: RegexMatch, segs: seq<string>, byName: bool)
    requires Readings(regs)
  {
    ScanFinds(TableOf(regs, verb), rx, segs, byName) || HasCatchAll(TableOf(regs, verb))
  }

  /** Every method's table is clash-free, and the request is name-fresh unless names are tried too. */
  ghost predicate Scannable(regs: seq<Registration>, segs: seq<string>, byName: bool)
    requires Readings(regs)
  {
    forall verb {:trigger TableOf(regs, verb)} ::
      ClashFree(TableOf(regs, verb)) && (byName || NameFresh(TableOf(regs, verb), segs))
  }

  /** A router that has taken these registrations and nothing else. */
  ghost predicate Holds(router: Router, regs: seq<Registration>)
    requires Readings(regs)
    reads router, router.repr
  {
    router.Valid() && AfterAll(NOTHING_YET, regs) == (router.Contents(), true)
  }

  lemma AnswersLikeScan(router: Router, regs: seq<Registration>, verb: string, segs: seq<string>, byName: bool)
    requires Readings(regs) && Holds(router, regs) && Scannable(regs, segs, byName)
    ensures router.MethodAnswers(verb, segs) <==> ScanAnswers(regs, verb, router.rx, segs, byName)
  {
    RouterIsBuilt(regs, verb);
    var table := TableOf(regs, verb);
    if verb in router.indexes {
      TrieRefinesScan(table, router.rx, segs);
      BuiltDescribesAt(table, []);
      if !byName {
        ScanIgnoresNames(table, router.rx, segs);
      }
    }
  }

  /** What the winning registration's node is made into. */
  ghost predicate Runs(table: Table, b: Path, target: Target)
    reads if target.ChainOf? then {target.node} else {}
  {
    if ServesFiles(table, b) then target == FilesFrom(BaseDirAt(table, b))
    else target.ChainOf? && target.node.path == b
         && target.node.info.handler == HandlerAt(table, b) && target.node.info.middlewares == MiddlewaresAt(table, b)
  }

  /** Registration `e` has won: it matches, none in the clear is better, its node is run, with its bindings. */
  ghost predicate Wins(table: Table, e: Entry, rx: RegexMatch, segs: seq<string>, byName: bool,
                       target: Target, params: Params)
    reads if target.ChainOf? then {target.node} else {}
  {
    && e in table && EntryMatches(table, e, rx, segs, byName)
    && BestEntry(table, rx, segs, byName, PathTo(e)) && Runs(table, PathTo(e), target)
    && (WildcardsComeLast(table) ==> params == EntryParams(e, rx, segs, byName))
  }

  /**
   * `match_route` against a scan of the registrations: something is run exactly when one made for the
   * effective method matches or is its catch-all, and then it is that of a best matching registration, with
   * its bindings, or of the catch-all when none matches; otherwise the parameters are untouched and the
   * methods allowed are exactly the others whose registrations match.
   */
  lemma MatchRouteIsScan(router: Router, regs: seq<Registration>, verb: string, segs: seq<string>, byName: bool,
                         params: Params, result: MatchResult, params': Params)
    requires Readings(regs) && Holds(router, regs) && Scannable(regs, segs, byName)
    requires router.DispatchedTo(verb, segs, params, result, params') && router.Allowed(verb, segs, result)
    ensures var table := TableOf(regs, verb);
            && (result.target.FilesFrom? || result.target.ChainOf?
                <==> ScanAnswers(regs, verb, router.rx, segs, byName))
            && (ScanFinds(table, router.rx, segs, byName) ==>
                  exists e :: Wins(table, e, router.rx, segs, byName, result.target, params'))
            && (!ScanFinds(table, router.rx, segs, byName) ==> params' == params)
            && (!ScanFinds(table, router.rx, segs, byName) && HasCatchAll(table) ==> Runs(table, [], result.target))
    ensures !ScanAnswers(regs, verb, router.rx, segs, byName) ==>
              forall m :: m in result.allowed <==> m != verb && ScanAnswers(regs, m, router.rx, segs, byName)
  {
    forall m
      ensures router.MethodAnswers(m, segs) <==> ScanAnswers(regs, m, router.rx, segs, byName)
    {
      AnswersLikeScan(router, regs, m, segs, byName);
    }
    if router.MethodAnswers(verb, segs) {
      AnswerIsScan(router, regs, verb, segs, byName, params, result, params');
    }
  }

  lemma AnswerIsScan(router: Router, regs: seq<Registration>, verb: string, segs: seq<string>, byName: bool,
                     params: Params, result: MatchResult, params': Params)
    requires Readings(regs) && Holds(router, regs) && Scannable(regs, segs, byName)
    requires router.DispatchedTo(verb, segs, params, result, params') && router.MethodAnswers(verb, segs)
    ensures result.target.FilesFrom? || result.target.ChainOf?
    ensures var table := TableOf(regs, verb);
            && (ScanFinds(table, router.rx, segs, byName) ==>
                  exists e :: Wins(table, e, router.rx, segs, byName, result.target, params'))
            && (!ScanFinds(table, router.rx, segs, byName)
                ==> params' == params && HasCatchAll(table) && Runs(table, [], result.target))
  {
    RouterIsBuilt(regs, verb);
    var table := TableOf(regs, verb);
    var p :| p in router.indexes[verb]
      && MatchAnswer(router.indexes[verb], router.rx, segs, params, Some(p), params')
      && result.allowed == []
      && if router.indexes[verb][p].isStaticFiles then result.target == FilesFrom(router.indexes[verb][p].baseDir)
         else
           result.target.ChainOf? && result.target.node.path == p && result.target.node.info == router.indexes[verb][p];
    MatchIsScan(table, router.rx, segs, byName, params, Some(p), params');
    BuiltDescribesAt(table, p);
    if ScanFinds(table, router.rx, segs, byName) {
      BestWins(table, router.rx, segs, byName, p, result.target, params, params');
    }
  }

  /** A matched registration whose node is run has won. */
  lemma BestWins(table: Table, rx: RegexMatch, segs: seq<string>, byName: bool, p: Path,
                 target: Target, params: Params, params': Params)
    requires ProperTable(table) && ClashFree(table) && (byName || NameFresh(table, segs))
    requires MatchAnswer(Built(table), rx, segs, params, Some(p), params') && ScanFinds(table, rx, segs, byName)
    requires Runs(table, p, target)
    ensures exists e :: Wins(table, e, rx, segs, byName, target, params')
  {
    MatchIsScan(table, rx, segs, byName, params, Some(p), params');
    var e :| e in table && PathTo(e) == p && EntryMatches(table, e, rx, segs, byName);
    TrieRefinesScan(table, rx, segs);
    if !byName {
      ScanIgnoresNames(table, rx, segs);
    }
    if WildcardsComeLast(table) {
      MatchBindings(table, e, rx, segs, byName, params, params');
    }
    assert Wins(table, e, rx, segs, byName, target, params');
  }

  /** Registering and then matching, in one go. */
  method Answer(rx: RegexMatch, regs: seq<Registration>, request: Requests.Request, params: Params)
    returns (router: Router, ok: bool, result: MatchResult, params': Params)
    requires Readings(regs)
    ensures router.rx == rx && (ok ==> Holds(router, regs))
    ensures ok ==>
              var verb := EffectiveMethod(request.verb, request.headers, request.uri);
              var segs := Segments(request.GetPath());
              router.DispatchedTo(verb, segs, params, result, params') && router.Allowed(verb, segs, result)
  {
    router := new Router(rx);
    ok := RegisterAll(router, regs);
    result, params' := router.MatchRoute(request, params);
  }

  // ---------- Groups ----------

  function AsRegistrations(calls: seq<RouteCall>): (r: seq<Registration>)
    ensures |r| == |calls|
  {
    seq(|calls|, i requires 0 <= i < |calls| => Route(calls[i]))
  }

  /** What a tree of groups does is a run of registrations, so the theorem speaks of it too. */
  lemma {:induction false} GroupsAreRegistrations(c: Content, calls: seq<RouteCall>)
    requires Routers.Proper(c) && ReadableCalls(calls)
    ensures Readings(AsRegistrations(calls)) && AfterAll(c, AsRegistrations(calls)) == AfterCalls(c, calls)
    decreases |calls|
  {
    if calls == [] {
    } else {
      var n := |calls| - 1;
      assert calls == calls[..n] + [calls[n]];
      GroupsAreRegistrations(c, calls[..n]);
      AfterBoth(c, calls[..n], [calls[n]]);
      assert AsRegistrations(calls)[..n] == AsRegistrations(calls[..n]);
    }
  }
}
