/** What a router holds for each registration, and what that means for the requests made of it. */
module StoredRoutes {
  import opened Patterns
  import opened Middlewares
  import opened Tries
  import opened Bindings
  import opened Matcher
  import opened RouteTable
  import opened LinearScan
  import opened MatchedParams
  import opened Routers
  import opened RouteGroups
  import opened RouterAsScan
  import NamedRoutes

  /** The i-th registration is an `add_route` call, and no later one for its method ends where it does. */
  ghost predicate LastOfItsNode(regs: seq<Registration>, i: nat)
    requires Readings(regs)
  {
    && i < |regs| && regs[i].Route?
    && forall j | i < j < |regs| && regs[j].Route? && regs[j].call.verb == regs[i].call.verb ::
         PathTo(EntryOf(regs[j])) != PathTo(EntryOf(regs[i]))
  }

  /** What a node of the kind has, when no priority is given: literals before parameters before wildcards. */
  function OwnPriority(kind: NodeType): int {
    match kind
    case STATIC => 3
    case PARAMETER => 2
    case WILDCARD => 1
    case REGEX => 0
  }

  /** No earlier registration for the method ends there either. */
  ghost predicate FirstOfItsNode(regs: seq<Registration>, i: nat)
    requires Readings(regs) && i < |regs| && regs[i].Route?
  {
    forall j | 0 <= j < i && regs[j].Route? && regs[j].call.verb == regs[i].call.verb ::
      PathTo(EntryOf(regs[j])) != PathTo(EntryOf(regs[i]))
  }

  /** The table's account of the entry's end is the entry's own; `first` if the end had none before. */
  ghost predicate Remembered(table: Table, e: Entry, first: bool)
    requires !e.action.Files?
  {
    var b := PathTo(e);
    && HandlerAt(table, b) == e.action.handler && MiddlewaresAt(table, b) == e.action.middlewares
    && (e.action.Handle? && e.action.priority != 0 ==> PriorityAt(table, b) == e.action.priority)
    && (e.action.Handle? && e.action.priority == 0 && (KindOf(e.segs) != REGEX || first) ==>
          PriorityAt(table, b) == OwnPriority(KindOf(e.segs)))
  }

  lemma {:induction false} TableRemembers(regs: seq<Registration>, i: nat, first: bool)
    requires Readings(regs) && LastOfItsNode(regs, i) && (first ==> FirstOfItsNode(regs, i))
    ensures Remembered(TableOf(regs, regs[i].call.verb), EntryOf(regs[i]), first)
    decreases |regs|
  {
    if i < |regs| - 1 {
      OneLess(regs, i, first);
      TableRemembers(regs[..|regs| - 1], i, first);
      OneMore(regs, EntryOf(regs[i]), regs[i].call.verb, first);
    } else {
      LastRemembered(regs, i, first);
    }
  }

  lemma LastRemembered(regs: seq<Registration>, n: nat, first: bool)
    requires Readings(regs) && n == |regs| - 1 && regs[n].Route?
    requires first ==> FirstOfItsNode(regs, n)
    ensures Remembered(TableOf(regs, regs[n].call.verb), EntryOf(regs[n]), first)
  {
    if first {
      ClearBefore(regs, n);
    }
    TableEnds(regs, n);
    NowRemembered(TableOf(regs[..n], regs[n].call.verb), EntryOf(regs[n]), first);
  }

  lemma TableEnds(regs: seq<Registration>, n: nat)
    requires Readings(regs) && n == |regs| - 1 && regs[n].Route?
    ensures TableOf(regs, regs[n].call.verb) == TableOf(regs[..n], regs[n].call.verb) + [EntryOf(regs[n])]
  {
  }

  lemma ClearBefore(regs: seq<Registration>, n: nat)
    requires Readings(regs) && n == |regs| - 1 && regs[n].Route? && FirstOfItsNode(regs, n)
    ensures PriorityAt(TableOf(regs[..n], regs[n].call.verb), PathTo(EntryOf(regs[n]))) == 0
  {
    NothingBefore(regs[..n], regs[n].call.verb, PathTo(EntryOf(regs[n])));
  }

  lemma OneLess(regs: seq<Registration>, i: nat, first: bool)
    requires Readings(regs) && LastOfItsNode(regs, i) && (first ==> FirstOfItsNode(regs, i)) && i < |regs| - 1
    ensures LastOfItsNode(regs[..|regs| - 1], i) && (first ==> FirstOfItsNode(regs[..|regs| - 1], i))
    ensures var last := regs[|regs| - 1];
            last.Route? && last.call.verb == regs[i].call.verb ==> PathTo(EntryOf(last)) != PathTo(EntryOf(regs[i]))
  {
  }

  lemma OneMore(regs: seq<Registration>, e: Entry, verb: string, first: bool)
    requires Readings(regs) && regs != [] && !e.action.Files?
    requires Remembered(TableOf(regs[..|regs| - 1], verb), e, first)
    requires var last := regs[|regs| - 1];
             last.Route? && last.call.verb == verb ==> PathTo(EntryOf(last)) != PathTo(e)
    ensures Remembered(TableOf(regs, verb), e, first)
  {
    var n := |regs| - 1;
    if VerbOf(regs[n]) == verb {
      StillRemembered(TableOf(regs[..n], verb), e, EntryOf(regs[n]), first);
    }
  }

  lemma StillRemembered(table: Table, e: Entry, other: Entry, first: bool)
    requires !e.action.Files? && Remembered(table, e, first)
    requires other.action.Files? || PathTo(other) != PathTo(e)
    ensures Remembered(table + [other], e, first)
  {
    assert (table + [other])[..|table|] == table;
  }

  lemma NowRemembered(table: Table, e: Entry, first: bool)
    requires !e.action.Files? && (first ==> PriorityAt(table, PathTo(e)) == 0)
    ensures Remembered(table + [e], e, first)
  {
    assert (table + [e])[..|table|] == table;
  }

  lemma {:induction false} NothingBefore(regs: seq<Registration>, verb: string, b: Path)
    requires Readings(regs)
    requires forall j | 0 <= j < |regs| && regs[j].Route? && regs[j].call.verb == verb :: PathTo(EntryOf(regs[j])) != b
    ensures PriorityAt(TableOf(regs, verb), b) == 0
    decreases |regs|
  {
    if regs != [] {
      NothingBefore(regs[..|regs| - 1], verb, b);
    }
  }

  lemma RootPath()
    ensures Segments("/") == []
  {
    SegmentsAtom("");
    SegmentsPiece("", "");
    assert "" + "/" + "" == "/";
  }

  /** Where a registration's pattern ends. */
  function NodeOf(call: RouteCall): Path
    requires ReadablePath(call.path)
  {
    Parts(ReadAll(Segments(call.path)))
  }

  /**
   * The router holds exactly what was asked for: at the end of the pattern, in the tree of the method, the
   * handler and the middlewares of the call, and its priority or that of the kind of its last segment.
   */
  lemma RouteStored(router: Router, regs: seq<Registration>, i: nat)
    requires Readings(regs) && RouterAsScan.Holds(router, regs) && LastOfItsNode(regs, i)
    requires ClashFree(TableOf(regs, regs[i].call.verb))
    ensures var call := regs[i].call;
            && call.verb in router.indexes && NodeOf(call) in router.indexes[call.verb]
            && var n := router.indexes[call.verb][NodeOf(call)];
               var kind := KindOf(ReadAll(Segments(call.path)));
               && n.handler == call.handler && n.middlewares == call.middlewares
               && (call.path != "/" && call.priority != 0 ==> n.priority == call.priority)
               && (call.path != "/" && call.priority == 0 && (kind != REGEX || FirstOfItsNode(regs, i))
                   ==> n.priority == OwnPriority(kind))
  {
    var call, e := regs[i].call, EntryOf(regs[i]);
    var table := TableOf(regs, call.verb);
    RouterIsBuilt(regs, call.verb);
    NamedRoutes.EntryListed(regs, i);
    EndReads(table, e);
    BuiltDescribesAt(table, PathTo(e));
    TableRemembers(regs, i, FirstOfItsNode(regs, i));
    RootPath();
  }

  // ---------- Groups ----------

  /** A new router after the callback of a top group has run. */
  method Grouped(rx: RegexMatch, prefix: string, middlewares: seq<Middleware>, items: seq<GroupItem>)
    returns (router: Router, ok: bool)
    requires ReadableCalls(Flat(prefix, middlewares, items))
    ensures Readings(AsRegistrations(Flat(prefix, middlewares, items)))
    ensures router.rx == rx && (ok ==> RouterAsScan.Holds(router, AsRegistrations(Flat(prefix, middlewares, items))))
  {
    router := new Router(rx);
    var group := new RouteGroup(prefix, router, middlewares);
    GroupsAreRegistrations(NOTHING_YET, Flat(prefix, middlewares, items));
    ok := group.Run(items);
  }

  lemma {:induction false} FlatJoins(prefix: string, middlewares: seq<Middleware>, a: seq<GroupItem>, b: seq<GroupItem>)
    ensures Flat(prefix, middlewares, a + b) == Flat(prefix, middlewares, a) + Flat(prefix, middlewares, b)
    decreases |a|
  {
    if a == [] {
      assert a + b == b;
    } else {
      assert (a + b)[1..] == a[1..] + b;
      FlatJoins(prefix, middlewares, a[1..], b);
    }
  }

  /**
   * A route inside nested groups is stored, whatever else the groups register, under all their prefixes and
   * its path, with the middlewares of the outermost group first and its own last.
   */
  lemma GroupedRouteStored(router: Router, before: seq<GroupItem>, prefixes: seq<string>, lists: seq<seq<Middleware>>,
                           call: RouteCall, after: seq<GroupItem>)
    requires |prefixes| == |lists|
    requires var regs := AsRegistrations(Flat("", [], before + [NestOf(prefixes, lists, call)] + after));
             var i := |Flat("", [], before)|;
             && Readings(regs) && RouterAsScan.Holds(router, regs) && LastOfItsNode(regs, i)
                 && ClashFree(TableOf(regs, call.verb))
    ensures ReadablePath(Joined(prefixes) + call.path) && call.verb in router.indexes
    ensures var node := Parts(ReadAll(Segments(Joined(prefixes) + call.path)));
            && node in router.indexes[call.verb]
            && router.indexes[call.verb][node].handler == call.handler
            && router.indexes[call.verb][node].middlewares == Joined(lists) + call.middlewares
  {
    var nest := NestOf(prefixes, lists, call);
    var calls := Flat("", [], before + [nest] + after);
    var i := |Flat("", [], before)|;
    FlatJoins("", [], before + [nest], after);
    FlatJoins("", [], before, [nest]);
    GroupedCall("", [], prefixes, lists, call);
    assert calls[i] == Flat("", [], [nest])[0];
    assert "" + Joined(prefixes) == Joined(prefixes) && [] + Joined(lists) == Joined(lists);
    var regs := AsRegistrations(calls);
    assert regs[i] == Route(calls[i]);
    RouteStored(router, regs, i);
  }

  // ---------- Static files and the catch-all ----------

  ghost predicate LastFiles(regs: seq<Registration>, i: nat) {
    && i < |regs| && regs[i].StaticFiles?
    && forall j | i < j < |regs| && regs[j].StaticFiles? :: Segments(regs[j].path) != Segments(regs[i].path)
  }

  lemma FilesPath(path: string, baseDir: string)
    ensures PathTo(FilesEntry(path, baseDir)) == Segments(path)
  {
  }

  lemma {:induction false} TableRemembersFiles(regs: seq<Registration>, i: nat)
    requires Readings(regs) && LastFiles(regs, i)
    ensures BaseDirAt(TableOf(regs, "GET"), Segments(regs[i].path)) == regs[i].baseDir
    decreases |regs|
  {
    FilesPath(regs[i].path, regs[i].baseDir);
    if i < |regs| - 1 {
      FilesOneLess(regs, i);
      TableRemembersFiles(regs[..|regs| - 1], i);
      FilesOneMore(regs, Segments(regs[i].path));
    } else {
      FilesNow(regs, i);
    }
  }

  lemma FilesOneLess(regs: seq<Registration>, i: nat)
    requires LastFiles(regs, i) && i < |regs| - 1
    ensures LastFiles(regs[..|regs| - 1], i)
    ensures var last := regs[|regs| - 1];
            last.StaticFiles? ==> PathTo(FilesEntry(last.path, last.baseDir)) != Segments(regs[i].path)
  {
    var last := regs[|regs| - 1];
    if last.StaticFiles? {
      FilesPath(last.path, last.baseDir);
    }
  }

  lemma FilesOneMore(regs: seq<Registration>, p: Path)
    requires Readings(regs) && regs != []
    requires var last := regs[|regs| - 1]; last.StaticFiles? ==> PathTo(FilesEntry(last.path, last.baseDir)) != p
    ensures BaseDirAt(TableOf(regs, "GET"), p) == BaseDirAt(TableOf(regs[..|regs| - 1], "GET"), p)
  {
  }

  lemma FilesNow(regs: seq<Registration>, n: nat)
    requires Readings(regs) && n == |regs| - 1 && regs[n].StaticFiles?
    ensures BaseDirAt(TableOf(regs, "GET"), Segments(regs[n].path)) == regs[n].baseDir
  {
    FilesEnd(regs, n);
    LastFilesCount(TableOf(regs[..n], "GET"), regs[n].path, regs[n].baseDir);
  }

  lemma FilesEnd(regs: seq<Registration>, n: nat)
    requires Readings(regs) && n == |regs| - 1 && regs[n].StaticFiles?
    ensures TableOf(regs, "GET") == TableOf(regs[..n], "GET") + [FilesEntry(regs[n].path, regs[n].baseDir)]
  {
  }

  lemma LastFilesCount(table: Table, path: string, baseDir: string)
    ensures BaseDirAt(table + [FilesEntry(path, baseDir)], Segments(path)) == baseDir
  {
    FilesPath(path, baseDir);
  }

  lemma FilesMatch(table: Table, path: string, baseDir: string, rx: RegexMatch, rest: seq<string>)
    ensures EntryMatches(table, FilesEntry(path, baseDir), rx, Segments(path) + rest, true)
  {
  }

  /** Files registered under a path are served from their directory to GET requests for it and all below it. */
  lemma FilesStored(router: Router, regs: seq<Registration>, i: nat, rest: seq<string>)
    requires Readings(regs) && RouterAsScan.Holds(router, regs) && LastFiles(regs, i) && ClashFree(TableOf(regs, "GET"))
    ensures "GET" in router.indexes && Segments(regs[i].path) in router.indexes["GET"]
    ensures var n := router.indexes["GET"][Segments(regs[i].path)]; n.isStaticFiles && n.baseDir == regs[i].baseDir
    ensures router.MethodAnswers("GET", Segments(regs[i].path) + rest)
  {
    var table, e := TableOf(regs, "GET"), EntryOf(regs[i]);
    RouterIsBuilt(regs, "GET");
    NamedRoutes.EntryListed(regs, i);
    FilesPath(regs[i].path, regs[i].baseDir);
    EndReads(table, e);
    BuiltDescribesAt(table, PathTo(e));
    TableRemembersFiles(regs, i);
    FilesMatch(table, regs[i].path, regs[i].baseDir, router.rx, rest);
    TrieRefinesScan(table, router.rx, Segments(regs[i].path) + rest);
  }

  /** Once "/" is registered for a method, every request made with it is answered. */
  lemma CatchAllAnswers(router: Router, regs: seq<Registration>, i: nat, segs: seq<string>)
    requires Readings(regs) && RouterAsScan.Holds(router, regs) && i < |regs| && regs[i].Route?
        && regs[i].call.path == "/"
    requires ClashFree(TableOf(regs, regs[i].call.verb))
    ensures router.MethodAnswers(regs[i].call.verb, segs) && router.indexes[regs[i].call.verb][[]].isCatchAll
  {
    var verb := regs[i].call.verb;
    RouterIsBuilt(regs, verb);
    NamedRoutes.EntryListed(regs, i);
    assert EntryOf(regs[i]) in TableOf(regs, verb) && EntryOf(regs[i]).action.CatchAll?;
    BuiltDescribesAt(TableOf(regs, verb), []);
  }

  // ---------- Kinds ----------

  /** Without explicit priorities, a literal end ranks over a parameter, that over a wildcard, that over a regex. */
  ghost predicate RanksOver(a: NodeType, b: NodeType) {
    || (a == STATIC && b != STATIC)
    || (a == PARAMETER && b in {WILDCARD, REGEX})
    || (a == WILDCARD && b == REGEX)
  }

  /** When one route matches a request, one of a lower kind does not answer it. */
  lemma HigherKindAnswers(router: Router, regs: seq<Registration>, i: nat, j: nat, segs: seq<string>, params: Params,
                          result: MatchResult, params': Params)
    requires Readings(regs) && RouterAsScan.Holds(router, regs)
    requires LastOfItsNode(regs, i) && LastOfItsNode(regs, j) && FirstOfItsNode(regs, j)
    requires var verb := regs[i].call.verb;
             && verb == regs[j].call.verb && ClashFree(TableOf(regs, verb))
             && EntryMatches(TableOf(regs, verb), EntryOf(regs[i]), router.rx, segs, true)
             && Clear(TableOf(regs, verb), EntryOf(regs[i]))
             && router.DispatchedTo(verb, segs, params, result, params')
    requires regs[i].call.priority == regs[j].call.priority == 0
    requires regs[i].call.path != "/" && regs[j].call.path != "/"
    requires RanksOver(KindOf(ReadAll(Segments(regs[i].call.path))), KindOf(ReadAll(Segments(regs[j].call.path))))
    ensures result.target.ChainOf? ==> result.target.node.path != NodeOf(regs[j].call)
  {
    NamedRoutes.EntryListed(regs, i);
    HigherKindHasPriority(regs, i, j);
    if result.target.ChainOf? {
      BestIsAnswered(router, regs, regs[i].call.verb, EntryOf(regs[i]), segs, params, result, params');
    }
  }

  lemma HigherKindHasPriority(regs: seq<Registration>, i: nat, j: nat)
    requires Readings(regs) && LastOfItsNode(regs, i) && LastOfItsNode(regs, j) && FirstOfItsNode(regs, j)
    requires regs[i].call.verb == regs[j].call.verb && regs[i].call.priority == regs[j].call.priority == 0
    requires regs[i].call.path != "/" && regs[j].call.path != "/"
    requires RanksOver(KindOf(ReadAll(Segments(regs[i].call.path))), KindOf(ReadAll(Segments(regs[j].call.path))))
    ensures var table := TableOf(regs, regs[i].call.verb);
            PriorityAt(table, PathTo(EntryOf(regs[i]))) > PriorityAt(table, NodeOf(regs[j].call))
  {
    TableRemembers(regs, i, false);
    TableRemembers(regs, j, true);
  }

  lemma BestIsAnswered(router: Router, regs: seq<Registration>, verb: string, e: Entry, segs: seq<string>,
                       params: Params, result: MatchResult, params': Params)
    requires Readings(regs) && RouterAsScan.Holds(router, regs) && ClashFree(TableOf(regs, verb))
    requires e in TableOf(regs, verb) && EntryMatches(TableOf(regs, verb), e, router.rx, segs, true)
    requires Clear(TableOf(regs, verb), e)
    requires router.DispatchedTo(verb, segs, params, result, params') && result.target.ChainOf?
    ensures PriorityAt(TableOf(regs, verb), PathTo(e)) <= PriorityAt(TableOf(regs, verb), result.target.node.path)
  {
    var table := TableOf(regs, verb);
    RouterIsBuilt(regs, verb);
    TrieRefinesScan(table, router.rx, segs);
    var p :| p in router.indexes[verb]
      && MatchAnswer(router.indexes[verb], router.rx, segs, params, Some(p), params')
      && result.target.node.path == p;
    MatchIsScan(table, router.rx, segs, true, params, Some(p), params');
  }
}
