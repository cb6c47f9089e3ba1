/** Named routes through the router: from their registration to a URL and back to the parameters. */
module NamedRoutes {
  import opened Patterns
  import opened Tries
  import opened Bindings
  import opened Matcher
  import opened RouteTable
  import opened LinearScan
  import opened Substitution
  import opened ReverseRouting
  import opened Routers
  import opened RouterAsScan

  /** A name keeps the path it was registered with: a second registration would have raised. */
  lemma {:induction false} NameKept(regs: seq<Registration>, i: nat)
    requires Readings(regs) && AfterAll(NOTHING_YET, regs).1
    requires i < |regs| && regs[i].Route? && regs[i].call.name != ""
    ensures var named := AfterAll(NOTHING_YET, regs).0.named;
            regs[i].call.name in named && named[regs[i].call.name] == regs[i].call.path
    decreases |regs|
  {
    var n := |regs| - 1;
    if i < n {
      NameKept(regs[..n], i);
    }
  }

  /** One of these registrations gives the name. */
  ghost predicate Gives(regs: seq<Registration>, name: string) {
    name != "" && exists i :: 0 <= i < |regs| && regs[i].Route? && regs[i].call.name == name
  }

  lemma GivesMore(regs: seq<Registration>, name: string)
    requires regs != []
    ensures var last := regs[|regs| - 1];
            Gives(regs, name) <==>
              Gives(regs[..|regs| - 1], name) || (name != "" && last.Route? && last.call.name == name)
  {
    var init := regs[..|regs| - 1];
    assert forall i | 0 <= i < |init| :: init[i] == regs[i];
  }

  /** While nothing has raised, the names known are exactly those given. */
  lemma {:induction false} NamesListed(regs: seq<Registration>, name: string)
    requires Readings(regs) && AfterAll(NOTHING_YET, regs).1
    ensures name in AfterAll(NOTHING_YET, regs).0.named <==> Gives(regs, name)
    decreases |regs|
  {
    if regs != [] {
      NamesListed(regs[..|regs| - 1], name);
      GivesMore(regs, name);
    }
  }

  /** No name is given again by a later registration. */
  ghost predicate NamedOnce(regs: seq<Registration>) {
    forall j | 0 <= j < |regs| && regs[j].Route? :: !Gives(regs[..j], regs[j].call.name)
  }

  lemma NamedOnceMore(regs: seq<Registration>)
    requires regs != []
    ensures var last := regs[|regs| - 1];
            NamedOnce(regs) <==>
              NamedOnce(regs[..|regs| - 1]) && (last.Route? ==> !Gives(regs[..|regs| - 1], last.call.name))
  {
    var init := regs[..|regs| - 1];
    assert forall j | 0 <= j < |init| :: init[j] == regs[j] && init[..j] == regs[..j];
    if NamedOnce(init) && (regs[|init|].Route? ==> !Gives(init, regs[|init|].call.name)) {
      forall j | 0 <= j < |regs| && regs[j].Route?
        ensures !Gives(regs[..j], regs[j].call.name)
      {
        assert j < |init| ==> init[j] == regs[j] && init[..j] == regs[..j];
      }
    }
  }

  /** Registering goes through exactly when no name is given twice; a route needs none. */
  lemma {:induction false} RegistersIfNamedOnce(regs: seq<Registration>)
    requires Readings(regs)
    ensures AfterAll(NOTHING_YET, regs).1 <==> NamedOnce(regs)
    decreases |regs|
  {
    if regs != [] {
      var init, last := regs[..|regs| - 1], regs[|regs| - 1];
      RegistersIfNamedOnce(init);
      NamedOnceMore(regs);
      if AfterAll(NOTHING_YET, init).1 && last.Route? {
        NamesListed(init, last.call.name);
      }
    }
  }

  /** A registration's entry is in its method's table. */
  lemma {:induction false} EntryListed(regs: seq<Registration>, i: nat)
    requires Readings(regs) && i < |regs|
    ensures EntryOf(regs[i]) in TableOf(regs, VerbOf(regs[i]))
    decreases |regs|
  {
    var n := |regs| - 1;
    if i < n {
      EntryListed(regs[..n], i);
    }
  }

  /**
   * The i-th registration is a plain named route with a handler, no files served at it or above it, and of
   * higher priority than any other registration for its method that matches the filled path.
   */
  ghost predicate Outranks(regs: seq<Registration>, i: nat, rx: RegexMatch, params: Params)
    requires Readings(regs) && i < |regs| && regs[i].Route?
  {
    var call, table := regs[i].call, TableOf(regs, regs[i].call.verb);
    var b := PathTo(EntryOf(regs[i]));
    && call.name != "" && PlainRoute(call.path, params) && PathValues(params)
    && HandlerAt(table, b).Some? && !ServesFiles(table, b) && Clear(table, EntryOf(regs[i]))
    && (forall f | f in table && PathTo(f) != b
        && EntryMatches(table, f, rx, FilledSegments(call.path, params), true) ::
          PriorityAt(table, PathTo(f)) < PriorityAt(table, b))
  }

  /**
   * The round trip of the router: whatever was registered, the URL that `url_for` builds for such a route,
   * requested with the route's method, is answered by the route's node, and the parameters come back exactly
   * as they went in if and only if none of them spells its own name.
   */
  lemma RouterRoundTrip(router: Router, regs: seq<Registration>, i: nat, url: string, params: Params,
                        params0: Params, result: MatchResult, params': Params)
    requires Readings(regs) && RouterAsScan.Holds(router, regs) && i < |regs| && regs[i].Route?
    requires ClashFree(TableOf(regs, regs[i].call.verb)) && Outranks(regs, i, router.rx, params)
    requires var name := regs[i].call.name;
             if name in router.namedRoutes then IsFilling(url, router.namedRoutes[name], params) else url == ""
    requires router.DispatchedTo(regs[i].call.verb, Segments(url), params0, result, params')
    ensures regs[i].call.name in router.namedRoutes
    ensures Runs(TableOf(regs, regs[i].call.verb), PathTo(EntryOf(regs[i])), result.target) && result.target.ChainOf?
    ensures params' == params <==> forall k | k in params :: params[k] != k
  {
    var call := regs[i].call;
    var table, e := TableOf(regs, call.verb), EntryOf(regs[i]);
    NameKept(regs, i);
    EntryListed(regs, i);
    RouterIsBuilt(regs, call.verb);
    UrlSegments(call.path, params, url);
    FilledMatches(table, call.path, call.handler, call.middlewares, call.priority, params, router.rx);
    TrieRefinesScan(table, router.rx, Segments(url));
    var p :| p in router.indexes[call.verb]
      && MatchAnswer(router.indexes[call.verb], router.rx, Segments(url), params0, Some(p), params')
      && result.allowed == []
      && if router.indexes[call.verb][p].isStaticFiles
         then result.target == FilesFrom(router.indexes[call.verb][p].baseDir)
         else
           result.target.ChainOf? && result.target.node.path == p
           && result.target.node.info == router.indexes[call.verb][p];
    HighestIsAnswer(table, call.path, call.handler, call.middlewares, call.priority, params, router.rx, url, params0,
                    Some(p), params');
    RoundTrip(table, call.path, call.handler, call.middlewares, call.priority, params, router.rx, url, params0,
              Some(p), params');
    BuiltDescribesAt(table, p);
  }
}
