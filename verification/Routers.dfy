/** The router: one tree per method, named routes, and the dispatch of a request. */
module Routers {
  import opened Text
  import opened Patterns
  import opened Middlewares
  import opened Tries
  import opened Bindings
  import opened TrieNodes
  import opened Matcher
  import opened Requests
  import Substitution

  // ---------- Registration calls and what they do to the router's content ----------

  datatype RouteCall = RouteCall(
    verb: string, path: string, handler: Option<Handler>, middlewares: seq<Middleware>, name: string, priority: int)

  datatype Content = Content(indexes: map<string, Trie>, named: map<string, string>)

  ghost predicate Proper(c: Content) {
    forall m | m in c.indexes :: WellFormed(c.indexes[m])
  }

  function IndexOr(indexes: map<string, Trie>, verb: string): Trie {
    if verb in indexes then indexes[verb] else EMPTY_TRIE
  }

  lemma EmptyWellFormed()
    ensures WellFormed(EMPTY_TRIE)
  {
    assert forall p :: Filed(EMPTY_TRIE, p);
  }

  /** The call raises because its name is taken. */
  predicate NameTaken(c: Content, call: RouteCall) {
    call.name != "" && call.name in c.named
  }

  ghost function Called(c: Content, call: RouteCall): (r: Content)
    requires Proper(c) && ReadablePath(call.path)
    ensures Proper(r)
  {
    EmptyWellFormed();
    var t := IndexOr(c.indexes, call.verb);
    WithRouteWellFormed(t, call.path, call.handler, call.middlewares, call.priority);
    Content(c.indexes[call.verb := WithRoute(t, call.path, call.handler, call.middlewares, call.priority)],
            if call.name == "" then c.named else c.named[call.name := call.path])
  }

  lemma CalledInSteps(c: Content, call: RouteCall, t: Trie, r: Content)
    requires Proper(c) && ReadablePath(call.path) && t == IndexOr(c.indexes, call.verb) && WellFormed(t)
    requires r.indexes == c.indexes[call.verb := t][call.verb :=
        WithRoute(t, call.path, call.handler, call.middlewares, call.priority)]
    requires r.named == if call.name == "" then c.named else c.named[call.name := call.path]
    ensures r == Called(c, call)
  {
  }

  /** What `match_route` hands back to be run: nothing, a file server, the node's chain, or a refusal. */
  datatype Target = Nothing | FilesFrom(baseDir: string) | ChainOf(node: TrieNode) | Refusal(status: int)

  /** The status a refusal sets. */
  const BAD_REQUEST := 400

  datatype MatchResult = MatchResult(target: Target, allowed: seq<string>)

  const OVERRIDE_HEADER := "X-HTTP-Method-Override"
  const OVERRIDE_PARAMETER := "_method"

  /** The override header, else the override parameter, else the request's own method. */
  function EffectiveMethod(verb: string, headers: seq<Header>, uri: string): string {
    var header := FirstValue(headers, OVERRIDE_HEADER);
    if header != "" then header
    else if OVERRIDE_PARAMETER in QueryParams(uri) then QueryParams(uri)[OVERRIDE_PARAMETER]
    else verb
  }

  /** A first override header that is not empty decides, whatever the query says. */
  lemma HeaderOverrides(verb: string, before: seq<Header>, wanted: string, after: seq<Header>, uri: string)
    requires wanted != "" && forall h | h in before :: h.name != "X-HTTP-Method-Override"
    ensures EffectiveMethod(verb, before + [Header("X-HTTP-Method-Override", wanted)] + after, uri) == wanted
  {
    var headers := before + [Header("X-HTTP-Method-Override", wanted)] + after;
    var i := FirstOfName(headers, "X-HTTP-Method-Override");
    assert headers[|before|].name == "X-HTTP-Method-Override";
    assert forall j | 0 <= j < |before| :: headers[j] == before[j];
  }

  /** There is no override header, or the first one is empty. */
  ghost predicate NotOverridden(headers: seq<Header>) {
    forall i | 0 <= i < |headers| && headers[i].name == "X-HTTP-Method-Override"
        && (forall j | 0 <= j < i :: headers[j].name != "X-HTTP-Method-Override") :: headers[i].value == ""
  }

  /** Otherwise the last `_method` of a printed query decides, and without one, or a query, the request's method. */
  lemma QueryOverrides(verb: string, headers: seq<Header>, path: string, pieces: seq<QueryPiece>)
    requires NotOverridden(headers) && '?' !in path && PlainQuery(pieces)
    ensures EffectiveMethod(verb, headers, path) == verb
    ensures pieces != [] ==>
              var pairs := PairsMeant(pieces, "");
              var effective := EffectiveMethod(verb, headers, path + "?" + Join(PrintQuery(pieces), '&'));
              && (forall i | 0 <= i < |pairs| && pairs[i].0 == "_method"
                    && (forall j | i < j < |pairs| :: pairs[j].0 != "_method") :: effective == pairs[i].1)
              && ((forall i | 0 <= i < |pairs| :: pairs[i].0 != "_method") ==> effective == verb)
  {
    var i := FirstOfName(headers, "X-HTTP-Method-Override");
    IndexOfFirst(path, '?');
    if pieces != [] {
      QueryRoundTrip(path, pieces);
      var k := LastPairWins(PairsMeant(pieces, ""), "_method");
    }
  }

  /** The tree answers the request, if only with its catch-all. */
  ghost predicate Answers(t: Trie, rx: RegexMatch, segs: seq<string>)
    requires [] in t
  {
    !NoCandidate(t, rx, segs) || t[[]].isCatchAll
  }

  class Router {
    const rx: RegexMatch
    var trees: map<string, RouteTree>
    var namedRoutes: map<string, string>
    var globalMiddlewares: seq<Middleware>
    ghost var indexes: map<string, Trie>
    ghost var repr: set<object>

    ghost predicate Valid()
      reads `trees, `indexes, `repr, repr
    {
      && this !in repr && indexes.Keys == trees.Keys
      && (forall m {:trigger TreeAt(m)} | m in trees :: TreeAt(m))
      && (forall m, k {:trigger Apart(m, k)} | m in trees && k in trees && m != k ::
            trees[m] in repr && trees[k] in repr && Apart(m, k))
    }

    ghost predicate TreeAt(m: string)
      requires m in trees && m in indexes
      reads `trees, `indexes, `repr, repr
    {
      && trees[m] in repr && (forall n | n in trees[m].repr :: n in repr)
      && trees[m].Valid() && trees[m].index == indexes[m]
    }

    ghost predicate Apart(m: string, k: string)
      requires m in trees && k in trees && trees[m] in repr && trees[k] in repr
      reads `trees, `repr, repr
    {
      trees[m] != trees[k] && trees[m].repr !! trees[k].repr
    }

    ghost function Contents(): (c: Content)
      reads this
    {
      Content(indexes, namedRoutes)
    }

    lemma ContentsProper()
      requires Valid()
      ensures Proper(Contents())
    {
      forall m | m in indexes
        ensures WellFormed(indexes[m])
      {
        assert TreeAt(m);
      }
    }

    constructor (rx: RegexMatch)
      ensures Valid() && fresh(repr) && this.rx == rx
      ensures Contents() == Content(map[], map[]) && globalMiddlewares == [ErrorHandler()] && Guarded()
    {
      this.rx := rx;
      trees, namedRoutes, indexes, repr := map[], map[], map[], {};
      globalMiddlewares := [ErrorHandler()];
    }

    method Use(middleware: Middleware)
      requires Valid()
      modifies this`globalMiddlewares
      ensures Valid() && globalMiddlewares == old(globalMiddlewares) + [middleware]
      ensures old(Guarded()) ==> Guarded()
    {
      globalMiddlewares := globalMiddlewares + [middleware];
    }

    /** The error handler is among the global middlewares. */
    ghost predicate Guarded()
      reads this`globalMiddlewares
    {
      ErrorHandler() in globalMiddlewares
    }

    /**
     * The handler of a matched route: global and route middlewares, sorted, around the node's own handler.
     * Exceptions get out as the error boundary says.
     */
    method Handle(node: TrieNode, fails: Failures) returns (chain: MiddlewareChain, threw: bool)
      ensures SortedFrom(globalMiddlewares + node.info.middlewares, chain.middlewares)
      ensures Ran(chain.Now(), threw) == NextRun(chain.middlewares, fails, START)
      ensures var all := globalMiddlewares + node.info.middlewares;
              Guarded() && AllAtMostOnce(all) && FrontPasses(all) ==>
                (threw ==> HasThrower(all, 101)) && (HasThrower(all, 100) ==> threw)
    {
      var all := globalMiddlewares;
      all := all + node.info.middlewares;
      var sorted := Sort(all);
      chain := new MiddlewareChain(sorted, fails);
      threw := chain.Next();
      if Guarded() && AllAtMostOnce(all) && FrontPasses(all) {
        PriorityBoundaryFor(all, sorted, fails);
      }
    }

    /** Makes sure that a method has a tree. */
    method NeedTree(verb: string)
      requires Valid()
      modifies this`trees, this`indexes, this`repr
      ensures Valid() && verb in trees && (forall o | o in repr :: o in old(repr) || fresh(o))
      ensures indexes == old(indexes)[verb := IndexOr(old(indexes), verb)]
    {
      if verb !in trees {
        var tree := new RouteTree();
        label before:
        trees := trees[verb := tree];
        indexes := indexes[verb := EMPTY_TRIE];
        repr := repr + {tree} + (set n | n in tree.repr :: n as object);
        TreesAfter@before(verb);
        ApartAfter@before(verb);
      }
    }

    twostate lemma TreesAfter(verb: string)
      requires old(Valid()) && verb in trees && verb in indexes && indexes.Keys == trees.Keys
      requires forall m | m in trees && m != verb ::
                 m in old(trees) && trees[m] == old(trees[m]) && indexes[m] == old(indexes[m])
      requires forall o | o in old(repr) :: o in repr && unchanged(o)
      requires TreeAt(verb)
      ensures forall m | m in trees :: TreeAt(m)
    {
      forall m | m in trees
        ensures TreeAt(m)
      {
        if m != verb {
          assert old(TreeAt(m));
        }
      }
    }

    twostate lemma ApartAfter(verb: string)
      requires old(Valid()) && verb in trees && verb in indexes && indexes.Keys == trees.Keys
      requires forall m | m in trees && m != verb :: m in old(trees) && trees[m] == old(trees[m])
      requires forall o | o in old(repr) :: o in repr && unchanged(o)
      requires TreeAt(verb) && trees[verb] !in old(repr) && forall n | n in trees[verb].repr :: n !in old(repr)
      ensures forall m, k | m in trees && k in trees && m != k :: trees[m] in repr && trees[k] in repr && Apart(m, k)
    {
      forall m, k | m in trees && k in trees && m != k
        ensures trees[m] in repr && trees[k] in repr && Apart(m, k)
      {
        assert m != verb ==> old(TreeAt(m));
        assert k != verb ==> old(TreeAt(k));
        assert m != verb && k != verb ==> old(Apart(m, k));
      }
    }

    /** All is in order but for one tree that has grown and is not yet taken over. */
    ghost predicate AllBut(verb: string)
      reads `trees, `indexes, `repr, repr
    {
      && this !in repr && indexes.Keys == trees.Keys && verb in trees && trees[verb] in repr
      && (forall m {:trigger TreeAt(m)} | m in trees && m != verb :: TreeAt(m))
      && (forall m, k {:trigger Apart(m, k)} | m in trees && k in trees && m != k ::
            trees[m] in repr && trees[k] in repr && Apart(m, k))
    }

    /** When one tree grows, with new objects, the others stay in order. */
    twostate lemma OneTreeGrows(verb: string)
      requires old(Valid()) && verb in trees && unchanged(`trees, `indexes, `repr)
      requires forall o | o in repr :: o == trees[verb] || o in old(trees[verb].repr) || unchanged(o)
      requires forall n | n in trees[verb].repr :: n in old(trees[verb].repr) || fresh(n)
      ensures AllBut(verb)
    {
      assert old(TreeAt(verb));
      forall m | m in trees && m != verb
        ensures TreeAt(m)
      {
        assert old(TreeAt(m)) && old(Apart(m, verb));
      }
      forall m, k | m in trees && k in trees && m != k
        ensures trees[m] in repr && trees[k] in repr && Apart(m, k)
      {
        assert old(TreeAt(m)) && old(TreeAt(k)) && old(Apart(m, k));
        if m != verb {
          assert old(Apart(m, verb));
        }
        if k != verb {
          assert old(Apart(k, verb));
        }
      }
    }

    /** Takes the grown tree over. */
    ghost method TakeOver(verb: string)
      requires AllBut(verb) && trees[verb].Valid()
      modifies this`indexes, this`repr
      ensures Valid() && indexes == old(indexes)[verb := trees[verb].index]
      ensures repr == old(repr) + (set n | n in trees[verb].repr :: n as object)
    {
      indexes := indexes[verb := trees[verb].index];
      repr := repr + (set n | n in trees[verb].repr :: n as object);
      assert TreeAt(verb);
      forall m | m in trees
        ensures TreeAt(m)
      {
        assert m != verb ==> old(TreeAt(m));
      }
      forall m, k | m in trees && k in trees && m != k
        ensures trees[m] in repr && trees[k] in repr && Apart(m, k)
      {
        assert old(Apart(m, k));
      }
    }

    /** Registers in the tree of a method that has one. */
    method AddToTree(verb: string, path: string, handler: Option<Handler>, middlewares: seq<Middleware>, priority: int)
      requires Valid() && verb in trees && ReadablePath(path)
      modifies this`indexes, this`repr, repr
      ensures Valid() && (forall o | o in repr :: o in old(repr) || fresh(o))
      ensures WellFormed(old(indexes)[verb])
      ensures indexes == old(indexes)[verb := WithRoute(old(indexes)[verb], path, handler, middlewares, priority)]
    {
      assert TreeAt(verb);
      var tree := trees[verb];
      tree.AddRoute(path, handler, middlewares, priority);
      OneTreeGrows(verb);
      TakeOver(verb);
    }

    method AddFilesToTree(verb: string, path: string, baseDir: string)
      requires Valid() && verb in trees
      modifies this`indexes, this`repr, repr
      ensures Valid() && (forall o | o in repr :: o in old(repr) || fresh(o))
      ensures WellFormed(old(indexes)[verb])
      ensures indexes == old(indexes)[verb := WithStaticFiles(old(indexes)[verb], path, baseDir)]
    {
      assert TreeAt(verb);
      var tree := trees[verb];
      tree.AddStaticRoute(path, baseDir);
      OneTreeGrows(verb);
      TakeOver(verb);
    }

    /** Registers a route; false stands for the exception raised when the name is taken. */
    method AddRoute(verb: string, path: string, handler: Option<Handler>, middlewares: seq<Middleware>, name: string,
        priority: int)
      returns (ok: bool)
      requires Valid() && ReadablePath(path)
      modifies this`trees, this`namedRoutes, this`indexes, this`repr, repr
      ensures Valid() && (forall o | o in repr :: o in old(repr) || fresh(o))
      ensures Proper(old(Contents()))
          && ok == !NameTaken(old(Contents()), RouteCall(verb, path, handler, middlewares, name, priority))
      ensures Contents()
          == if ok then Called(old(Contents()), RouteCall(verb, path, handler, middlewares, name, priority))
             else old(Contents())
    {
      ContentsProper();
      ghost var before := Contents();
      if name != "" {
        if name in namedRoutes {
          return false;
        }
        namedRoutes := namedRoutes[name := path];
      }
      NeedTree(verb);
      ghost var t := indexes[verb];
      AddToTree(verb, path, handler, middlewares, priority);
      CalledInSteps(before, RouteCall(verb, path, handler, middlewares, name, priority), t, Contents());
      ok := true;
    }

    method AddStaticRoute(path: string, baseDir: string)
      requires Valid()
      modifies this`trees, this`indexes, this`repr, repr
      ensures Valid() && (forall o | o in repr :: o in old(repr) || fresh(o))
      ensures WellFormed(IndexOr(old(indexes), "GET"))
      ensures indexes == old(indexes)["GET" := WithStaticFiles(IndexOr(old(indexes), "GET"), path, baseDir)]
    {
      NeedTree("GET");
      AddFilesToTree("GET", path, baseDir);
    }

    /** The URL of a named route, or the empty string when there is no such route. */
    method UrlFor(name: string, params: Params) returns (url: string)
      requires Valid()
      ensures if name in namedRoutes then Substitution.IsFilling(url, namedRoutes[name], params) else url == ""
    {
      if name !in namedRoutes {
        return "";
      }
      url := Substitution.Fill(namedRoutes[name], params);
    }

    /** Tries one method's tree. */
    method MatchIn(verb: string, path: string, params: Params) returns (node: TrieNode?, params': Params)
      requires Valid() && verb in trees
      ensures [] in indexes[verb] && MatchAnswer(indexes[verb], rx, Segments(path), params, PathOf(node), params')
      ensures node != null ==> node.path in indexes[verb] && node.info == indexes[verb][node.path]
      ensures node != null <==> MethodAnswers(verb, Segments(path))
    {
      assert TreeAt(verb);
      node, params' := Match(trees[verb], path, rx, params);
      if node != null {
        assert trees[verb].NodeAt(node.path);
      }
    }

    method MatchRoute(request: Request, params: Params) returns (result: MatchResult, params': Params)
      requires Valid()
      ensures var verb := EffectiveMethod(request.verb, request.headers, request.uri);
              var segs := Segments(request.GetPath());
              && DispatchedTo(verb, segs, params, result, params')
              && Allowed(verb, segs, result)
    {
      var verb := request.verb;
      var header := request.GetHeader(OVERRIDE_HEADER);
      if header != "" {
        verb := header;
      } else {
        var query := request.GetQueryParams();
        if OVERRIDE_PARAMETER in query {
          verb := query[OVERRIDE_PARAMETER];
        }
      }
      params' := params;
      if verb in trees {
        var node;
        node, params' := MatchIn(verb, request.GetPath(), params);
        if node != null {
          var target := if node.info.isStaticFiles then FilesFrom(node.info.baseDir) else ChainOf(node);
          return MatchResult(target, []), params';
        }
      }
      var allowed := Probe(verb, request.GetPath());
      result := MatchResult(if allowed != [] then Refusal(BAD_REQUEST) else Nothing, allowed);
    }

    /** The other methods whose trees match the path, each once, in whatever order. */
    method Probe(verb: string, path: string) returns (allowed: seq<string>)
      requires Valid()
      ensures forall m :: m in allowed <==> m != verb && MethodAnswers(m, Segments(path))
      ensures forall i, j | 0 <= i < j < |allowed| :: allowed[i] != allowed[j]
    {
      allowed := [];
      ContentsProper();
      var keys := trees.Keys;
      while keys != {}
        invariant keys <= trees.Keys
        invariant forall m :: m in allowed <==> m !in keys && m != verb && MethodAnswers(m, Segments(path))
        invariant forall i, j | 0 <= i < j < |allowed| :: allowed[i] != allowed[j]
      {
        var m :| m in keys;
        if m != verb {
          var node, ignored := MatchIn(m, path, map[]);
          if node != null {
            allowed := allowed + [m];
          }
        }
        keys := keys - {m};
      }
    }

    /** The method has a tree and the tree answers. */
    ghost predicate MethodAnswers(verb: string, segs: seq<string>)
      requires Valid()
      reads this, repr
    {
      ContentsProper();
      verb in indexes && Answers(indexes[verb], rx, segs)
    }

    /** What a dispatch in the effective method's tree, if there is one, may come to. */
    ghost predicate DispatchedTo(verb: string, segs: seq<string>, params: Params, result: MatchResult, params': Params)
      requires Valid()
      reads this, repr, if result.target.ChainOf? then {result.target.node} else {}
    {
      ContentsProper();
      if MethodAnswers(verb, segs) then
        exists p | p in indexes[verb] ::
          && MatchAnswer(indexes[verb], rx, segs, params, Some(p), params')
          && result.allowed == []
          && if indexes[verb][p].isStaticFiles then result.target == FilesFrom(indexes[verb][p].baseDir)
             else result.target.ChainOf? && result.target.node.path == p && result.target.node.info == indexes[verb][p]
      else
        params' == params && result.target == if result.allowed == [] then Nothing else Refusal(BAD_REQUEST)
    }

    /** When the effective method fails, the allowed methods are exactly the others that match, once each. */
    ghost predicate Allowed(verb: string, segs: seq<string>, result: MatchResult)
      requires Valid()
      reads this, repr
    {
      && (forall i, j | 0 <= i < j < |result.allowed| :: result.allowed[i] != result.allowed[j])
      && (!MethodAnswers(verb, segs) ==> forall m :: m in result.allowed <==> m != verb && MethodAnswers(m, segs))
    }

    /** Nothing is returned to be run exactly when no method's tree answers. */
    lemma NothingIffNoMethod(verb: string, segs: seq<string>, params: Params, result: MatchResult, params': Params)
      requires Valid() && DispatchedTo(verb, segs, params, result, params') && Allowed(verb, segs, result)
      ensures result.target == Nothing <==> forall m :: !MethodAnswers(m, segs)
      ensures result.target == Refusal(400)
          <==> !MethodAnswers(verb, segs) && exists m :: MethodAnswers(m, segs)
      ensures !MethodAnswers(verb, segs) ==> params' == params
    {
      if !MethodAnswers(verb, segs) {
        if result.allowed != [] {
          assert MethodAnswers(result.allowed[0], segs);
        }
      }
    }
  }
}
