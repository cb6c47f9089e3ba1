/** Route groups: nested prefixes and middlewares, and the flat calls they amount to. */
module RouteGroups {
  import opened Patterns
  import opened Middlewares
  import opened Routers

  /** What a group's callback does with its group, in order. */
  datatype GroupItem =
    | Add(call: RouteCall)
    | Sub(prefix: string, middlewares: seq<Middleware>, items: seq<GroupItem>)

  /** A call made under a prefix and a list of middlewares. */
  function Under(prefix: string, middlewares: seq<Middleware>, call: RouteCall): RouteCall {
    call.(path := prefix + call.path, middlewares := middlewares + call.middlewares)
  }

  function AllUnder(prefix: string, middlewares: seq<Middleware>, calls: seq<RouteCall>): (r: seq<RouteCall>)
    ensures |r| == |calls|
  {
    seq(|calls|, i requires 0 <= i < |calls| => Under(prefix, middlewares, calls[i]))
  }

  /** The calls a script makes, seen from its own group: inner groups first wrap their own calls. */
  function Calls(items: seq<GroupItem>): seq<RouteCall>
    decreases items, 1
  {
    if items == [] then [] else CallsOf(items[0]) + Calls(items[1..])
  }

  function CallsOf(item: GroupItem): seq<RouteCall>
    decreases item, 0
  {
    match item
    case Add(call) => [call]
    case Sub(prefix, middlewares, items) => AllUnder(prefix, middlewares, Calls(items))
  }

  // ---------- The flat calls, by themselves ----------

  /** The calls in order, each with the prefixes and middlewares of the groups around it, from the outside in. */
  function Flat(prefix: string, middlewares: seq<Middleware>, items: seq<GroupItem>): seq<RouteCall>
    decreases items, 1
  {
    if items == [] then [] else FlatOf(prefix, middlewares, items[0]) + Flat(prefix, middlewares, items[1..])
  }

  function FlatOf(prefix: string, middlewares: seq<Middleware>, item: GroupItem): seq<RouteCall>
    decreases item, 0
  {
    match item
    case Add(call) =>
      [RouteCall(call.verb, prefix + call.path, call.handler, middlewares + call.middlewares, call.name, call.priority)]
    case Sub(inner, more, items) => Flat(prefix + inner, middlewares + more, items)
  }

  /** Wrapping the calls of inner groups from the inside out gives the same. */
  lemma {:induction false} CallsAreFlat(prefix: string, middlewares: seq<Middleware>, items: seq<GroupItem>)
    ensures AllUnder(prefix, middlewares, Calls(items)) == Flat(prefix, middlewares, items)
    decreases items, 1
  {
    if items != [] {
      AllUnderJoins(prefix, middlewares, CallsOf(items[0]), Calls(items[1..]));
      match items[0] {
        case Add(call) =>
        case Sub(inner, more, nested) =>
          UnderTwice(prefix, middlewares, inner, more, Calls(nested));
          CallsAreFlat(prefix + inner, middlewares + more, nested);
      }
      CallsAreFlat(prefix, middlewares, items[1..]);
    }
  }

  /** Groups nested in one another around one call. */
  function NestOf(prefixes: seq<string>, lists: seq<seq<Middleware>>, call: RouteCall): GroupItem
    requires |prefixes| == |lists|
  {
    if prefixes == [] then Add(call) else Sub(prefixes[0], lists[0], [NestOf(prefixes[1..], lists[1..], call)])
  }

  function Joined<T>(lists: seq<seq<T>>): seq<T> {
    if lists == [] then [] else lists[0] + Joined(lists[1..])
  }

  /** A nest of groups makes one call: all prefixes and then its path, all lists and then its own. */
  lemma {:induction false} GroupedCall(prefix: string, middlewares: seq<Middleware>,
                                       prefixes: seq<string>, lists: seq<seq<Middleware>>, call: RouteCall)
    requires |prefixes| == |lists|
    ensures Flat(prefix, middlewares, [NestOf(prefixes, lists, call)])
         == [RouteCall(call.verb, prefix + Joined(prefixes) + call.path, call.handler,
                       middlewares + Joined(lists) + call.middlewares, call.name, call.priority)]
    decreases |prefixes|
  {
    var item := NestOf(prefixes, lists, call);
    assert Flat(prefix, middlewares, [item]) == FlatOf(prefix, middlewares, item) + [];
    if prefixes == [] {
      assert prefix + "" == prefix && middlewares + [] == middlewares;
    } else {
      GroupedCall(prefix + prefixes[0], middlewares + lists[0], prefixes[1..], lists[1..], call);
      assert prefix + prefixes[0] + Joined(prefixes[1..]) == prefix + Joined(prefixes);
      assert middlewares + lists[0] + Joined(lists[1..]) == middlewares + Joined(lists);
    }
  }

  // ---------- Registering ----------

  ghost predicate ReadableCalls(calls: seq<RouteCall>) {
    forall i | 0 <= i < |calls| :: ReadablePath(calls[i].path)
  }

  /** The router's content after a flat sequence of calls, and whether none of them raised. */
  ghost function AfterCalls(c: Content, calls: seq<RouteCall>): (r: (Content, bool))
    requires Proper(c) && ReadableCalls(calls)
    ensures Proper(r.0)
    decreases |calls|
  {
    if calls == [] then (c, true)
    else if NameTaken(c, calls[0]) then (c, false)
    else AfterCalls(Called(c, calls[0]), calls[1..])
  }

  lemma {:induction false} AfterBoth(c: Content, a: seq<RouteCall>, b: seq<RouteCall>)
    requires Proper(c) && ReadableCalls(a) && ReadableCalls(b)
    ensures ReadableCalls(a + b)
    ensures AfterCalls(c, a + b)
            == if AfterCalls(c, a).1 then AfterCalls(AfterCalls(c, a).0, b) else AfterCalls(c, a)
    decreases |a|
  {
    if a == [] {
      assert a + b == b;
    } else {
      assert (a + b)[0] == a[0] && (a + b)[1..] == a[1..] + b;
      if !NameTaken(c, a[0]) {
        AfterBoth(Called(c, a[0]), a[1..], b);
      }
    }
  }

  lemma AllUnderJoins(prefix: string, middlewares: seq<Middleware>, a: seq<RouteCall>, b: seq<RouteCall>)
    ensures AllUnder(prefix, middlewares, a + b) == AllUnder(prefix, middlewares, a) + AllUnder(prefix, middlewares, b)
  {
  }

  /** Nesting concatenates prefixes and lists middlewares from the outside in. */
  lemma UnderTwice(p: string, m: seq<Middleware>, q: string, n: seq<Middleware>, calls: seq<RouteCall>)
    ensures AllUnder(p, m, AllUnder(q, n, calls)) == AllUnder(p + q, m + n, calls)
  {
    forall i | 0 <= i < |calls|
      ensures Under(p, m, Under(q, n, calls[i])) == Under(p + q, m + n, calls[i])
    {
      var call := calls[i];
      assert p + (q + call.path) == p + q + call.path;
      assert m + (n + call.middlewares) == m + n + call.middlewares;
    }
  }

  class RouteGroup {
    const prefix: string
    const router: Router
    const middlewares: seq<Middleware>

    constructor (prefix: string, router: Router, middlewares: seq<Middleware>)
      ensures this.prefix == prefix && this.router == router && this.middlewares == middlewares
    {
      this.prefix, this.router, this.middlewares := prefix, router, middlewares;
    }

    method AddRoute(call: RouteCall) returns (ok: bool)
      requires router.Valid() && ReadablePath(prefix + call.path)
      modifies router`trees, router`namedRoutes, router`indexes, router`repr, router.repr
      ensures router.Valid() && (forall o | o in router.repr :: o in old(router.repr) || fresh(o))
      ensures Proper(old(router.Contents()))
      ensures (router.Contents(), ok) == AfterCalls(old(router.Contents()),
                  [RouteCall(call.verb, prefix + call.path, call.handler, middlewares + call.middlewares, call.name,
                             call.priority)])
    {
      var all := middlewares;
      all := all + call.middlewares;
      ok := router.AddRoute(call.verb, prefix + call.path, call.handler, all, call.name, call.priority);
    }

    /** Opens a nested group and lets its callback run. */
    method Group(newPrefix: string, groupMiddlewares: seq<Middleware>, items: seq<GroupItem>) returns (ok: bool)
      requires router.Valid() && ReadableCalls(Flat(prefix + newPrefix, middlewares + groupMiddlewares, items))
      modifies router`trees, router`namedRoutes, router`indexes, router`repr, router.repr
      ensures router.Valid() && (forall o | o in router.repr :: o in old(router.repr) || fresh(o))
      ensures Proper(old(router.Contents()))
      ensures (router.Contents(), ok)
              == AfterCalls(old(router.Contents()), Flat(prefix + newPrefix, middlewares + groupMiddlewares, items))
      decreases items, 1
    {
      var newGroup := new RouteGroup(prefix + newPrefix, router, middlewares + groupMiddlewares);
      ok := newGroup.Run(items);
    }

    /** A callback at work; it stops where a call raises. */
    method Run(items: seq<GroupItem>) returns (ok: bool)
      requires router.Valid() && ReadableCalls(Flat(prefix, middlewares, items))
      modifies router`trees, router`namedRoutes, router`indexes, router`repr, router.repr
      ensures router.Valid() && (forall o | o in router.repr :: o in old(router.repr) || fresh(o))
      ensures Proper(old(router.Contents()))
      ensures (router.Contents(), ok) == AfterCalls(old(router.Contents()), Flat(prefix, middlewares, items))
      decreases items, 0
    {
      router.ContentsProper();
      if items == [] {
        return true;
      }
      ghost var first, rest := FlatOf(prefix, middlewares, items[0]), Flat(prefix, middlewares, items[1..]);
      ReadableParts(first, rest);
      AfterBoth(router.Contents(), first, rest);
      match items[0] {
        case Add(call) =>
          assert ReadablePath(first[0].path);
          ok := AddRoute(call);
        case Sub(newPrefix, groupMiddlewares, inner) => ok := Group(newPrefix, groupMiddlewares, inner);
      }
      if ok {
        ok := Run(items[1..]);
      }
    }
  }

  lemma ReadableParts(a: seq<RouteCall>, b: seq<RouteCall>)
    requires ReadableCalls(a + b)
    ensures ReadableCalls(a) && ReadableCalls(b)
  {
    forall i | 0 <= i < |a|
      ensures ReadablePath(a[i].path)
    {
      assert (a + b)[i] == a[i];
    }
    forall i | 0 <= i < |b|
      ensures ReadablePath(b[i].path)
    {
      assert (a + b)[|a| + i] == b[i];
    }
  }
}
