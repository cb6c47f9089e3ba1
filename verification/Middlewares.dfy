/** Middlewares, the two chains that run them, and where exceptions stop. */
module Middlewares {
  import opened Sequences

  /** What a middleware does in turn: call `next`, inside a try block or not, or throw. */
  datatype Action = CallNext(guarded: bool) | Throw

  datatype Middleware = Middleware(body: seq<Action>, priority: int)

  /** The built-in error handler: one call of `next` inside a try block that catches everything. */
  function ErrorHandler(): Middleware {
    Middleware([CallNext(true)], 100)
  }

  datatype Event = Enter(who: nat) | Leave(who: nat) | Handled

  /**
   * A chain in progress: the index of the next middleware, how often the final handler ran, how often
   * each middleware has called `next` so far, and all that happened.
   */
  datatype Chain = Chain(index: nat, finals: nat, made: seq<nat>, trace: seq<Event>)

  datatype Ran = Ran(chain: Chain, threw: bool)

  /** Whether the final handler throws when it runs for the n-th time. */
  type Failures = nat -> bool

  const NEVER: Failures := n => false
  const ALWAYS: Failures := n => true

  const START := Chain(0, 0, [], [])

  predicate InStep(ms: seq<Middleware>, s: Chain) {
    |s.made| == s.index <= |ms|
  }

  /** One call of `next`: the middleware at the shared index, or the final handler behind the last. */
  function NextRun(ms: seq<Middleware>, fails: Failures, s: Chain): (r: Ran)
    requires InStep(ms, s)
    ensures InStep(ms, r.chain) && s.index <= r.chain.index
    decreases |ms| - s.index, 0
  {
    if s.index < |ms| then
      var r := BodyRun(ms, fails, s.index, ms[s.index].body, Entered(s));
      r.(chain := r.chain.(trace := r.chain.trace + [Leave(s.index)]))
    else
      Ran(s.(finals := s.finals + 1, trace := s.trace + [Handled]), fails(s.finals))
  }

  function Entered(s: Chain): Chain {
    s.(index := s.index + 1, made := s.made + [0], trace := s.trace + [Enter(s.index)])
  }

  function Calling(s: Chain, i: nat): Chain
    requires i < |s.made|
  {
    s.(made := s.made[i := s.made[i] + 1])
  }

  /** The rest of a middleware's body. */
  function BodyRun(ms: seq<Middleware>, fails: Failures, i: nat, body: seq<Action>, s: Chain): (r: Ran)
    requires InStep(ms, s) && i < s.index
    ensures InStep(ms, r.chain) && s.index <= r.chain.index
    decreases |ms| - s.index, 1, |body|
  {
    if body == [] then Ran(s, false)
    else match body[0]
      case Throw => Ran(s, true)
      case CallNext(guarded) =>
        var r := NextRun(ms, fails, Calling(s, i));
        if r.threw && !guarded then r else BodyRun(ms, fails, i, body[1..], r.chain)
  }

  class MiddlewareChain {
    const middlewares: seq<Middleware>
    const fails: Failures
    var index: nat
    var finals: nat
    ghost var made: seq<nat>
    ghost var trace: seq<Event>

    ghost function Now(): Chain
      reads this
    {
      Chain(index, finals, made, trace)
    }

    constructor (middlewares: seq<Middleware>, fails: Failures)
      ensures this.middlewares == middlewares && this.fails == fails && Now() == START
    {
      this.middlewares, this.fails := middlewares, fails;
      index, finals, made, trace := 0, 0, [], [];
    }

    /** Runs the next middleware or the final handler; the result says whether an exception came out. */
    method Next() returns (threw: bool)
      requires InStep(middlewares, Now())
      modifies this
      ensures Ran(Now(), threw) == NextRun(middlewares, fails, old(Now()))
      decreases |middlewares| - index, 0
    {
      if index < |middlewares| {
        var middleware := middlewares[index];
        ghost var i := index;
        made, trace := made + [0], trace + [Enter(index)];
        index := index + 1;
        threw := Handle(middleware.body, i);
        trace := trace + [Leave(i)];
      } else {
        threw := fails(finals);
        finals, trace := finals + 1, trace + [Handled];
      }
    }

    /** A middleware's handler, which may come back to `Next` any number of times. */
    method Handle(body: seq<Action>, ghost i: nat) returns (threw: bool)
      requires InStep(middlewares, Now()) && i < index
      modifies this
      ensures Ran(Now(), threw) == BodyRun(middlewares, fails, i, body, old(Now()))
      decreases |middlewares| - index, 1
    {
      ghost var whole := BodyRun(middlewares, fails, i, body, Now());
      var k := 0;
      while k < |body|
        invariant 0 <= k <= |body| && InStep(middlewares, Now()) && old(index) <= index && i < index
        invariant BodyRun(middlewares, fails, i, body[k..], Now()) == whole
      {
        assert body[k..][0] == body[k] && body[k..][1..] == body[k + 1..];
        match body[k] {
          case Throw =>
            return true;
          case CallNext(guarded) =>
            made := made[i := made[i] + 1];
            var inner := Next();
            if inner && !guarded {
              return true;
            }
        }
        k := k + 1;
      }
      threw := false;
    }
  }

  // ---------- Which middlewares run, and how often the final handler does ----------

  function Sum(xs: seq<nat>): nat {
    if xs == [] then 0 else Sum(xs[..|xs| - 1]) + xs[|xs| - 1]
  }

  lemma {:induction false} SumUpdate(xs: seq<nat>, i: nat, x: nat)
    requires i < |xs|
    ensures Sum(xs[i := x]) == Sum(xs) - xs[i] + x
  {
    var n := |xs| - 1;
    if i < n {
      assert xs[i := x][..n] == xs[..n][i := x];
      SumUpdate(xs[..n], i, x);
    } else {
      assert xs[i := x][..n] == xs[..n];
    }
  }

  function Entries(trace: seq<Event>): seq<nat> {
    if trace == [] then []
    else
      var n := |trace| - 1;
      Entries(trace[..n]) + if trace[n].Enter? then [trace[n].who] else []
  }

  function HandlerRuns(trace: seq<Event>): nat {
    if trace == [] then 0
    else
      var n := |trace| - 1;
      HandlerRuns(trace[..n]) + if trace[n].Handled? then 1 else 0
  }

  lemma TraceSnoc(trace: seq<Event>, e: Event)
    ensures Entries(trace + [e]) == Entries(trace) + if e.Enter? then [e.who] else []
    ensures HandlerRuns(trace + [e]) == HandlerRuns(trace) + if e.Handled? then 1 else 0
  {
    assert (trace + [e])[..|trace|] == trace;
  }

  function Upto(n: nat): seq<nat> {
    seq(n, i requires 0 <= i < n => i)
  }

  /** The trace so far has entered each middleware below the index once, in order. */
  ghost predicate InOrder(s: Chain) {
    Entries(s.trace) == Upto(s.index) && HandlerRuns(s.trace) == s.finals
  }

  /** Calls answered so far less calls made from middlewares. */
  function Balance(s: Chain): int {
    s.finals + s.index - Sum(s.made)
  }

  lemma EnteredCounts(s: Chain)
    requires InOrder(s)
    ensures InOrder(Entered(s)) && Balance(Entered(s)) == Balance(s) + 1
  {
    TraceSnoc(s.trace, Enter(s.index));
    assert Upto(s.index + 1) == Upto(s.index) + [s.index];
    assert (s.made + [0])[..|s.made|] == s.made;
  }

  lemma CallingCounts(ms: seq<Middleware>, s: Chain, i: nat)
    requires InStep(ms, s) && i < s.index && InOrder(s)
    ensures InStep(ms, Calling(s, i)) && InOrder(Calling(s, i)) && Balance(Calling(s, i)) == Balance(s) - 1
  {
    SumUpdate(s.made, i, s.made[i] + 1);
  }

  lemma {:induction false} NextCounts(ms: seq<Middleware>, fails: Failures, s: Chain)
    requires InStep(ms, s) && InOrder(s)
    ensures var r := NextRun(ms, fails, s).chain; InOrder(r) && Balance(r) == Balance(s) + 1
    decreases |ms| - s.index, 0
  {
    if s.index < |ms| {
      EnteredCounts(s);
      BodyCounts(ms, fails, s.index, ms[s.index].body, Entered(s));
      TraceSnoc(BodyRun(ms, fails, s.index, ms[s.index].body, Entered(s)).chain.trace, Leave(s.index));
    } else {
      TraceSnoc(s.trace, Handled);
    }
  }

  lemma {:induction false} BodyCounts(ms: seq<Middleware>, fails: Failures, i: nat, body: seq<Action>, s: Chain)
    requires InStep(ms, s) && i < s.index && InOrder(s)
    ensures var r := BodyRun(ms, fails, i, body, s).chain; InOrder(r) && Balance(r) == Balance(s)
    decreases |ms| - s.index, 1, |body|
  {
    if body != [] && body[0].CallNext? {
      CallingCounts(ms, s, i);
      NextCounts(ms, fails, Calling(s, i));
      var r := NextRun(ms, fails, Calling(s, i));
      if !(r.threw && !body[0].guarded) {
        BodyCounts(ms, fails, i, body[1..], r.chain);
      }
    }
  }

  /**
   * Whatever the middlewares do, exceptions included: those that run are a prefix of the list, each once
   * and in order, and the final handler runs once more than they called `next` beyond once each.
   */
  lemma CountingLaw(ms: seq<Middleware>, fails: Failures)
    ensures var r := NextRun(ms, fails, START).chain;
            && Entries(r.trace) == Upto(r.index) && |r.made| == r.index <= |ms|
            && HandlerRuns(r.trace) == r.finals == 1 + Sum(r.made) - r.index
  {
    assert Upto(0) == [];
    NextCounts(ms, fails, START);
  }

  // ---------- Without exceptions ----------

  predicate Quiet(ms: seq<Middleware>) {
    forall m | m in ms :: Throw !in m.body
  }

  /** Calls the middlewares from `a` up to `b` make beyond one each. */
  function Extra(ms: seq<Middleware>, a: nat, b: nat): int
    requires a <= b <= |ms|
  {
    if a == b then 0 else Extra(ms, a, b - 1) + |ms[b - 1].body| - 1
  }

  lemma {:induction false} ExtraSplit(ms: seq<Middleware>, a: nat, b: nat, c: nat)
    requires a <= b <= c <= |ms|
    ensures Extra(ms, a, c) == Extra(ms, a, b) + Extra(ms, b, c)
    decreases c
  {
    if b < c {
      ExtraSplit(ms, a, b, c - 1);
    }
  }

  /**
   * From index `a` to `b` with `calls` calls to answer: they are used up exactly at `b`, or the final
   * handler, reached only behind the last middleware, ran for those left over.
   */
  ghost predicate Spans(ms: seq<Middleware>, s: Chain, r: Ran, calls: nat)
    requires s.index <= r.chain.index <= |ms|
  {
    && !r.threw
    && r.chain.finals - s.finals == calls + Extra(ms, s.index, r.chain.index)
    && (forall j {:trigger Extra(ms, s.index, j)} | s.index <= j < r.chain.index :: calls + Extra(ms, s.index, j) > 0)
    && (r.chain.finals > s.finals ==> r.chain.index == |ms|)
    && s.finals <= r.chain.finals
  }

  lemma {:induction false} NextSpans(ms: seq<Middleware>, s: Chain)
    requires InStep(ms, s) && Quiet(ms)
    ensures Spans(ms, s, NextRun(ms, NEVER, s), 1)
    decreases |ms| - s.index, 0
  {
    if s.index < |ms| {
      var i := s.index;
      var r := BodyRun(ms, NEVER, i, ms[i].body, Entered(s));
      assert ms[i] in ms;
      BodySpans(ms, i, ms[i].body, Entered(s));
      ExtraSplit(ms, i, i + 1, r.chain.index);
      forall j | i <= j < r.chain.index
        ensures 1 + Extra(ms, i, j) > 0
      {
        if j > i {
          ExtraSplit(ms, i, i + 1, j);
          assert |ms[i].body| + Extra(ms, i + 1, j) > 0;
        }
      }
    }
  }

  lemma {:induction false} BodySpans(ms: seq<Middleware>, i: nat, body: seq<Action>, s: Chain)
    requires InStep(ms, s) && i < s.index && Quiet(ms) && Throw !in body
    ensures Spans(ms, s, BodyRun(ms, NEVER, i, body, s), |body|)
    decreases |ms| - s.index, 1, |body|
  {
    if body == [] {
    } else {
      assert body[0] in body;
      var c := Calling(s, i);
      NextSpans(ms, c);
      var mid := NextRun(ms, NEVER, c);
      BodySpans(ms, i, body[1..], mid.chain);
      var r := BodyRun(ms, NEVER, i, body[1..], mid.chain);
      ExtraSplit(ms, s.index, mid.chain.index, r.chain.index);
      forall j | s.index <= j < r.chain.index
        ensures |body| + Extra(ms, s.index, j) > 0
      {
        if j < mid.chain.index {
          assert 1 + Extra(ms, s.index, j) > 0;
        } else {
          ExtraSplit(ms, s.index, mid.chain.index, j);
          assert |body| - 1 + Extra(ms, mid.chain.index, j) > 0;
        }
      }
    }
  }

  /**
   * Without exceptions: the chain stops behind the shortest prefix whose middlewares use up their calls,
   * or behind the whole list, and the final handler runs exactly as often as calls are left over there.
   */
  lemma QuietLaw(ms: seq<Middleware>)
    requires Quiet(ms)
    ensures var r := NextRun(ms, NEVER, START); var ran := r.chain.index;
            && !r.threw && ran <= |ms|
            && r.chain.finals == 1 + Extra(ms, 0, ran)
            && (forall j {:trigger Extra(ms, 0, j)} | 0 <= j < ran :: 1 + Extra(ms, 0, j) > 0)
            && (ran < |ms| ==> 1 + Extra(ms, 0, ran) == 0)
  {
    NextSpans(ms, START);
  }

  /** The trace in which everything from the i-th middleware on is nested. */
  function Nested(i: nat, n: nat): seq<Event>
    decreases n - i
  {
    if i >= n then [Handled] else [Enter(i)] + Nested(i + 1, n) + [Leave(i)]
  }

  lemma {:induction false} NextNests(ms: seq<Middleware>, s: Chain)
    requires InStep(ms, s) && Quiet(ms) && forall m | m in ms :: |m.body| == 1
    ensures var r := NextRun(ms, NEVER, s); !r.threw && r.chain.trace == s.trace + Nested(s.index, |ms|)
    decreases |ms| - s.index
  {
    if s.index < |ms| {
      var i := s.index;
      var body := ms[i].body;
      assert ms[i] in ms && body[0] in body;
      var c := Calling(Entered(s), i);
      NextNests(ms, c);
      var mid := NextRun(ms, NEVER, c);
      assert BodyRun(ms, NEVER, i, body[1..], mid.chain) == Ran(mid.chain, false);
      assert BodyRun(ms, NEVER, i, body, Entered(s)) == Ran(mid.chain, false);
      assert s.trace + [Enter(i)] + Nested(i + 1, |ms|) + [Leave(i)] == s.trace + Nested(i, |ms|);
    }
  }

  /** When every middleware calls `next` once, each wraps all that come behind it. */
  lemma FullyNested(ms: seq<Middleware>)
    requires Quiet(ms) && forall m | m in ms :: |m.body| == 1
    ensures NextRun(ms, NEVER, START).chain.trace == Nested(0, |ms|)
  {
    NextNests(ms, START);
    assert [] + Nested(0, |ms|) == Nested(0, |ms|);
  }

  // ---------- The second chain ----------

  /** The builder's iterator and what happened. */
  datatype Walk = Walk(it: nat, trace: seq<Event>)

  datatype Walked = Walked(walk: Walk, threw: bool)

  /** The closure `next`: it moves the shared iterator on, and does nothing at the end. */
  function WalkNext(ms: seq<Middleware>, w: Walk): (r: Walked)
    requires w.it <= |ms|
    ensures w.it <= r.walk.it <= |ms|
    decreases |ms| - w.it, 0
  {
    if w.it < |ms| then
      var r := WalkBody(ms, ms[w.it].body, w.(it := w.it + 1, trace := w.trace + [Enter(w.it)]));
      r.(walk := r.walk.(trace := r.walk.trace + [Leave(w.it)]))
    else Walked(w, false)
  }

  function WalkBody(ms: seq<Middleware>, body: seq<Action>, w: Walk): (r: Walked)
    requires w.it <= |ms|
    ensures w.it <= r.walk.it <= |ms|
    decreases |ms| - w.it, 1, |body|
  {
    if body == [] then Walked(w, false)
    else match body[0]
      case Throw => Walked(w, true)
      case CallNext(guarded) =>
        var r := WalkNext(ms, w);
        if r.threw && !guarded then r else WalkBody(ms, body[1..], r.walk)
  }

  class MiddlewareChainBuilder {
    var middlewares: seq<Middleware>
    /** The iterator of the run in progress, which its closure shares. */
    var it: nat
    ghost var trace: seq<Event>

    constructor ()
      ensures middlewares == []
    {
      middlewares, it, trace := [], 0, [];
    }

    method Add(middleware: Middleware)
      modifies this`middlewares
      ensures middlewares == old(middlewares) + [middleware]
    {
      middlewares := middlewares + [middleware];
    }

    method Run() returns (threw: bool)
      modifies this`it, this`trace
      ensures Walked(Walk(it, trace), threw) == WalkNext(middlewares, Walk(0, []))
    {
      it, trace := 0, [];
      threw := Next();
    }

    method Next() returns (threw: bool)
      requires it <= |middlewares|
      modifies this`it, this`trace
      ensures Walked(Walk(it, trace), threw) == WalkNext(middlewares, old(Walk(it, trace)))
      decreases |middlewares| - it, 0
    {
      threw := false;
      if it != |middlewares| {
        ghost var i := it;
        trace := trace + [Enter(i)];
        var middleware := middlewares[it];
        it := it + 1;
        threw := Handle(middleware.body);
        trace := trace + [Leave(i)];
      }
    }

    method Handle(body: seq<Action>) returns (threw: bool)
      requires it <= |middlewares|
      modifies this`it, this`trace
      ensures Walked(Walk(it, trace), threw) == WalkBody(middlewares, body, old(Walk(it, trace)))
      decreases |middlewares| - it, 1
    {
      ghost var whole := WalkBody(middlewares, body, Walk(it, trace));
      var k := 0;
      while k < |body|
        invariant 0 <= k <= |body| && old(it) <= it <= |middlewares|
        invariant WalkBody(middlewares, body[k..], Walk(it, trace)) == whole
      {
        assert body[k..][0] == body[k] && body[k..][1..] == body[k + 1..];
        match body[k] {
          case Throw =>
            return true;
          case CallNext(guarded) =>
            var inner := Next();
            if inner && !guarded {
              return true;
            }
        }
        k := k + 1;
      }
      threw := false;
    }
  }

  /** A trace without the runs of an empty final handler, which do nothing. */
  function Visible(trace: seq<Event>): seq<Event> {
    if trace == [] then []
    else
      var n := |trace| - 1;
      Visible(trace[..n]) + if trace[n].Handled? then [] else [trace[n]]
  }

  function View(r: Ran): Walked {
    Walked(Walk(r.chain.index, Visible(r.chain.trace)), r.threw)
  }

  lemma VisibleSnoc(trace: seq<Event>, e: Event)
    ensures Visible(trace + [e]) == Visible(trace) + if e.Handled? then [] else [e]
  {
    assert (trace + [e])[..|trace|] == trace;
  }

  lemma {:induction false} NextIsWalk(ms: seq<Middleware>, s: Chain)
    requires InStep(ms, s)
    ensures View(NextRun(ms, NEVER, s)) == WalkNext(ms, Walk(s.index, Visible(s.trace)))
    decreases |ms| - s.index, 0
  {
    if s.index < |ms| {
      VisibleSnoc(s.trace, Enter(s.index));
      BodyIsWalk(ms, s.index, ms[s.index].body, Entered(s));
      VisibleSnoc(BodyRun(ms, NEVER, s.index, ms[s.index].body, Entered(s)).chain.trace, Leave(s.index));
    } else {
      VisibleSnoc(s.trace, Handled);
    }
  }

  lemma {:induction false} BodyIsWalk(ms: seq<Middleware>, i: nat, body: seq<Action>, s: Chain)
    requires InStep(ms, s) && i < s.index
    ensures View(BodyRun(ms, NEVER, i, body, s)) == WalkBody(ms, body, Walk(s.index, Visible(s.trace)))
    decreases |ms| - s.index, 1, |body|
  {
    if body != [] && body[0].CallNext? {
      NextIsWalk(ms, Calling(s, i));
      var r := NextRun(ms, NEVER, Calling(s, i));
      if !(r.threw && !body[0].guarded) {
        BodyIsWalk(ms, i, body[1..], r.chain);
      }
    }
  }

  /** The builder's chain does what the router's does with an empty final handler: same trace, same exception. */
  lemma ChainsAgree(ms: seq<Middleware>)
    ensures View(NextRun(ms, NEVER, START)) == WalkNext(ms, Walk(0, []))
  {
    NextIsWalk(ms, START);
  }

  // ---------- The error boundary ----------

  predicate Raises(m: Middleware) {
    Throw in m.body
  }

  /** It lets an exception from inside `next` through. */
  predicate Passes(m: Middleware) {
    CallNext(false) in m.body
  }

  ghost predicate CallsAtMostOnce(body: seq<Action>) {
    forall i, j | 0 <= i < j < |body| :: !(body[i].CallNext? && body[j].CallNext?)
  }

  ghost predicate AllAtMostOnce(ms: seq<Middleware>) {
    forall m | m in ms :: CallsAtMostOnce(m.body)
  }

  /** An exception gets out of the middlewares from `i` on, given whether the final handler throws. */
  predicate Escapes(ms: seq<Middleware>, i: nat, last: bool)
    requires i <= |ms|
    decreases |ms| - i
  {
    if i == |ms| then last
    else Raises(ms[i]) || (Passes(ms[i]) && Escapes(ms, i + 1, last))
  }

  lemma {:induction false} NextEscapes(ms: seq<Middleware>, fails: Failures, s: Chain)
    requires InStep(ms, s) && AllAtMostOnce(ms)
    ensures NextRun(ms, fails, s).threw <==> Escapes(ms, s.index, fails(s.finals))
    decreases |ms| - s.index, 0
  {
    if s.index < |ms| {
      assert ms[s.index] in ms;
      BodyEscapes(ms, fails, s.index, ms[s.index].body, Entered(s));
    }
  }

  lemma {:induction false} BodyEscapes(ms: seq<Middleware>, fails: Failures, i: nat, body: seq<Action>, s: Chain)
    requires InStep(ms, s) && i < s.index && AllAtMostOnce(ms) && CallsAtMostOnce(body)
    ensures BodyRun(ms, fails, i, body, s).threw
            <==> Throw in body || (CallNext(false) in body && Escapes(ms, s.index, fails(s.finals)))
    decreases |ms| - s.index, 1, |body|
  {
    if body == [] {
    } else {
      var rest := body[1..];
      assert body == [body[0]] + rest;
      forall j, k | 0 <= j < k < |rest|
        ensures !(rest[j].CallNext? && rest[k].CallNext?)
      {
        assert rest[j] == body[j + 1] && rest[k] == body[k + 1];
      }
      if body[0].CallNext? {
        NextEscapes(ms, fails, Calling(s, i));
        var r := NextRun(ms, fails, Calling(s, i));
        forall j | 0 <= j < |rest|
          ensures !rest[j].CallNext?
        {
          assert rest[j] == body[j + 1];
        }
        NoMoreCalls(ms, fails, i, rest, r.chain);
      }
    }
  }

  lemma {:induction false} NoMoreCalls(ms: seq<Middleware>, fails: Failures, i: nat, body: seq<Action>, s: Chain)
    requires InStep(ms, s) && i < s.index && forall j | 0 <= j < |body| :: !body[j].CallNext?
    ensures BodyRun(ms, fails, i, body, s).threw <==> Throw in body
  {
  }

  /** The k-th middleware throws, and those from `i` up to it let the exception through. */
  ghost predicate RaisedAt(ms: seq<Middleware>, i: nat, k: nat) {
    i <= k < |ms| && Raises(ms[k]) && forall j | i <= j < k :: Passes(ms[j])
  }

  /** Such a one is in front of the e-th. */
  ghost predicate RaisedBelow(ms: seq<Middleware>, i: nat, e: nat) {
    exists k: nat :: k < e && RaisedAt(ms, i, k)
  }

  lemma RaisedLater(ms: seq<Middleware>, i: nat, k: nat)
    requires i < |ms|
    ensures k != i ==> (RaisedAt(ms, i, k) <==> Passes(ms[i]) && RaisedAt(ms, i + 1, k))
  {
  }

  lemma {:induction false} EscapesIff(ms: seq<Middleware>, i: nat, e: nat, last: bool)
    requires i <= e < |ms| && ms[e] == ErrorHandler()
    ensures Escapes(ms, i, last) <==> RaisedBelow(ms, i, e)
    decreases e - i
  {
    if i < e {
      EscapesIff(ms, i + 1, e, last);
      assert RaisedAt(ms, i, i) <==> Raises(ms[i]);
      if RaisedBelow(ms, i, e) {
        var k: nat :| k < e && RaisedAt(ms, i, k);
        RaisedLater(ms, i, k);
      }
      if RaisedBelow(ms, i + 1, e) {
        var k: nat :| k < e && RaisedAt(ms, i + 1, k);
        RaisedLater(ms, i, k);
      }
    }
  }

  /**
   * The error boundary, when every middleware calls `next` at most once: an exception comes out of the
   * chain exactly when a middleware in front of the error handler throws and those before it let it
   * through. Nothing from behind the handler, and nothing from the final handler, ever does.
   */
  lemma ErrorBoundary(ms: seq<Middleware>, fails: Failures, e: nat)
    requires AllAtMostOnce(ms) && e < |ms| && ms[e] == ErrorHandler()
    ensures NextRun(ms, fails, START).threw <==> RaisedBelow(ms, 0, e)
  {
    NextEscapes(ms, fails, START);
    EscapesIff(ms, 0, e, fails(0));
  }

  // ---------- The chain the router builds ----------

  ghost predicate Ordered(ms: seq<Middleware>) {
    forall i, j | 0 <= i < j < |ms| :: ms[i].priority <= ms[j].priority
  }

  /** Any outcome of sorting: the same middlewares in non-decreasing priority. */
  ghost predicate SortedFrom(all: seq<Middleware>, chain: seq<Middleware>) {
    multiset(chain) == multiset(all) && Ordered(chain)
  }

  lemma LowestAt(ms: seq<Middleware>) returns (k: nat)
    requires ms != []
    ensures k < |ms| && forall j | 0 <= j < |ms| :: ms[k].priority <= ms[j].priority
  {
    var priorities := seq(|ms|, i requires 0 <= i < |ms| => ms[i].priority);
    k := LeastAt(priorities);
    assert forall j | 0 <= j < |ms| :: priorities[j] == ms[j].priority;
  }

  /** Orders by rising priority; equal priorities may come out in any order. */
  method Sort(all: seq<Middleware>) returns (chain: seq<Middleware>)
    ensures SortedFrom(all, chain)
  {
    chain := [];
    var rest := all;
    while rest != []
      invariant multiset(chain) + multiset(rest) == multiset(all)
      invariant Ordered(chain)
      invariant forall i, j | 0 <= i < |chain| && 0 <= j < |rest| :: chain[i].priority <= rest[j].priority
      decreases |rest|
    {
      ghost var first := LowestAt(rest);
      var k :| 0 <= k < |rest| && forall j | 0 <= j < |rest| :: rest[k].priority <= rest[j].priority;
      var without := rest[..k] + rest[k + 1..];
      TakenOut(rest, k);
      chain := chain + [rest[k]];
      rest := without;
    }
  }

  /** Priorities, ties broken in favour of the error handler or against it. */
  function Rank(m: Middleware, late: bool): int {
    2 * m.priority + if (m == ErrorHandler()) == late then 1 else 0
  }

  ghost predicate RankOrdered(ms: seq<Middleware>, late: bool) {
    forall i, j | 0 <= i < j < |ms| :: Rank(ms[i], late) <= Rank(ms[j], late)
  }

  /** Sorting may put the error handler first or last among its equals. */
  lemma {:induction false} RankedOrderExists(all: seq<Middleware>, late: bool) returns (chain: seq<Middleware>)
    ensures SortedFrom(all, chain) && RankOrdered(chain, late)
    decreases |all|
  {
    if all == [] {
      chain := [];
    } else {
      var n := |all| - 1;
      var init := RankedOrderExists(all[..n], late);
      var k := PlaceFor(init, all[n], late);
      chain := init[..k] + [all[n]] + init[k..];
      assert init == init[..k] + init[k..] && all == all[..n] + [all[n]];
      RankedIsOrdered(chain, late);
    }
  }

  lemma PlaceFor(ms: seq<Middleware>, m: Middleware, late: bool) returns (k: nat)
    requires RankOrdered(ms, late)
    ensures k <= |ms| && RankOrdered(ms[..k] + [m] + ms[k..], late)
  {
    k := |ms|;
    while k > 0 && Rank(ms[k - 1], late) > Rank(m, late)
      invariant k <= |ms| && forall j | k <= j < |ms| :: Rank(m, late) <= Rank(ms[j], late)
    {
      k := k - 1;
    }
    InsertedInOrder(ms, m, k, late);
  }

  lemma InsertedInOrder(ms: seq<Middleware>, m: Middleware, k: nat, late: bool)
    requires RankOrdered(ms, late) && k <= |ms|
    requires forall j | k <= j < |ms| :: Rank(m, late) <= Rank(ms[j], late)
    requires k > 0 ==> Rank(ms[k - 1], late) <= Rank(m, late)
    ensures RankOrdered(ms[..k] + [m] + ms[k..], late)
  {
    var r := ms[..k] + [m] + ms[k..];
    forall j | 0 <= j < |r|
      ensures r[j] == if j < k then ms[j] else if j == k then m else ms[j - 1]
    {
    }
    assert forall j | 0 <= j < k :: Rank(ms[j], late) <= Rank(ms[k - 1], late);
  }

  lemma RankedIsOrdered(ms: seq<Middleware>, late: bool)
    requires RankOrdered(ms, late)
    ensures Ordered(ms)
  {
    forall i, j | 0 <= i < j < |ms|
      ensures ms[i].priority <= ms[j].priority
    {
      assert Rank(ms[i], late) <= Rank(ms[j], late);
    }
  }

  /** The same middlewares, and the first error handler's place among them. */
  lemma FirstHandler(all: seq<Middleware>, chain: seq<Middleware>) returns (e: nat)
    requires multiset(chain) == multiset(all) && ErrorHandler() in all && AllAtMostOnce(all)
    ensures forall m :: m in chain <==> m in all
    ensures e < |chain| && chain[e] == ErrorHandler() && forall j | 0 <= j < e :: chain[j] != ErrorHandler()
    ensures AllAtMostOnce(chain)
  {
    forall m
      ensures m in chain <==> m in all
    {
      assert m in multiset(chain) <==> m in multiset(all);
    }
    e := 0;
    while chain[e] != ErrorHandler()
      invariant e < |chain| && ErrorHandler() in chain[e..]
      invariant forall j | 0 <= j < e :: chain[j] != ErrorHandler()
      decreases |chain| - e
    {
      assert chain[e..] == [chain[e]] + chain[e + 1..];
      e := e + 1;
    }
  }

  /** Every middleware that can stand in front of the error handler lets exceptions through. */
  ghost predicate FrontPasses(all: seq<Middleware>) {
    forall m | m in all && m.priority <= 100 && m != ErrorHandler() :: Passes(m)
  }

  ghost predicate ThrowsOut(chain: seq<Middleware>, fails: Failures) {
    NextRun(chain, fails, START).threw
  }

  lemma ThrowerInFront(all: seq<Middleware>, chain: seq<Middleware>, fails: Failures, m: Middleware, e: nat, i: nat)
    requires AllAtMostOnce(chain) && FrontPasses(all) && Ordered(chain) && (forall n :: n in chain <==> n in all)
    requires i < e < |chain| && chain[e] == ErrorHandler() && (forall j | 0 <= j < e :: chain[j] != ErrorHandler())
    requires chain[i] == m && Raises(m)
    ensures ThrowsOut(chain, fails)
  {
    ErrorBoundary(chain, fails, e);
    forall j | 0 <= j < i
      ensures Passes(chain[j])
    {
      assert chain[j] in all && chain[j].priority <= chain[e].priority;
    }
    assert RaisedAt(chain, 0, i);
  }

  /** A thrower that sorting has put in front of the first error handler escapes. */
  lemma LowThrowerEscapes(all: seq<Middleware>, chain: seq<Middleware>, fails: Failures, m: Middleware, late: bool)
    requires AllAtMostOnce(all) && ErrorHandler() in all && FrontPasses(all) && SortedFrom(all, chain)
    requires m in all && Raises(m) && (m.priority < 100 || (m.priority == 100 && late && RankOrdered(chain, late)))
    ensures ThrowsOut(chain, fails)
  {
    var e := FirstHandler(all, chain);
    assert m in chain;
    var i :| 0 <= i < |chain| && chain[i] == m;
    var lo, hi := if i < e then i else e, if i < e then e else i;
    assert lo < hi ==> chain[lo].priority <= chain[hi].priority;
    assert lo < hi && RankOrdered(chain, true) ==> Rank(chain[lo], true) <= Rank(chain[hi], true);
    assert Rank(m, true) < Rank(chain[e], true);
    ThrowerInFront(all, chain, fails, m, e, i);
  }

  /** What escapes was thrown by one that sorting has put in front of the error handler. */
  lemma EscapedWasLow(all: seq<Middleware>, chain: seq<Middleware>, fails: Failures) returns (m: Middleware)
    requires AllAtMostOnce(all) && ErrorHandler() in all && SortedFrom(all, chain) && ThrowsOut(chain, fails)
    ensures m in all && Raises(m) && m.priority <= 100
    ensures RankOrdered(chain, false) ==> m.priority < 100
  {
    var e := FirstHandler(all, chain);
    ErrorBoundary(chain, fails, e);
    var k: nat :| k < e && RaisedAt(chain, 0, k);
    m := chain[k];
    assert chain[k].priority <= chain[e].priority;
    assert RankOrdered(chain, false) ==> Rank(chain[k], false) <= Rank(chain[e], false);
  }

  ghost predicate HasThrower(all: seq<Middleware>, below: int) {
    exists m | m in all :: m.priority < below && Raises(m)
  }

  /** For one order that sorting may give: a low thrower escapes, and only low throwers do. */
  lemma PriorityBoundaryFor(all: seq<Middleware>, chain: seq<Middleware>, fails: Failures)
    requires AllAtMostOnce(all) && ErrorHandler() in all && FrontPasses(all) && SortedFrom(all, chain)
    ensures ThrowsOut(chain, fails) ==> HasThrower(all, 101)
    ensures HasThrower(all, 100) ==> ThrowsOut(chain, fails)
  {
    if ThrowsOut(chain, fails) {
      var m := EscapedWasLow(all, chain, fails);
    }
    if HasThrower(all, 100) {
      var m :| m in all && m.priority < 100 && Raises(m);
      LowThrowerEscapes(all, chain, fails, m, false);
    }
  }

  /**
   * Exactly which throwers are outside the boundary, by priority: some order that sorting may give lets an
   * exception escape if and only if one that throws has at most the handler's own priority of 100, and
   * every order does if and only if one has less.
   */
  lemma PriorityBoundary(all: seq<Middleware>, fails: Failures)
    requires AllAtMostOnce(all) && ErrorHandler() in all && FrontPasses(all)
    ensures (exists chain: seq<Middleware> :: SortedFrom(all, chain) && ThrowsOut(chain, fails))
        <==> HasThrower(all, 101)
    ensures (forall chain: seq<Middleware> :: SortedFrom(all, chain) ==> ThrowsOut(chain, fails))
        <==> HasThrower(all, 100)
  {
    if HasThrower(all, 101) {
      var m :| m in all && m.priority < 101 && Raises(m);
      var chain := RankedOrderExists(all, true);
      LowThrowerEscapes(all, chain, fails, m, true);
    }
    forall chain: seq<Middleware> | SortedFrom(all, chain)
      ensures ThrowsOut(chain, fails) ==> HasThrower(all, 101)
      ensures HasThrower(all, 100) ==> ThrowsOut(chain, fails)
    {
      PriorityBoundaryFor(all, chain, fails);
    }
    if forall chain: seq<Middleware> :: SortedFrom(all, chain) ==> ThrowsOut(chain, fails) {
      var chain := RankedOrderExists(all, false);
      var m := EscapedWasLow(all, chain, fails);
    }
  }

  // ---------- More than one call ----------

  /** It does nothing but call `next`, at least once and outside any try block. */
  ghost predicate OnlyCalls(m: Middleware) {
    m.body != [] && forall a | a in m.body :: a == CallNext(false)
  }

  /** Behind the last middleware every call runs the final handler. */
  lemma {:induction false} SpentThrows(ms: seq<Middleware>, i: nat, body: seq<Action>, s: Chain)
    requires InStep(ms, s) && i < s.index == |ms| && body != [] && body[0] == CallNext(false)
    ensures BodyRun(ms, ALWAYS, i, body, s).threw && BodyRun(ms, ALWAYS, i, body, s).chain.index == |ms|
  {
  }

  /** Behind the error handler the exception of the final handler comes straight out. */
  lemma {:induction false} ThrowsBehind(ms: seq<Middleware>, s: Chain)
    requires InStep(ms, s) && forall j | s.index <= j < |ms| :: OnlyCalls(ms[j])
    ensures var r := NextRun(ms, ALWAYS, s); r.threw && r.chain.index == |ms|
    decreases |ms| - s.index
  {
    if s.index < |ms| {
      var body := ms[s.index].body;
      assert body[0] in body;
      ThrowsBehind(ms, Calling(Entered(s), s.index));
    }
  }

  ghost predicate CallsTwice(ms: seq<Middleware>, i: nat, e: nat) {
    exists j :: i <= j < e && j < |ms| && |ms[j].body| >= 2
  }

  lemma {:induction false} SecondCallThrows(ms: seq<Middleware>, s: Chain, e: nat)
    requires InStep(ms, s) && s.index <= e < |ms| && ms[e] == ErrorHandler()
    requires forall j | 0 <= j < |ms| && j != e :: OnlyCalls(ms[j])
    ensures var r := NextRun(ms, ALWAYS, s); r.chain.index == |ms| && (r.threw <==> CallsTwice(ms, s.index, e))
    decreases e - s.index
  {
    var i := s.index;
    var body := ms[i].body;
    var c := Calling(Entered(s), i);
    assert body[0] in body;
    if i == e {
      ThrowsBehind(ms, c);
      var mid := NextRun(ms, ALWAYS, c);
      assert BodyRun(ms, ALWAYS, i, body[1..], mid.chain) == Ran(mid.chain, false);
    } else {
      SecondCallThrows(ms, c, e);
      var mid := NextRun(ms, ALWAYS, c);
      if !mid.threw {
        if |body| >= 2 {
          assert body[1] in body;
          SpentThrows(ms, i, body[1..], mid.chain);
        } else {
          assert BodyRun(ms, ALWAYS, i, body[1..], mid.chain) == Ran(mid.chain, false);
        }
      }
      assert CallsTwice(ms, i, e) <==> |body| >= 2 || CallsTwice(ms, i + 1, e);
    }
  }

  /**
   * Why one call: when the final handler always throws and the middlewares do nothing but call `next`,
   * the exception gets past the error handler exactly when one in front of it calls `next` again.
   */
  lemma OneCallNeeded(ms: seq<Middleware>, e: nat)
    requires e < |ms| && ms[e] == ErrorHandler() && forall j | 0 <= j < |ms| && j != e :: OnlyCalls(ms[j])
    ensures ThrowsOut(ms, ALWAYS) <==> CallsTwice(ms, 0, e)
  {
    SecondCallThrows(ms, START, e);
  }

  /** The smallest such chain, and a throwing middleware of default priority: both escape. */
  lemma EscapeWitnesses(chain: seq<Middleware>)
    requires SortedFrom([ErrorHandler(), Middleware([Throw], 0)], chain)
    ensures ThrowsOut(chain, NEVER)
    ensures ThrowsOut([Middleware([CallNext(false), CallNext(false)], 0), ErrorHandler()], ALWAYS)
  {
    var all := [ErrorHandler(), Middleware([Throw], 0)];
    var twice := Middleware([CallNext(false), CallNext(false)], 0);
    assert |twice.body| == 2;
    OneCallNeeded([twice, ErrorHandler()], 1);
    var e := FirstHandler(all, chain);
    assert Middleware([Throw], 0) in chain;
    var i :| 0 <= i < |chain| && chain[i] == Middleware([Throw], 0);
    assert |chain| == |multiset(chain)| == |multiset(all)| == 2;
    assert Raises(chain[i]);
    assert RaisedAt(chain, 0, i);
    ErrorBoundary(chain, NEVER, e);
  }
}
