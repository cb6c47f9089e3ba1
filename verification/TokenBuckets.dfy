/** The token bucket behind rate limiting, over exact arithmetic. */
module TokenBuckets {

  datatype Bucket = Bucket(capacity: real, rate: real, tokens: real, last: real)

  /** A call of `consume`: how many tokens, and what the clock said. */
  datatype Call = Call(amount: int, at: real)

  function Min(a: real, b: real): real {
    if b < a then b else a
  }

  /** What flows in between two times. */
  function Inflow(rate: real, from: real, to: real): real {
    (to - from) * rate
  }

  function Refilled(b: Bucket, now: real): Bucket {
    b.(tokens := Min(b.capacity, b.tokens + Inflow(b.rate, b.last, now)), last := now)
  }

  function Granted(b: Bucket, c: Call): bool {
    Refilled(b, c.at).tokens >= c.amount as real
  }

  function After(b: Bucket, c: Call): Bucket {
    var r := Refilled(b, c.at);
    if Granted(b, c) then r.(tokens := r.tokens - c.amount as real) else r
  }

  class TokenBucket {
    const capacity: real
    const refillRate: real
    var tokens: real
    var lastRefillTime: real

    function Now(): Bucket
      reads this
    {
      Bucket(capacity, refillRate, tokens, lastRefillTime)
    }

    constructor (capacity: real, refillRate: real, now: real)
      ensures Now() == Bucket(capacity, refillRate, capacity, now)
    {
      this.capacity, this.refillRate := capacity, refillRate;
      tokens, lastRefillTime := capacity, now;
    }

    method Consume(amount: int, now: real) returns (granted: bool)
      modifies this
      ensures granted == Granted(old(Now()), Call(amount, now)) && Now() == After(old(Now()), Call(amount, now))
    {
      Refill(now);
      if tokens >= amount as real {
        tokens := tokens - amount as real;
        return true;
      }
      return false;
    }

    method Refill(now: real)
      modifies this
      ensures Now() == Refilled(old(Now()), now)
    {
      var elapsed := now - lastRefillTime;
      var tokensToAdd := elapsed * refillRate;
      tokens := Min(capacity, tokens + tokensToAdd);
      lastRefillTime := now;
    }

    /** A run of calls. */
    method ConsumeAll(calls: seq<Call>) returns (decisions: seq<bool>)
      modifies this
      ensures decisions == Decisions(old(Now()), calls) && Now() == AfterAll(old(Now()), calls)
    {
      decisions := [];
      for i := 0 to |calls|
        invariant Now() == AfterAll(old(Now()), calls[..i]) && decisions == Decisions(old(Now()), calls[..i])
      {
        assert calls[..i + 1][..i] == calls[..i];
        var granted := Consume(calls[i].amount, calls[i].at);
        decisions := decisions + [granted];
      }
      assert calls[..|calls|] == calls;
    }
  }

  // ---------- Whole runs ----------

  function AfterAll(b: Bucket, calls: seq<Call>): Bucket {
    if calls == [] then b
    else After(AfterAll(b, calls[..|calls| - 1]), calls[|calls| - 1])
  }

  function Decisions(b: Bucket, calls: seq<Call>): (r: seq<bool>)
    ensures |r| == |calls|
  {
    if calls == [] then []
    else Decisions(b, calls[..|calls| - 1]) + [Granted(AfterAll(b, calls[..|calls| - 1]), calls[|calls| - 1])]
  }

  /** The tokens granted over a run. */
  function Total(b: Bucket, calls: seq<Call>): real {
    if calls == [] then 0.0
    else
      var n := |calls| - 1;
      Total(b, calls[..n]) + if Granted(AfterAll(b, calls[..n]), calls[n]) then calls[n].amount as real else 0.0
  }

  /** A bucket in its range. */
  ghost predicate Valid(b: Bucket) {
    b.rate >= 0.0 && 0.0 <= b.tokens <= b.capacity
  }

  /** Non-negative amounts, and a clock that never goes back, from `from` to `to`. */
  ghost predicate Timely(calls: seq<Call>, from: real, to: real) {
    && from <= to
    && (forall c | c in calls :: c.amount >= 0 && from <= c.at <= to)
    && (forall i, j | 0 <= i < j < |calls| :: calls[i].at <= calls[j].at)
  }

  lemma More(time: real, rate: real)
    requires time >= 0.0 && rate >= 0.0
    ensures time * rate >= 0.0
  {
  }

  lemma Elapses(a: real, b: real, c: real, rate: real)
    ensures (c - a) * rate == (b - a) * rate + (c - b) * rate
  {
  }

  /** The tokens a bucket would have had at time zero. */
  function Level(b: Bucket): real {
    b.tokens - b.last * b.rate
  }

  /** One call keeps the range. */
  lemma CallBounds(b: Bucket, c: Call)
    requires Valid(b) && c.amount >= 0 && b.last <= c.at
    ensures var e := After(b, c); Valid(e) && e.capacity == b.capacity && e.rate == b.rate && e.last == c.at
  {
    More(c.at - b.last, b.rate);
  }

  /** One call grants no more than the level falls by. */
  lemma CallFalls(b: Bucket, c: Call)
    requires Valid(b) && c.amount >= 0 && b.last <= c.at
    ensures (if Granted(b, c) then c.amount as real else 0.0) <= Level(b) - Level(After(b, c))
  {
    More(c.at - b.last, b.rate);
  }

  /** Over every run the tokens stay within the capacity, and the clock is at the last call. */
  lemma {:induction false} RunBounds(b: Bucket, calls: seq<Call>, to: real)
    requires Valid(b) && Timely(calls, b.last, to)
    ensures var e := AfterAll(b, calls);
            && Valid(e) && e.capacity == b.capacity && e.rate == b.rate
            && e.last == (if calls == [] then b.last else calls[|calls| - 1].at)
            && b.last <= e.last <= to
    decreases |calls|
  {
    if calls == [] {
    } else {
      var n := |calls| - 1;
      var c := calls[n];
      assert c in calls;
      assert forall d | d in calls[..n] :: d in calls;
      RunBounds(b, calls[..n], c.at);
      CallBounds(AfterAll(b, calls[..n]), c);
    }
  }

  lemma {:induction false} GrantsAdd(b: Bucket, calls: seq<Call>)
    requires forall c | c in calls :: c.amount >= 0
    ensures 0.0 <= Total(b, calls)
  {
    if calls == [] {
    } else {
      var n := |calls| - 1;
      assert calls[n] in calls && forall d | d in calls[..n] :: d in calls;
      GrantsAdd(b, calls[..n]);
    }
  }

  /** What a run grants, the level falls by at least. */
  lemma {:induction false} RunLevels(b: Bucket, calls: seq<Call>, to: real)
    requires Valid(b) && Timely(calls, b.last, to)
    ensures Total(b, calls) <= Level(b) - Level(AfterAll(b, calls))
    decreases |calls|
  {
    if calls == [] {
    } else {
      var n := |calls| - 1;
      var c := calls[n];
      assert c in calls;
      assert forall d | d in calls[..n] :: d in calls;
      RunBounds(b, calls[..n], c.at);
      RunLevels(b, calls[..n], c.at);
      CallFalls(AfterAll(b, calls[..n]), c);
    }
  }

  /** Refilling in between changes nothing for a later refill. */
  lemma RefillTwice(b: Bucket, u: real, v: real)
    requires Valid(b) && b.last <= u <= v
    ensures Refilled(Refilled(b, u), v) == Refilled(b, v)
  {
    More(u - b.last, b.rate);
    More(v - u, b.rate);
    Elapses(b.last, u, v, b.rate);
  }

  lemma NextAfterRefill(b: Bucket, u: real, c: Call)
    requires Valid(b) && b.last <= u <= c.at
    ensures Granted(Refilled(b, u), c) == Granted(b, c) && After(Refilled(b, u), c) == After(b, c)
  {
    RefillTwice(b, u, c.at);
  }

  lemma OneCallRun(b: Bucket, c: Call)
    ensures AfterAll(b, [c]) == After(b, c) && Decisions(b, [c]) == [Granted(b, c)]
    ensures Total(b, [c]) == if Granted(b, c) then c.amount as real else 0.0
  {
    assert [c][..0] == [];
  }

  /** A bucket that was refilled meanwhile decides, and grants, the same from then on. */
  lemma {:induction false} RefillChangesNothing(b: Bucket, u: real, calls: seq<Call>, to: real)
    requires Valid(b) && b.last <= u && Timely(calls, u, to)
    ensures Decisions(Refilled(b, u), calls) == Decisions(b, calls)
    ensures Total(Refilled(b, u), calls) == Total(b, calls)
    ensures calls != [] ==> AfterAll(Refilled(b, u), calls) == AfterAll(b, calls)
    decreases |calls|
  {
    if calls == [] {
    } else if |calls| == 1 {
      var c := calls[0];
      assert c in calls && calls == [c];
      NextAfterRefill(b, u, c);
      OneCallRun(b, c);
      OneCallRun(Refilled(b, u), c);
    } else {
      var init := calls[..|calls| - 1];
      assert forall d | d in init :: d in calls;
      RefillChangesNothing(b, u, init, to);
    }
  }

  lemma RefillIsValid(b: Bucket, u: real)
    requires Valid(b) && b.last <= u
    ensures Valid(Refilled(b, u))
  {
    More(u - b.last, b.rate);
  }

  /**
   * The window bound: after any earlier calls, the calls made between times `s` and `t` are granted at most
   * the capacity and what flows in meanwhile.
   */
  lemma WindowBound(b: Bucket, before: seq<Call>, window: seq<Call>, s: real, t: real)
    requires Valid(b) && Timely(before, b.last, s) && Timely(window, s, t)
    ensures 0.0 <= Total(AfterAll(b, before), window) <= b.capacity + Inflow(b.rate, s, t)
  {
    RunBounds(b, before, s);
    WindowFrom(AfterAll(b, before), window, s, t);
  }

  lemma WindowFrom(z: Bucket, window: seq<Call>, s: real, t: real)
    requires Valid(z) && z.last <= s && Timely(window, s, t)
    ensures 0.0 <= Total(z, window) <= z.capacity + Inflow(z.rate, s, t)
  {
    var r := MovedUp(z, s, window, t);
    RunBounds(r, window, t);
    RunLevels(r, window, t);
    GrantsAdd(z, window);
    LevelFalls(r, AfterAll(r, window), z.capacity, z.rate, s, t);
  }

  /** The bucket as it would be at time `s`, which grants the same from then on. */
  lemma MovedUp(z: Bucket, s: real, window: seq<Call>, t: real) returns (r: Bucket)
    requires Valid(z) && z.last <= s && Timely(window, s, t)
    ensures Valid(r) && r.last == s && r.capacity == z.capacity && r.rate == z.rate
    ensures Total(r, window) == Total(z, window)
  {
    r := Refilled(z, s);
    RefillIsValid(z, s);
    RefillChangesNothing(z, s, window, t);
  }

  lemma LevelFalls(r: Bucket, e: Bucket, capacity: real, rate: real, s: real, t: real)
    requires Valid(r) && Valid(e) && r.capacity == capacity && r.rate == e.rate == rate && s == r.last <= e.last <= t
    ensures Level(r) - Level(e) <= capacity + Inflow(rate, s, t)
  {
    More(t - e.last, rate);
    Elapses(s, e.last, t, rate);
  }

  /** A refused call changes no later decision: the later calls are decided as if it had not been made. */
  lemma RefusalLeavesNoTrace(b: Bucket, before: seq<Call>, refused: Call, after: seq<Call>, to: real)
    requires Valid(b) && Timely(before, b.last, refused.at) && Timely(after, refused.at, to)
    requires !Granted(AfterAll(b, before), refused)
    ensures Decisions(After(AfterAll(b, before), refused), after) == Decisions(AfterAll(b, before), after)
    ensures Total(After(AfterAll(b, before), refused), after) == Total(AfterAll(b, before), after)
  {
    RunBounds(b, before, refused.at);
    RefillChangesNothing(AfterAll(b, before), refused.at, after, to);
  }

  lemma {:induction false} RunsJoin(b: Bucket, before: seq<Call>, after: seq<Call>)
    ensures AfterAll(b, before + after) == AfterAll(AfterAll(b, before), after)
    ensures Decisions(b, before + after) == Decisions(b, before) + Decisions(AfterAll(b, before), after)
    ensures Total(b, before + after) == Total(b, before) + Total(AfterAll(b, before), after)
    decreases |after|
  {
    if after == [] {
      assert before + after == before;
    } else {
      var n := |after| - 1;
      var all := before + after;
      assert all[..|all| - 1] == before + after[..n] && all[|all| - 1] == after[n];
      RunsJoin(b, before, after[..n]);
    }
  }

  /** In one run: with the refused call and without it, the decisions on all the other calls are the same. */
  lemma RefusalInRun(b: Bucket, before: seq<Call>, refused: Call, after: seq<Call>, to: real)
    requires Valid(b) && Timely(before, b.last, refused.at) && Timely(after, refused.at, to)
    requires !Granted(AfterAll(b, before), refused)
    ensures Decisions(b, before + [refused] + after)
            == Decisions(b, before) + [false] + Decisions(b, before + after)[|before|..]
  {
    RefusalLeavesNoTrace(b, before, refused, after, to);
    RunsJoin(b, before, after);
    RunsJoin(b, before, [refused]);
    RunsJoin(b, before + [refused], after);
    OneCallRun(AfterAll(b, before), refused);
  }

  // ---------- What a bucket holds, from amounts and times ----------

  /** What the calls from the k-th on were granted. */
  function GrantedSince(calls: seq<Call>, decisions: seq<bool>, k: nat): real
    requires |decisions| == |calls|
  {
    if |calls| <= k then 0.0
    else
      var n := |calls| - 1;
      GrantedSince(calls[..n], decisions[..n], k) + if decisions[n] then calls[n].amount as real else 0.0
  }

  /** What the tokens at the start and all inflow leave at time `t`. */
  function StartLimit(b: Bucket, calls: seq<Call>, decisions: seq<bool>, t: real): real
    requires |decisions| == |calls|
  {
    b.tokens + (t - b.last) * b.rate - GrantedSince(calls, decisions, 0)
  }

  /** What a bucket that was full at the k-th call can hold at time `t`. */
  function CallLimit(b: Bucket, calls: seq<Call>, decisions: seq<bool>, k: nat, t: real): real
    requires |decisions| == |calls| && k < |calls|
  {
    b.capacity + (t - calls[k].at) * b.rate - GrantedSince(calls, decisions, k)
  }

  /** The amount is within the capacity and all of these limits. */
  ghost predicate Within(b: Bucket, calls: seq<Call>, decisions: seq<bool>, t: real, amount: real)
    requires |decisions| == |calls|
  {
    && amount <= b.capacity && amount <= StartLimit(b, calls, decisions, t)
    && forall k | 0 <= k < |calls| :: amount <= CallLimit(b, calls, decisions, k, t)
  }

  /** It is one of them. */
  ghost predicate Reached(b: Bucket, calls: seq<Call>, decisions: seq<bool>, t: real, amount: real)
    requires |decisions| == |calls|
  {
    || amount == b.capacity || amount == StartLimit(b, calls, decisions, t)
    || exists k | 0 <= k < |calls| :: amount == CallLimit(b, calls, decisions, k, t)
  }

  /** One more call takes what it is granted off every limit, and adds one. */
  lemma LimitsMove(b: Bucket, init: seq<Call>, ds: seq<bool>, c: Call, granted: bool, t: real)
    requires |ds| == |init|
    ensures var calls, more := init + [c], ds + [granted];
            var moved := Inflow(b.rate, c.at, t) - if granted then c.amount as real else 0.0;
            && StartLimit(b, calls, more, t) == StartLimit(b, init, ds, c.at) + moved
            && (forall k | 0 <= k < |init| ::
                  CallLimit(b, calls, more, k, t) == CallLimit(b, init, ds, k, c.at) + moved)
            && CallLimit(b, calls, more, |init|, t) == b.capacity + moved
  {
    var calls, more := init + [c], ds + [granted];
    assert calls[..|init|] == init && more[..|init|] == ds;
    Elapses(b.last, c.at, t, b.rate);
    forall k | 0 <= k < |init|
      ensures CallLimit(b, calls, more, k, t) == CallLimit(b, init, ds, k, c.at) + Inflow(b.rate, c.at, t)
          - if granted then c.amount as real else 0.0
    {
      assert calls[k] == init[k];
      Elapses(calls[k].at, c.at, t, b.rate);
    }
    assert GrantedSince(init, ds, |init|) == 0.0;
  }

  /** The bucket before the last call. */
  lemma BeforeLast(b: Bucket, calls: seq<Call>, to: real)
    requires Valid(b) && Timely(calls, b.last, to) && calls != []
    ensures var n := |calls| - 1;
            var c, z := calls[n], AfterAll(b, calls[..n]);
            && Timely(calls[..n], b.last, c.at) && Valid(z) && z.capacity == b.capacity && z.rate == b.rate
            && z.last <= c.at <= to && c.amount >= 0
  {
    var n := |calls| - 1;
    assert calls[n] in calls && forall d | d in calls[..n] :: d in calls;
    RunBounds(b, calls[..n], calls[n].at);
  }

  /**
   * The exact level over every run: at time `t` the bucket holds the least of its capacity, of what the start
   * and all inflow leave, and of what each earlier call leaves of a full bucket and the inflow since.
   */
  lemma {:induction false} ExactLevel(b: Bucket, calls: seq<Call>, t: real)
    requires Valid(b) && Timely(calls, b.last, t)
    ensures var tokens, ds := Refilled(AfterAll(b, calls), t).tokens, Decisions(b, calls);
            Within(b, calls, ds, t, tokens) && Reached(b, calls, ds, t, tokens)
    decreases |calls|
  {
    if calls == [] {
    } else {
      var n := |calls| - 1;
      var c, init := calls[n], calls[..n];
      BeforeLast(b, calls, t);
      ExactLevel(b, init, c.at);
      LevelMoves(b, init, Decisions(b, init), c, AfterAll(b, init), t);
      assert calls == init + [c];
    }
  }

  lemma LevelMoves(b: Bucket, init: seq<Call>, ds: seq<bool>, c: Call, z: Bucket, t: real)
    requires Valid(b) && Valid(z) && z.capacity == b.capacity && z.rate == b.rate && z.last <= c.at <= t
    requires |ds| == |init| && c.amount >= 0
    requires var before := Refilled(z, c.at).tokens;
             Within(b, init, ds, c.at, before) && Reached(b, init, ds, c.at, before)
    ensures var tokens, calls, more := Refilled(After(z, c), t).tokens, init + [c], ds + [Granted(z, c)];
            Within(b, calls, more, t, tokens) && Reached(b, calls, more, t, tokens)
  {
    var before, tokens := Refilled(z, c.at).tokens, Refilled(After(z, c), t).tokens;
    var calls, more := init + [c], ds + [Granted(z, c)];
    var moved := Inflow(b.rate, c.at, t) - if Granted(z, c) then c.amount as real else 0.0;
    LimitsMove(b, init, ds, c, Granted(z, c), t);
    More(t - c.at, b.rate);
    assert tokens == Min(b.capacity, before + moved);
    assert CallLimit(b, calls, more, |init|, t) == b.capacity + moved;
    forall k | 0 <= k < |calls|
      ensures tokens <= CallLimit(b, calls, more, k, t)
    {
      assert k < |init| ==> before <= CallLimit(b, init, ds, k, c.at);
    }
    if tokens != b.capacity && before != b.capacity && before != StartLimit(b, init, ds, c.at) {
      var k :| 0 <= k < |init| && before == CallLimit(b, init, ds, k, c.at);
      assert tokens == CallLimit(b, calls, more, k, t);
    }
  }

  /** Every decision of every run, by amounts and times only: granted exactly within all limits. */
  lemma DecidedByLimits(b: Bucket, calls: seq<Call>, c: Call)
    requires Valid(b) && Timely(calls, b.last, c.at)
    ensures Granted(AfterAll(b, calls), c) <==> Within(b, calls, Decisions(b, calls), c.at, c.amount as real)
  {
    ExactLevel(b, calls, c.at);
  }

  /** Since then enough has flowed in for the call. */
  predicate FlowsBack(rate: real, from: real, c: Call) {
    (c.at - from) * rate >= c.amount as real
  }

  /** Tokens come back: a call within the capacity is granted once its amount has flowed in since the last one. */
  lemma GrantedAfterWaiting(b: Bucket, calls: seq<Call>, last: Call, c: Call)
    requires Valid(b) && Timely(calls + [last], b.last, last.at) && c.amount as real <= b.capacity
    requires FlowsBack(b.rate, last.at, c)
    ensures Granted(AfterAll(b, calls + [last]), c)
  {
    var y := StateBefore(b, calls, last, last.at);
    GrantedNext(y, last, c, b.rate);
  }

  lemma StateBefore(b: Bucket, calls: seq<Call>, last: Call, to: real) returns (y: Bucket)
    requires Valid(b) && Timely(calls + [last], b.last, to)
    ensures AfterAll(b, calls + [last]) == After(y, last) && last.amount >= 0
    ensures Valid(y) && y.capacity == b.capacity && y.rate == b.rate && y.last <= last.at
  {
    BeforeLast(b, calls + [last], to);
    assert (calls + [last])[..|calls|] == calls;
    y := AfterAll(b, calls);
  }

  lemma GrantedNext(y: Bucket, d: Call, c: Call, rate: real)
    requires Valid(y) && y.rate == rate && d.amount >= 0 && y.last <= d.at && c.amount as real <= y.capacity
    requires FlowsBack(rate, d.at, c)
    ensures Granted(After(y, d), c)
  {
    CallBounds(y, d);
  }
}
