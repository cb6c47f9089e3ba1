/** The server's completion handlers, and every run of them. */
module Servers {
  import opened BufferPools
  import opened Connections

  /** The completion handler of a connection's operation or timer. */
  datatype Handler =
    | ReadDone(read: ReadResult)
    | WriteDone(write: WriteResult)
    | TimerFired(waitingFor: ConnState, aborted: bool)

  /** A completion handler fires; `who` counts connections in the order they were accepted. */
  datatype Event =
    | Accepted(ok: bool)
    | Completed(who: nat, handler: Handler)
    | ShutdownSignal

  /** The whole system as values: the acceptor, and every connection ever accepted. */
  datatype System = System(open: bool, accepting: bool, views: seq<View>)

  /** Whether the handler can fire: its operation is in flight, no success after closing, no abort before it. */
  predicate CanHandle(v: View, e: Handler) {
    match e
    case ReadDone(r) => v.pendingReads > 0 && (if v.state.Closed? then !r.Bytes? else !r.ReadAborted?)
    case WriteDone(r) => v.pendingWrites > 0 && !(v.state.Closed? && r.Written?)
    case TimerFired(_, _) => true
  }

  /** What the handler does to its connection. */
  function Handled(v: View, e: Handler): View
    requires CanHandle(v, e)
  {
    match e
    case ReadDone(r) => AfterRead(v, r)
    case WriteDone(r) => AfterWrite(v, r)
    case TimerFired(waitingFor, aborted) => AfterTimer(v, waitingFor, aborted)
  }

  lemma HandlerSettles(v: View, e: Handler)
    requires v.Settled() && CanHandle(v, e)
    ensures Handled(v, e).Settled() && (v.state.Closed? ==> Handled(v, e).state.Closed?)
  {
    match e
    case ReadDone(r) => ReadSettles(v, r);
    case WriteDone(r) => WriteSettles(v, r);
    case TimerFired(waitingFor, aborted) => TimerSettles(v, waitingFor, aborted);
  }

  /** Whether the event can occur. */
  predicate Possible(y: System, e: Event) {
    match e
    case Accepted(_) => y.accepting
    case Completed(who, h) => who < |y.views| && CanHandle(y.views[who], h)
    case ShutdownSignal => true
  }

  const NEWCOMER := View(Reading, false, 1, 0, true, true, 0)

  function AllStopped(views: seq<View>): (r: seq<View>)
    ensures |r| == |views|
  {
    seq(|views|, i requires 0 <= i < |views| => views[i].Stopped())
  }

  /** What each handler does to the system. */
  function After(y: System, e: Event): System
    requires Possible(y, e)
  {
    match e
    case Accepted(ok) =>
      if !y.open then y.(accepting := false) else if ok then y.(views := y.views + [NEWCOMER]) else y
    case Completed(who, h) => y.(views := y.views[who := Handled(y.views[who], h)])
    case ShutdownSignal => y.(open := false, views := AllStopped(y.views))
  }

  /** A run; events that cannot occur when their turn comes are passed over. */
  function AfterAll(y: System, events: seq<Event>): System
    decreases |events|
  {
    if events == [] then y
    else
      var n := |events| - 1;
      var z := AfterAll(y, events[..n]);
      if Possible(z, events[n]) then After(z, events[n]) else z
  }

  /** Every event can occur when its turn comes. */
  ghost predicate Runnable(y: System, events: seq<Event>) {
    forall k | 0 <= k < |events| :: Possible(AfterAll(y, events[..k]), events[k])
  }

  ghost predicate AllSettled(y: System) {
    (y.open ==> y.accepting) && forall i | 0 <= i < |y.views| :: y.views[i].Settled()
  }

  lemma StepSettles(y: System, e: Event)
    requires AllSettled(y) && Possible(y, e)
    ensures AllSettled(After(y, e))
    ensures |After(y, e).views| >= |y.views|
    ensures forall i | 0 <= i < |y.views| && y.views[i].state.Closed? :: After(y, e).views[i].state.Closed?
    ensures e.ShutdownSignal? ==> forall i | 0 <= i < |After(y, e).views| :: After(y, e).views[i].state.Closed?
  {
    match e
    case Accepted(_) =>
    case Completed(who, h) => HandlerSettles(y.views[who], h);
    case ShutdownSignal =>
  }

  /**
   * Over every run: connections stay settled, so each has given its buffer back exactly once if it is
   * closed and never otherwise; Closed is never left; after a shutdown signal nothing is ever open again.
   */
  lemma {:induction false} RunSettles(y: System, events: seq<Event>)
    requires AllSettled(y)
    ensures var z := AfterAll(y, events);
            && AllSettled(z) && |z.views| >= |y.views| && (!y.open ==> !z.open)
            && (forall i | 0 <= i < |y.views| && y.views[i].state.Closed? :: z.views[i].state.Closed?)
            && (!y.open && (forall i | 0 <= i < |y.views| :: y.views[i].state.Closed?) ==>
                  forall i | 0 <= i < |z.views| :: z.views[i].state.Closed?)
    decreases |events|
  {
    if events == [] {
    } else {
      var n := |events| - 1;
      RunSettles(y, events[..n]);
      var z := AfterAll(y, events[..n]);
      if Possible(z, events[n]) {
        StepSettles(z, events[n]);
      }
    }
  }

  class Server {
    const manager: ConnectionManager
    const bufferPool: BufferPool
    var acceptorOpen: bool
    /** An accept is in flight. */
    var accepting: bool
    /** The connections accepted so far: handlers keep them alive after the manager has dropped them. */
    var accepted: seq<Connection>
    ghost var views: seq<View>
    ghost var holders: map<Buffer, Connection>

    ghost function State(): System
      reads this
    {
      System(acceptorOpen, accepting, views)
    }

    /** Connection `i` is as its view says. */
    ghost predicate Seen(i: nat)
      requires i < |accepted| == |views|
      reads this`accepted, this`views, manager, accepted[i]
    {
      accepted[i].manager == manager && accepted[i].bufferPool == bufferPool && accepted[i].Seen() == views[i]
    }

    /** Over all connections, the manager and the pool. */
    ghost predicate Sane()
      reads this`accepted, this`views, this`holders, manager, manager.connections, bufferPool, accepted, holders.Values
    {
      && manager.AllHold(bufferPool, holders) && bufferPool.maxMemory == 0
      && |accepted| == |views|
      && (forall i {:trigger accepted[i]} | 0 <= i < |accepted| :: Seen(i) && views[i].Settled())
      && (forall i, j {:trigger accepted[i], accepted[j]} | 0 <= i < j < |accepted| :: accepted[i] != accepted[j])
      && (forall c {:trigger c in manager.connections} | c in manager.connections :: c in accepted)
    }

    /** What holds between handlers. */
    ghost predicate Valid()
      reads this, manager, manager.connections, bufferPool, accepted, holders.Values
    {
      Sane() && (acceptorOpen ==> accepting)
    }

    constructor ()
      ensures Valid() && State() == System(true, true, []) && fresh(manager) && fresh(bufferPool)
    {
      manager := new ConnectionManager();
      bufferPool := new BufferPool(8192, 128, 0);
      acceptorOpen, accepting, accepted, views, holders := true, true, [], [], map[];
    }

    /** The accept handler. */
    method OnAccept(ok: bool)
      requires Valid() && accepting
      modifies this, manager, bufferPool
      ensures Valid() && State() == After(old(State()), Accepted(ok))
      ensures Extended()
    {
      accepting := false;
      if !acceptorOpen {
        return;
      }
      if ok {
        Admit();
      }
      accepting := true;
    }

    /** Only new connections are added. */
    twostate predicate Extended()
      reads this
    {
      && |old(accepted)| <= |accepted|
      && (forall i {:trigger old(accepted)[i]} {:trigger accepted[i]} | 0 <= i < |old(accepted)| ::
          accepted[i] == old(accepted)[i])
      && (forall i {:trigger accepted[i]} | |old(accepted)| <= i < |accepted| :: fresh(accepted[i]))
    }

    /** A new connection takes a buffer, is listed, and starts to read. */
    method Admit()
      requires Sane()
      modifies this`accepted, this`views, this`holders, manager, bufferPool
      ensures Sane() && views == old(views) + [NEWCOMER] && Extended()
    {
      var c := new Connection(manager, bufferPool);
      manager.Start(c);
      accepted := accepted + [c];
      views := views + [NEWCOMER];
      holders := holders[c.buffer := c];
      NewcomerSane(c);
    }

    twostate lemma NewcomerSane(new c: Connection)
      requires old(Sane()) && fresh(c) && c.manager == manager && c.bufferPool == bufferPool && c.Seen() == NEWCOMER
      requires bufferPool.Valid() && bufferPool.maxMemory == 0
      requires c.buffer != null && c.buffer !in old(holders) && holders == old(holders)[c.buffer := c]
      requires accepted == old(accepted) + [c] && manager.connections == old(manager.connections) + {c}
      requires views == old(views) + [NEWCOMER]
      requires bufferPool.outstanding == old(bufferPool.outstanding) + {c.buffer}
      requires forall d {:trigger d in old(accepted)} | d in old(accepted) :: unchanged(d)
      ensures Sane()
    {
      forall i | 0 <= i < |accepted|
        ensures Seen(i) && views[i].Settled()
      {
        if i < |old(accepted)| {
          assert accepted[i] == old(accepted[i]) && old(accepted[i]) in old(accepted) && old(Seen(i));
        }
      }
      NewcomerHolds(c);
    }

    twostate lemma NewcomerHolds(new c: Connection)
      requires old(Sane()) && fresh(c) && c.manager == manager && c.bufferPool == bufferPool && bufferPool.Valid()
      requires c.buffer != null && c.buffer !in old(holders) && holders == old(holders)[c.buffer := c]
      requires manager.connections == old(manager.connections) + {c}
      requires bufferPool.outstanding == old(bufferPool.outstanding) + {c.buffer}
      requires forall d {:trigger d in old(accepted)} | d in old(accepted) :: unchanged(d)
      ensures manager.AllHold(bufferPool, holders)
    {
      forall d | d in manager.connections
        ensures manager.Holds(d, bufferPool, holders)
      {
        assert d != c ==> d in old(manager.connections) && old(manager.Holds(d, bufferPool, holders));
      }
      forall b | b in holders
        ensures manager.Held(b, holders)
      {
        assert b != c.buffer ==> old(manager.Held(b, holders));
      }
    }

    /** The holders once connection `c` may have given back the buffer it had `before`. */
    ghost function HoldersAfter(c: Connection, before: Buffer?): map<Buffer, Connection>
      reads this, c
    {
      if c.buffer == null && before != null then holders - {before} else holders
    }

    /** A handler that leaves its own connection settled leaves the rest as it was. */
    twostate lemma StillSane(i: nat)
      requires old(Sane()) && accepted == old(accepted) && i < |accepted|
          && views == old(views)[i := accepted[i].Seen()]
      requires forall d {:trigger d in accepted} | d in accepted && d != accepted[i] :: unchanged(d)
      requires bufferPool.Valid() && views[i].Settled() && bufferPool.maxMemory == 0
      requires var c := accepted[i];
        && (c.buffer == null || c.buffer == old(accepted[i].buffer))
        && bufferPool.outstanding == (if c.buffer == null && old(accepted[i].buffer) != null
             then old(bufferPool.outstanding) - {old(accepted[i].buffer)} else old(bufferPool.outstanding))
        && holders == (if c.buffer == null && old(accepted[i].buffer) != null
             then old(holders) - {old(accepted[i].buffer)} else old(holders))
        && (manager.connections == old(manager.connections) || manager.connections == old(manager.connections) - {c})
      ensures Sane()
    {
      forall j | 0 <= j < |accepted|
        ensures Seen(j) && views[j].Settled()
      {
        assert old(Seen(j)) && accepted[j] in accepted;
      }
      StillHolding(i);
    }

    twostate lemma StillHolding(i: nat)
      requires old(Sane()) && accepted == old(accepted) && i < |accepted|
      requires forall d {:trigger d in accepted} | d in accepted && d != accepted[i] :: unchanged(d)
      requires bufferPool.Valid()
      requires var c := accepted[i];
        && (c in manager.connections ==> c.buffer != null)
        && (c.buffer == null || c.buffer == old(accepted[i].buffer))
        && bufferPool.outstanding == (if c.buffer == null && old(accepted[i].buffer) != null
             then old(bufferPool.outstanding) - {old(accepted[i].buffer)} else old(bufferPool.outstanding))
        && holders == (if c.buffer == null && old(accepted[i].buffer) != null
             then old(holders) - {old(accepted[i].buffer)} else old(holders))
        && (c.buffer != null ==> c in manager.connections)
        && (manager.connections == old(manager.connections) || manager.connections == old(manager.connections) - {c})
      ensures manager.AllHold(bufferPool, holders)
    {
      assert old(Seen(i)) && old(views[i]).Settled();
      forall d | d in manager.connections
        ensures manager.Holds(d, bufferPool, holders)
      {
        assert old(manager.Holds(d, bufferPool, holders));
      }
      forall b | b in holders
        ensures manager.Held(b, holders)
      {
        assert old(manager.Held(b, holders));
      }
    }

    /** The handler runs on its connection. */
    method Handle(c: Connection, e: Handler)
      requires c.Holding() && CanHandle(c.Seen(), e) && c.Seen().Settled()
      modifies c, c.manager, c.bufferPool
      ensures c.Holding() && c.PoolFollows() && c.Seen() == Handled(old(c.Seen()), e)
      ensures c.manager.connections == old(c.manager.connections)
          || c.manager.connections == old(c.manager.connections) - {c}
      ensures c.bufferPool.maxMemory == old(c.bufferPool.maxMemory)
    {
      match e
      case ReadDone(r) => c.OnRead(r);
      case WriteDone(r) => c.OnWrite(r);
      case TimerFired(waitingFor, aborted) => c.OnTimer(waitingFor, aborted);
    }

    /** It leaves a settled connection settled. */
    method HandleSettled(c: Connection, e: Handler)
      requires c.Holding() && CanHandle(c.Seen(), e) && c.Seen().Settled()
      modifies c, c.manager, c.bufferPool
      ensures c.Holding() && c.PoolFollows() && c.Seen() == Handled(old(c.Seen()), e) && c.Seen().Settled()
      ensures c.manager.connections == old(c.manager.connections)
          || c.manager.connections == old(c.manager.connections) - {c}
      ensures c.bufferPool.maxMemory == old(c.bufferPool.maxMemory)
    {
      HandlerSettles(c.Seen(), e);
      Handle(c, e);
    }

    method OnHandler(who: nat, e: Handler)
      requires Sane() && who < |accepted| && CanHandle(views[who], e)
      modifies this`holders, this`views, manager, bufferPool, accepted[who]
      ensures Sane() && views == old(views)[who := Handled(old(views[who]), e)]
    {
      var c := accepted[who];
      assert Seen(who);
      ghost var before := c.buffer;
      HandleSettled(c, e);
      holders, views := HoldersAfter(c, before), views[who := c.Seen()];
      StillSane(who);
    }

    /** Closes the acceptor and every connection; all buffers come back. */
    method GracefulShutdown()
      requires Sane()
      modifies this`acceptorOpen, this`holders, this`views, manager, manager.connections, bufferPool
      ensures Sane() && !acceptorOpen && views == AllStopped(old(views))
      ensures manager.connections == {} && bufferPool.outstanding == {}
      ensures |bufferPool.pool| == bufferPool.totalAllocated == bufferPool.poolSize
    {
      acceptorOpen := false;
      manager.StopAll(bufferPool, holders);
      holders, views := map[], AllStopped(views);
      forall i | 0 <= i < |accepted|
        ensures Seen(i) && views[i].Settled()
      {
        assert old(Seen(i)) && old(views[i].Settled());
        assert accepted[i].Seen() == old(accepted[i].Seen()).Stopped();
      }
      bufferPool.PoolLaws();
    }

    method Fire(e: Event)
      requires Valid() && Possible(State(), e)
      modifies this, manager, bufferPool, accepted
      ensures Valid() && State() == After(old(State()), e) && Extended()
    {
      match e
      case Accepted(ok) => OnAccept(ok);
      case Completed(who, h) => OnHandler(who, h);
      case ShutdownSignal => GracefulShutdown();
    }

    /** Any run of handlers, in any order, does to the objects what it does to the system of values. */
    method Run(events: seq<Event>)
      requires Valid() && Runnable(State(), events)
      modifies this, manager, bufferPool, accepted
      ensures Valid() && State() == AfterAll(old(State()), events)
    {
      assert events[..|events|] == events;
      for i := 0 to |events|
        invariant Valid() && Extended() && State() == AfterAll(old(State()), events[..i])
      {
        assert events[..i + 1][..i] == events[..i];
        Fire(events[i]);
      }
    }

    /**
     * Between any two handlers: listed, open and holding a buffer are the same for every connection; no two
     * connections hold the same buffer; each buffer is given back once; and the pool's books balance.
     */
    lemma Conservation()
      requires Valid()
      ensures forall c | c in accepted ::
                (c in manager.connections <==> c.state != Closed) && (c.state != Closed <==> c.buffer != null)
                && c.releases == if c.state == Closed then 1 else 0
      ensures forall c, d | c in accepted && d in accepted && c != d && c.buffer != null :: c.buffer != d.buffer
      ensures |bufferPool.outstanding| == |manager.connections|
      ensures bufferPool.totalAllocated == |bufferPool.pool| + |manager.connections|
    {
      forall c | c in accepted
        ensures (c in manager.connections <==> c.state != Closed) && (c.state != Closed <==> c.buffer != null)
        ensures c.releases == if c.state == Closed then 1 else 0
        ensures c.buffer != null ==> manager.Holds(c, bufferPool, holders)
      {
        var i :| 0 <= i < |accepted| && accepted[i] == c;
        assert Seen(i);
      }
      forall c | c in manager.connections
        ensures exists b :: b in holders && holders[b] == c
      {
        assert manager.Holds(c, bufferPool, holders);
      }
      forall b | b in holders
        ensures holders[b] in manager.connections && holders[b].buffer == b
      {
        assert manager.Held(b, holders);
      }
      SameSize(holders, manager.connections);
    }
  }

  /** A map that reaches each element of a set from exactly one key has as many keys. */
  lemma {:induction false} SameSize<A, B>(m: map<A, B>, s: set<B>)
    requires forall a | a in m :: m[a] in s
    requires forall b | b in s :: exists a :: a in m && m[a] == b
    requires forall a, a' | a in m && a' in m && m[a] == m[a'] :: a == a'
    ensures |m.Keys| == |s|
    decreases |s|
  {
    if s == {} {
      assert m.Keys == {};
    } else {
      var b :| b in s;
      var a :| a in m && m[a] == b;
      var m', s' := m - {a}, s - {b};
      forall b' | b' in s'
        ensures exists a' :: a' in m' && m'[a'] == b'
      {
        var a' :| a' in m && m[a'] == b';
        assert a' in m' && m'[a'] == b';
      }
      SameSize(m', s');
      assert m'.Keys == m.Keys - {a};
    }
  }
}
