/** Connections, the manager that lists them, and the server that accepts them, as completion handlers. */
module Connections {
  import opened BufferPools
  import opened HttpParser

  datatype ConnState = Idle | Reading | Writing | Closed

  /** How a read completes: with bytes (the parser's verdict, and whether to keep alive), or not. */
  datatype ReadResult = Bytes(verdict: Verdict, keepAlive: bool) | ReadFailed | ReadAborted

  datatype WriteResult = Written | WriteFailed | WriteAborted

  /** What a handler may depend on or change in one connection. */
  datatype View = View(state: ConnState, keepAlive: bool, pendingReads: nat, pendingWrites: nat, listed: bool,
      holds: bool, releases: nat)
  {
    /** What holds between handlers: one operation in flight while open; listed, holding a buffer, and not
        closed are the same; a buffer is given back once, on closing. */
    predicate Settled() {
      && !state.Idle?
      && (listed <==> !state.Closed?) && (holds <==> !state.Closed?)
      && releases == (if state.Closed? then 1 else 0)
      && (state.Reading? ==> pendingReads == 1 && pendingWrites == 0)
      && (state.Writing? ==> pendingReads == 0 && pendingWrites == 1)
      && pendingReads + pendingWrites <= 1
    }

    function Read(): View { this.(state := Reading, pendingReads := pendingReads + 1) }

    function Write(): View { this.(state := Writing, pendingWrites := pendingWrites + 1) }

    function Shut(): View {
      this.(state := Closed, holds := false, releases := if holds then releases + 1 else releases)
    }

    function Stopped(): View { this.(listed := false).Shut() }
  }

  function AfterRead(v: View, r: ReadResult): View
    requires v.pendingReads > 0
  {
    var w := v.(pendingReads := v.pendingReads - 1);
    match r
    case Bytes(INDETERMINATE, keepAlive) => w.(keepAlive := keepAlive).Read()
    case Bytes(_, keepAlive) => w.(keepAlive := keepAlive).Write()
    case ReadFailed => w.Write().Stopped()
    case ReadAborted => w
  }

  function AfterWrite(v: View, r: WriteResult): View
    requires v.pendingWrites > 0
  {
    var w := v.(pendingWrites := v.pendingWrites - 1);
    if r.Written? && v.keepAlive then w.(state := Idle).Read() else w.Stopped()
  }

  function AfterTimer(v: View, waitingFor: ConnState, aborted: bool): View {
    if !aborted && v.state == waitingFor then v.Shut().Stopped() else v
  }

  /** A read handler keeps a settled connection settled unless bytes arrive after closing, or an abort before it. */
  lemma ReadSettles(v: View, r: ReadResult)
    requires v.Settled() && v.pendingReads > 0
    ensures AfterRead(v, r).Settled() <==> if v.state.Closed? then !r.Bytes? else !r.ReadAborted?
    ensures AfterRead(v, r).Settled() && v.state.Closed? ==> AfterRead(v, r).state.Closed?
  {
  }

  /** A write handler keeps a settled connection settled unless a kept-alive write succeeds after closing. */
  lemma WriteSettles(v: View, r: WriteResult)
    requires v.Settled() && v.pendingWrites > 0
    ensures AfterWrite(v, r).Settled() <==> !(v.state.Closed? && r.Written? && v.keepAlive)
    ensures AfterWrite(v, r).Settled() && v.state.Closed? ==> AfterWrite(v, r).state.Closed?
  {
  }

  /** A timer handler may fire at any time; the idle timer's never does anything. */
  lemma TimerSettles(v: View, waitingFor: ConnState, aborted: bool)
    requires v.Settled()
    ensures AfterTimer(v, waitingFor, aborted).Settled()
    ensures AfterTimer(v, Idle, aborted) == v
    ensures v.state.Closed? ==> AfterTimer(v, waitingFor, aborted).state.Closed?
    ensures waitingFor == v.state && !v.state.Closed? && !aborted ==> AfterTimer(v, waitingFor, aborted).state.Closed?
  {
  }

  class Connection {
    const manager: ConnectionManager
    const bufferPool: BufferPool
    var state: ConnState
    var buffer: Buffer?
    var keepAlive: bool
    /** Reads and writes the socket has not completed yet. */
    var pendingReads: nat
    var pendingWrites: nat
    /** How often this connection gave a buffer back. */
    ghost var releases: nat

    ghost function Seen(): View
      reads this, manager
    {
      View(state, keepAlive, pendingReads, pendingWrites, this in manager.connections, buffer != null, releases)
    }

    /** The buffer held is one the pool has given out. */
    ghost predicate Holding()
      reads this, bufferPool
    {
      bufferPool.Valid() && (buffer != null ==> buffer in bufferPool.outstanding)
    }

    /** The pool after a step: without the buffer, if it was given back. */
    twostate predicate PoolFollows()
      reads this, bufferPool
    {
      && bufferPool.Valid()
      && if buffer == null && old(buffer) != null
         then bufferPool.outstanding == old(bufferPool.outstanding) - {old(buffer)}
         else buffer == old(buffer) && bufferPool.outstanding == old(bufferPool.outstanding)
    }

    constructor (manager: ConnectionManager, bufferPool: BufferPool)
      requires bufferPool.Valid() && bufferPool.maxMemory == 0
      modifies bufferPool
      ensures this.manager == manager && this.bufferPool == bufferPool && bufferPool.maxMemory == 0
      ensures state == Idle && !keepAlive && pendingReads == pendingWrites == releases == 0
      ensures Holding() && buffer != null && buffer !in old(bufferPool.outstanding)
      ensures bufferPool.outstanding == old(bufferPool.outstanding) + {buffer}
    {
      this.manager, this.bufferPool := manager, bufferPool;
      state, keepAlive, buffer := Idle, false, null;
      pendingReads, pendingWrites, releases := 0, 0, 0;
      new;
      buffer := bufferPool.Acquire();
    }

    method Start()
      requires buffer != null
      modifies this
      ensures Seen() == old(Seen()).Read() && buffer == old(buffer)
    {
      state := Reading;
      DoRead();
    }

    method Stop()
      requires Holding()
      modifies this, bufferPool
      ensures Holding() && PoolFollows() && Seen() == old(Seen()).Shut()
          && bufferPool.maxMemory == old(bufferPool.maxMemory)
    {
      Shutdown();
    }

    /** May run several times; gives the buffer back the first time. */
    method Shutdown()
      requires Holding()
      modifies this, bufferPool
      ensures Holding() && PoolFollows() && Seen() == old(Seen()).Shut()
          && bufferPool.maxMemory == old(bufferPool.maxMemory)
    {
      state := Closed;
      if buffer != null {
        bufferPool.Release(buffer);
        releases := releases + 1;
        buffer := null;
      }
    }

    /** Starts a read into the buffer. */
    method DoRead()
      requires buffer != null
      modifies this
      ensures Seen() == old(Seen()).Read() && buffer == old(buffer)
    {
      state := Reading;
      pendingReads := pendingReads + 1;
    }

    method DoWrite()
      modifies this
      ensures Seen() == old(Seen()).Write() && buffer == old(buffer)
    {
      state := Writing;
      pendingWrites := pendingWrites + 1;
    }

    /** The read handler. */
    method OnRead(r: ReadResult)
      requires Holding() && pendingReads > 0 && (r.Bytes? ==> buffer != null)
      modifies this, manager, bufferPool
      ensures Holding() && PoolFollows() && Seen() == AfterRead(old(Seen()), r)
      ensures manager.connections == old(manager.connections)
          || manager.connections == old(manager.connections) - {this}
      ensures bufferPool.maxMemory == old(bufferPool.maxMemory)
    {
      pendingReads := pendingReads - 1;
      match r {
        case Bytes(verdict, wanted) =>
          keepAlive := wanted;
          if verdict == GOOD {
            DoWrite();
          } else if verdict == BAD {
            DoWrite();
          } else {
            DoRead();
          }
        case ReadFailed =>
          DoWrite();
          manager.Stop(this);
        case ReadAborted =>
      }
    }

    /** The write handler. */
    method OnWrite(r: WriteResult)
      requires Holding() && pendingWrites > 0 && (r.Written? && keepAlive ==> buffer != null)
      modifies this, manager, bufferPool
      ensures Holding() && PoolFollows() && Seen() == AfterWrite(old(Seen()), r)
      ensures manager.connections == old(manager.connections)
          || manager.connections == old(manager.connections) - {this}
      ensures bufferPool.maxMemory == old(bufferPool.maxMemory)
    {
      pendingWrites := pendingWrites - 1;
      if r.Written? {
        if keepAlive {
          state := Idle;
          DoRead();
        } else {
          manager.Stop(this);
        }
      } else {
        manager.Stop(this);
      }
    }

    /** The handlers of the idle, read and write timers: each closes only in the state it waits in. */
    method OnTimer(waitingFor: ConnState, aborted: bool)
      requires Holding()
      modifies this, manager, bufferPool
      ensures Holding() && PoolFollows() && Seen() == AfterTimer(old(Seen()), waitingFor, aborted)
      ensures manager.connections == old(manager.connections)
          || manager.connections == old(manager.connections) - {this}
      ensures bufferPool.maxMemory == old(bufferPool.maxMemory)
    {
      if !aborted && state == waitingFor {
        Shutdown();
        manager.Stop(this);
      }
    }
  }

  class ConnectionManager {
    var connections: set<Connection>

    constructor ()
      ensures connections == {}
    {
      connections := {};
    }

    method Start(c: Connection)
      requires c.manager == this && c.buffer != null
      modifies this, c
      ensures connections == old(connections) + {c} && c.buffer == old(c.buffer)
      ensures c.Seen() == old(c.Seen()).(listed := true).Read()
    {
      connections := connections + {c};
      c.Start();
    }

    method Stop(c: Connection)
      requires c.manager == this && c.Holding()
      modifies this, c, c.bufferPool
      ensures connections == old(connections) - {c}
      ensures c.Holding() && c.PoolFollows() && c.Seen() == old(c.Seen()).Stopped()
      ensures c.bufferPool.maxMemory == old(c.bufferPool.maxMemory)
    {
      connections := connections - {c};
      c.Stop();
    }

    /** A connection that holds its own buffer. */
    ghost predicate Holds(c: Connection, bufferPool: BufferPool, holders: map<Buffer, Connection>)
      reads c
    {
      c.manager == this && c.bufferPool == bufferPool && c.buffer != null && c.buffer in holders
          && holders[c.buffer] == c
    }

    /** A buffer that is out with the listed connection that holds it. */
    ghost predicate Held(b: Buffer, holders: map<Buffer, Connection>)
      requires b in holders
      reads this, holders[b]
    {
      holders[b] in connections && holders[b].buffer == b
    }

    /** The listed connections, and no others, hold the buffers that are out, each its own. */
    ghost predicate AllHold(bufferPool: BufferPool, holders: map<Buffer, Connection>)
      reads this, connections, bufferPool, holders.Values
    {
      && bufferPool.Valid() && bufferPool.outstanding == holders.Keys
      && (forall c {:trigger c in connections} | c in connections :: Holds(c, bufferPool, holders))
      && (forall b {:trigger b in holders} | b in holders :: Held(b, holders))
    }

    /** Stops every connection in some order, then forgets them all: no buffer stays out. */
    method StopAll(bufferPool: BufferPool, ghost holders: map<Buffer, Connection>)
      requires AllHold(bufferPool, holders)
      modifies this, connections, bufferPool
      ensures connections == {} && bufferPool.Valid() && bufferPool.outstanding == {}
      ensures bufferPool.maxMemory == old(bufferPool.maxMemory)
      ensures forall c | c in old(connections) :: c.Seen() == old(c.Seen()).Stopped()
    {
      StopEach(bufferPool, holders);
      label stopped:
      connections := {};
      forall c | c in old(connections)
        ensures c.Seen() == old(c.Seen()).Stopped()
      {
        assert c.Seen() == old@stopped(c.Seen()).(listed := false);
      }
    }

    method StopEach(bufferPool: BufferPool, ghost holders: map<Buffer, Connection>)
      requires AllHold(bufferPool, holders)
      modifies connections, bufferPool
      ensures bufferPool.Valid() && bufferPool.outstanding == {}
      ensures bufferPool.maxMemory == old(bufferPool.maxMemory)
      ensures forall c | c in connections :: c.Seen() == old(c.Seen()).Shut()
    {
      var todo := connections;
      while todo != {}
        invariant todo <= connections && bufferPool.Valid()
        invariant bufferPool.maxMemory == old(bufferPool.maxMemory)
        invariant forall b :: b in bufferPool.outstanding <==> b in holders && holders[b] in todo
        invariant forall c | c in todo :: unchanged(c)
        invariant forall c | c in connections - todo :: c.Seen() == old(c.Seen()).Shut()
      {
        var c :| c in todo;
        c.Stop();
        todo := todo - {c};
      }
      assert connections - todo == connections;
    }
  }
}
