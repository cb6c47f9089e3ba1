/** What a connection does next, told by the list of completions alone. */
module Histories {
  import opened HttpParser
  import opened Connections
  import opened Servers

  /** A server before its first event. */
  const START := System(true, true, [])

  /** The completions of one connection, in order. */
  function Of(events: seq<Event>, who: nat): seq<Handler> {
    if events == [] then []
    else
      var n := |events| - 1;
      Of(events[..n], who) + if events[n].Completed? && events[n].who == who then [events[n].handler] else []
  }

  /** Keep-alive as the last bytes read wanted it. */
  function Wanted(hs: seq<Handler>): bool {
    if hs == [] then false
    else
      var n := |hs| - 1;
      if hs[n].ReadDone? && hs[n].read.Bytes? then hs[n].read.keepAlive else Wanted(hs[..n])
  }

  /** Bytes that complete a request or spoil it. */
  predicate Finishes(h: Handler) {
    h.ReadDone? && h.read.Bytes? && (h.read.verdict == GOOD || h.read.verdict == BAD)
  }

  /** The last read or write to complete was a read that finished a request. */
  predicate AwaitsWrite(hs: seq<Handler>) {
    hs != [] &&
    var n := |hs| - 1;
    if hs[n].TimerFired? then AwaitsWrite(hs[..n]) else Finishes(hs[n])
  }

  /** After these completions, `h` closes the connection: a failure, an answer not kept alive, or a timeout. */
  predicate Closes(hs: seq<Handler>, h: Handler) {
    match h
    case ReadDone(r) => r.ReadFailed?
    case WriteDone(r) => !(r.Written? && Wanted(hs))
    case TimerFired(waitingFor, aborted) => !aborted && waitingFor == if AwaitsWrite(hs) then Writing else Reading
  }

  ghost predicate HasClosed(hs: seq<Handler>) {
    exists k | 0 <= k < |hs| :: Closes(hs[..k], hs[k])
  }

  function ReadsDone(hs: seq<Handler>): nat {
    if hs == [] then 0 else ReadsDone(hs[..|hs| - 1]) + if hs[|hs| - 1].ReadDone? then 1 else 0
  }

  function WritesDone(hs: seq<Handler>): nat {
    if hs == [] then 0 else WritesDone(hs[..|hs| - 1]) + if hs[|hs| - 1].WriteDone? then 1 else 0
  }

  /**
   * Reads that must have been started: the first one, one for each unfinished request, one for each
   * kept-alive answer.
   */
  function ReadsDue(hs: seq<Handler>): nat {
    if hs == [] then 1
    else
      var init, h := hs[..|hs| - 1], hs[|hs| - 1];
      ReadsDue(init) +
      if (h.ReadDone? && h.read.Bytes? && h.read.verdict == INDETERMINATE)
         || (h.WriteDone? && h.write.Written? && Wanted(init)) then 1 else 0
  }

  /** Writes that must have been started: one for each finished request and each failed read. */
  function WritesDue(hs: seq<Handler>): nat {
    if hs == [] then 0
    else
      var h := hs[|hs| - 1];
      WritesDue(hs[..|hs| - 1]) + if Finishes(h) || (h.ReadDone? && h.read.ReadFailed?) then 1 else 0
  }

  /** Closed or not, what it waits for and wants, and how many reads and writes are in flight. */
  datatype Tale = Tale(closed: bool, awaitsWrite: bool, wanted: bool, readsOut: int, writesOut: int)

  /** What the completions tell; `down` says that there was a shutdown signal. */
  ghost function TaleOf(hs: seq<Handler>, down: bool): Tale {
    Tale(down || HasClosed(hs), AwaitsWrite(hs), Wanted(hs), ReadsDue(hs) - ReadsDone(hs),
        WritesDue(hs) - WritesDone(hs))
  }

  predicate Fits(v: View, t: Tale) {
    && v.state == (if t.closed then Closed else if t.awaitsWrite then Writing else Reading)
    && v.keepAlive == t.wanted && v.pendingReads == t.readsOut && v.pendingWrites == t.writesOut
  }

  /** The connection is as its completions tell. */
  ghost predicate Told(v: View, hs: seq<Handler>, down: bool) {
    Fits(v, TaleOf(hs, down))
  }

  /** Accepted connections before the first shutdown signal. */
  function Admitted(events: seq<Event>): nat {
    if events == [] then 0
    else
      var n := |events| - 1;
      Admitted(events[..n]) + if events[n] == Accepted(true) && ShutdownSignal !in events[..n] then 1 else 0
  }

  lemma ClosedSnoc(hs: seq<Handler>, h: Handler)
    ensures HasClosed(hs + [h]) <==> HasClosed(hs) || Closes(hs, h)
  {
    var all := hs + [h];
    assert all[..|hs|] == hs && all[|hs|] == h;
    assert forall k | 0 <= k < |hs| :: all[..k] == hs[..k] && all[k] == hs[k];
    if HasClosed(hs) {
      var k :| 0 <= k < |hs| && Closes(hs[..k], hs[k]);
      assert Closes(all[..k], all[k]);
    }
    if Closes(hs, h) {
      assert Closes(all[..|hs|], all[|hs|]);
    }
  }

  /** How the tale goes on with one more completion. */
  function Onwards(t: Tale, h: Handler): Tale {
    match h
    case ReadDone(Bytes(INDETERMINATE, keepAlive)) => t.(awaitsWrite := false, wanted := keepAlive)
    case ReadDone(Bytes(_, keepAlive)) =>
      t.(awaitsWrite := true, wanted := keepAlive, readsOut := t.readsOut - 1, writesOut := t.writesOut + 1)
    case ReadDone(ReadFailed) =>
      t.(closed := true, awaitsWrite := false, readsOut := t.readsOut - 1, writesOut := t.writesOut + 1)
    case ReadDone(ReadAborted) => t.(awaitsWrite := false, readsOut := t.readsOut - 1)
    case WriteDone(r) =>
      if r.Written? && t.wanted
      then t.(awaitsWrite := false, readsOut := t.readsOut + 1, writesOut := t.writesOut - 1)
      else t.(closed := true, awaitsWrite := false, writesOut := t.writesOut - 1)
    case TimerFired(waitingFor, aborted) =>
      t.(closed := t.closed || (!aborted && waitingFor == if t.awaitsWrite then Writing else Reading))
  }

  lemma TaleGoesOn(hs: seq<Handler>, down: bool, h: Handler)
    ensures TaleOf(hs + [h], down) == Onwards(TaleOf(hs, down), h)
  {
    ClosedSnoc(hs, h);
    assert (hs + [h])[..|hs|] == hs;
  }

  lemma HandlerFits(v: View, t: Tale, h: Handler)
    requires Fits(v, t) && v.Settled() && CanHandle(v, h)
    ensures Fits(Handled(v, h), Onwards(t, h))
  {
    match h
    case ReadDone(Bytes(verdict, keepAlive)) => BytesFit(v, t, verdict, keepAlive);
    case ReadDone(r) => NoBytesFit(v, t, r);
    case WriteDone(r) => WriteFits(v, t, r);
    case TimerFired(_, _) =>
  }

  lemma BytesFit(v: View, t: Tale, verdict: Verdict, keepAlive: bool)
    requires Fits(v, t) && v.Settled() && v.state.Reading?
    ensures Fits(AfterRead(v, Bytes(verdict, keepAlive)), Onwards(t, ReadDone(Bytes(verdict, keepAlive))))
  {
  }

  lemma NoBytesFit(v: View, t: Tale, r: ReadResult)
    requires Fits(v, t) && v.Settled() && CanHandle(v, ReadDone(r)) && !r.Bytes?
    ensures Fits(AfterRead(v, r), Onwards(t, ReadDone(r)))
  {
  }

  lemma WriteFits(v: View, t: Tale, r: WriteResult)
    requires Fits(v, t) && v.Settled() && CanHandle(v, WriteDone(r))
    ensures Fits(AfterWrite(v, r), Onwards(t, WriteDone(r)))
  {
  }

  lemma HandlerTold(v: View, hs: seq<Handler>, down: bool, h: Handler)
    requires Told(v, hs, down) && v.Settled() && CanHandle(v, h)
    ensures Told(Handled(v, h), hs + [h], down)
  {
    TaleGoesOn(hs, down, h);
    HandlerFits(v, TaleOf(hs, down), h);
  }

  /** The connections of a run are as many as were admitted, each as its own completions tell. */
  ghost predicate AllTold(y: System, events: seq<Event>) {
    && |y.views| == Admitted(events) && (y.open <==> ShutdownSignal !in events)
    && (forall who: nat | who >= |y.views| :: Of(events, who) == [])
    && (forall who | 0 <= who < |y.views| :: Told(y.views[who], Of(events, who), ShutdownSignal in events))
  }

  lemma StepTold(y: System, events: seq<Event>, e: Event, z: System, all: seq<Event>)
    requires AllTold(y, events) && AllSettled(y) && Possible(y, e)
    requires z == After(y, e) && all == events + [e]
    ensures AllTold(z, all)
  {
    assert all[..|events|] == events;
    forall who: nat | who >= |z.views|
      ensures Of(all, who) == []
    {
    }
    forall who | 0 <= who < |z.views|
      ensures Told(z.views[who], Of(all, who), ShutdownSignal in all)
    {
      if e.Completed? && e.who == who {
        HandlerTold(y.views[who], Of(events, who), ShutdownSignal in events, e.handler);
      } else {
        assert Of(all, who) == Of(events, who) + [] == Of(events, who);
      }
    }
  }

  /**
   * The law of every run from the start: how many connections there are, whether each is closed or which of
   * its operations it waits for, and how many reads and writes it has started, as the events alone tell. A
   * finished request or a failed read starts one write, an unfinished one another read, a kept-alive answer
   * another read; any other write, a failure, the timer it waits with and a shutdown close it.
   */
  lemma {:induction false} RunTold(events: seq<Event>)
    requires Runnable(START, events)
    ensures AllTold(AfterAll(START, events), events)
    decreases |events|
  {
    if events == [] {
    } else {
      var n := |events| - 1;
      var init := events[..n];
      RunnableBefore(START, events);
      RunTold(init);
      RunSettles(START, init);
      StepTold(AfterAll(START, init), init, events[n], AfterAll(START, events), events);
    }
  }

  lemma RunnableBefore(y: System, events: seq<Event>)
    requires Runnable(y, events) && events != []
    ensures var n := |events| - 1; Runnable(y, events[..n]) && Possible(AfterAll(y, events[..n]), events[n])
  {
    var init := events[..|events| - 1];
    forall k | 0 <= k < |init|
      ensures Possible(AfterAll(y, init[..k]), init[k])
    {
      assert init[..k] == events[..k] && Possible(AfterAll(y, events[..k]), events[k]);
    }
  }

  /** An open connection has one operation in flight; each completion starts the next one or closes it. */
  lemma NextOperation(v: View, h: Handler)
    requires v.Settled() && CanHandle(v, h) && !v.state.Closed?
    ensures var z := Handled(v, h);
            match h
            case ReadDone(Bytes(INDETERMINATE, keepAlive)) =>
              z.listed && z.state.Reading? && z.pendingReads == 1 && z.pendingWrites == 0 && z.keepAlive == keepAlive
            case ReadDone(Bytes(_, keepAlive)) =>
              z.listed && z.state.Writing? && z.pendingReads == 0 && z.pendingWrites == 1 && z.keepAlive == keepAlive
            case ReadDone(_) => !z.listed && z.state.Closed? && z.pendingReads == 0 && z.pendingWrites == 1
            case WriteDone(r) =>
              if r.Written? && v.keepAlive
              then z.listed && z.state.Reading? && z.pendingReads == 1 && z.pendingWrites == 0
              else !z.listed && z.state.Closed? && z.pendingReads == 0 && z.pendingWrites == 0
            case TimerFired(waitingFor, aborted) =>
              if !aborted && waitingFor == v.state then !z.listed && z.state.Closed? else z == v
  {
  }

  /** The same of the objects: a new server after any run. */
  method ServeAll(events: seq<Event>) returns (server: Server)
    requires Runnable(START, events)
    ensures server.Valid() && |server.accepted| == Admitted(events)
    ensures forall i | 0 <= i < |server.accepted| ::
              Told(server.accepted[i].Seen(), Of(events, i), ShutdownSignal in events)
  {
    server := new Server();
    server.Run(events);
    RunTold(events);
    assert forall i | 0 <= i < |server.accepted| :: server.Seen(i);
  }
}
