/** The thread pool: workers, a shared queue, a mutex and a condition variable, one atomic step at a time. */
module ThreadPools {

  /** Where a worker is in its loop. */
  datatype Pc =
    | Top                  // about to lock the mutex
    | Locked               // holds the mutex, about to test the wait's predicate
    | Passed               // the predicate was true; still holds the mutex
    | AboutToWait          // the predicate was false; still holds the mutex
    | Waiting              // blocked on the condition variable, mutex released
    | Woken                // woken up, about to lock the mutex again
    | Running(task: nat)   // runs a task, mutex released
    | Exited

  datatype Mutex = Free | HeldBy(worker: nat)

  /**
   * The pool's fields, the workers, and the notifications still to be sent; and what has happened to
   * tasks so far: queued, taken off the queue, and finished.
   */
  datatype State = State(
    pcs: seq<Pc>, mutex: Mutex, tasks: seq<nat>, stop: bool, notifies: nat,
    enqueued: seq<nat>, started: seq<nat>, finished: seq<nat>)

  datatype Step =
    | Submit(task: nat)                    // a thread outside the pool enqueues
    | SubmitFrom(worker: nat, task: nat)   // a running task enqueues
    | NotifyOne(worker: nat)
    | NotifyNobody
    | Lock(worker: nat)
    | Test(worker: nat)
    | Block(worker: nat)
    | WakeSpuriously(worker: nat)
    | Take(worker: nat)
    | Finish(worker: nat)
    | SetStop
    | NotifyAll

  predicate At(s: State, w: nat, pc: Pc) {
    w < |s.pcs| && s.pcs[w] == pc
  }

  predicate Possible(s: State, t: Step) {
    match t
    case Submit(_) => s.mutex.Free? && !s.stop
    case SubmitFrom(w, _) => s.mutex.Free? && w < |s.pcs| && s.pcs[w].Running?
    case NotifyOne(w) => s.notifies > 0 && At(s, w, Waiting)
    case NotifyNobody => s.notifies > 0 && Waiting !in s.pcs
    case Lock(w) => s.mutex.Free? && (At(s, w, Top) || At(s, w, Woken))
    case Test(w) => At(s, w, Locked)
    case Block(w) => At(s, w, AboutToWait)
    case WakeSpuriously(w) => At(s, w, Waiting)
    case Take(w) => At(s, w, Passed) && (s.stop || s.tasks != [])
    case Finish(w) => w < |s.pcs| && s.pcs[w].Running?
    case SetStop => true
    case NotifyAll => s.stop
  }

  function Moved(s: State, w: nat, pc: Pc): State
    requires w < |s.pcs|
  {
    s.(pcs := s.pcs[w := pc])
  }

  function Pushed(s: State, task: nat): State {
    s.(tasks := s.tasks + [task], notifies := s.notifies + 1, enqueued := s.enqueued + [task])
  }

  function WokenPcs(pcs: seq<Pc>): (r: seq<Pc>)
    ensures |r| == |pcs|
  {
    seq(|pcs|, i requires 0 <= i < |pcs| => if pcs[i].Waiting? then Woken else pcs[i])
  }

  function After(s: State, t: Step): State
    requires Possible(s, t)
  {
    match t
    case Submit(task) => Pushed(s, task)
    case SubmitFrom(_, task) => Pushed(s, task)
    case NotifyOne(w) => Moved(s, w, Woken).(notifies := s.notifies - 1)
    case NotifyNobody => s.(notifies := s.notifies - 1)
    case Lock(w) => Moved(s, w, Locked).(mutex := HeldBy(w))
    case Test(w) => Moved(s, w, if s.stop || s.tasks != [] then Passed else AboutToWait)
    case Block(w) => Moved(s, w, Waiting).(mutex := Free)
    case WakeSpuriously(w) => Moved(s, w, Woken)
    case Take(w) =>
      if s.stop && s.tasks == [] then Moved(s, w, Exited).(mutex := Free)
      else Moved(s, w, Running(s.tasks[0])).(mutex := Free, tasks := s.tasks[1..], started := s.started + [s.tasks[0]])
    case Finish(w) => Moved(s, w, Top).(finished := s.finished + [s.pcs[w].task])
    case SetStop => s.(stop := true)
    case NotifyAll => s.(pcs := WokenPcs(s.pcs))
  }

  function Start(workers: nat): State {
    State(seq(workers, _ => Top), Free, [], false, 0, [], [], [])
  }

  // ---------- Counting workers ----------

  predicate Looking(pc: Pc) {
    pc.Top? || pc.Locked? || pc.Passed? || pc.Woken?
  }

  /** The workers that will test the queue before they wait. */
  function Lookers(pcs: seq<Pc>): nat {
    if pcs == [] then 0 else (if Looking(pcs[0]) then 1 else 0) + Lookers(pcs[1..])
  }

  function Task(pc: Pc): multiset<nat> {
    if pc.Running? then multiset{pc.task} else multiset{}
  }

  /** The tasks running now. */
  function RunningTasks(pcs: seq<Pc>): multiset<nat> {
    if pcs == [] then multiset{} else Task(pcs[0]) + RunningTasks(pcs[1..])
  }

  lemma {:induction false} LookersMove(pcs: seq<Pc>, w: nat, pc: Pc)
    requires w < |pcs|
    ensures Lookers(pcs[w := pc]) == Lookers(pcs) - (if Looking(pcs[w]) then 1 else 0) + (if Looking(pc) then 1 else 0)
  {
    var q := pcs[w := pc];
    if w == 0 {
      assert q[1..] == pcs[1..];
    } else {
      assert q[0] == pcs[0] && q[1..] == pcs[1..][w - 1 := pc];
      LookersMove(pcs[1..], w - 1, pc);
    }
  }

  lemma {:induction false} RunningMove(pcs: seq<Pc>, w: nat, pc: Pc)
    requires w < |pcs|
    ensures RunningTasks(pcs[w := pc]) + Task(pcs[w]) == RunningTasks(pcs) + Task(pc)
  {
    var q := pcs[w := pc];
    assert RunningTasks(q) == Task(q[0]) + RunningTasks(q[1..]);
    if w == 0 {
      assert q[1..] == pcs[1..];
      Swap(Task(pc), RunningTasks(pcs[1..]), Task(pcs[0]));
    } else {
      assert q[0] == pcs[0] && q[1..] == pcs[1..][w - 1 := pc];
      RunningMove(pcs[1..], w - 1, pc);
      Under(Task(pcs[0]), RunningTasks(q[1..]), Task(pcs[w]), RunningTasks(pcs[1..]), Task(pc));
    }
  }

  lemma Swap(a: multiset<nat>, b: multiset<nat>, c: multiset<nat>)
    ensures (a + b) + c == (c + b) + a
  {
  }

  lemma Under(a: multiset<nat>, b: multiset<nat>, c: multiset<nat>, d: multiset<nat>, e: multiset<nat>)
    requires b + c == d + e
    ensures (a + b) + c == (a + d) + e
  {
    assert (a + b) + c == a + (b + c);
    assert (a + d) + e == a + (d + e);
  }

  lemma {:induction false} CountsWake(pcs: seq<Pc>)
    ensures Lookers(WokenPcs(pcs)) >= Lookers(pcs)
    ensures RunningTasks(WokenPcs(pcs)) == RunningTasks(pcs)
  {
    if pcs == [] {
    } else {
      assert WokenPcs(pcs)[1..] == WokenPcs(pcs[1..]);
      CountsWake(pcs[1..]);
    }
  }

  lemma {:induction false} SomeLooker(pcs: seq<Pc>) returns (w: nat)
    requires Lookers(pcs) > 0
    ensures w < |pcs| && Looking(pcs[w])
  {
    if Looking(pcs[0]) {
      w := 0;
    } else {
      var v := SomeLooker(pcs[1..]);
      w := v + 1;
    }
  }

  // ---------- The invariant ----------

  predicate HoldsMutex(pc: Pc) {
    pc.Locked? || pc.Passed? || pc.AboutToWait?
  }

  ghost predicate WorkersSound(s: State) {
    forall w {:trigger s.pcs[w]} | 0 <= w < |s.pcs| ::
      && (HoldsMutex(s.pcs[w]) <==> s.mutex == HeldBy(w))
      && (s.pcs[w].Passed? ==> s.stop || s.tasks != [])
      && (s.pcs[w].AboutToWait? ==> s.tasks == [])
      && (s.pcs[w].Exited? ==> s.stop)
  }

  /** Tasks leave the queue in the order they came, and each taken task is running or finished, once. */
  ghost predicate BooksBalance(s: State) {
    && s.started + s.tasks == s.enqueued
    && multiset(s.finished) + RunningTasks(s.pcs) == multiset(s.started)
  }

  /** No enqueue's wake-up is lost: a queued task has a notification under way or a worker coming for it. */
  ghost predicate WakeUpsSuffice(s: State) {
    Waiting in s.pcs ==> |s.tasks| <= s.notifies + Lookers(s.pcs)
  }

  ghost predicate Inv(s: State) {
    && s.pcs != []
    && WorkersSound(s)
    && (s.mutex.HeldBy? ==> s.mutex.worker < |s.pcs|)
    && ((forall w {:trigger s.pcs[w]} | 0 <= w < |s.pcs| :: s.pcs[w].Exited?) ==> s.tasks == [])
    && BooksBalance(s)
    && WakeUpsSuffice(s)
  }

  lemma StartSound(workers: nat)
    requires workers > 0
    ensures Inv(Start(workers))
  {
    NobodyRuns(Start(workers).pcs);
  }

  lemma {:induction false} NobodyRuns(pcs: seq<Pc>)
    requires forall w | 0 <= w < |pcs| :: !pcs[w].Running?
    ensures RunningTasks(pcs) == multiset{}
  {
    if pcs == [] {
    } else {
      NobodyRuns(pcs[1..]);
    }
  }

  /** A worker that neither starts nor finishes a task leaves the books alone. */
  lemma BooksUnmoved(s: State, s': State, w: nat, pc: Pc)
    requires BooksBalance(s) && w < |s.pcs| && s'.pcs == s.pcs[w := pc] && !s.pcs[w].Running? && !pc.Running?
    requires s'.started == s.started && s'.tasks == s.tasks && s'.enqueued == s.enqueued && s'.finished == s.finished
    ensures BooksBalance(s')
  {
    RunningMove(s.pcs, w, pc);
    assert RunningTasks(s'.pcs) + multiset{} == RunningTasks(s'.pcs);
    assert RunningTasks(s.pcs) + multiset{} == RunningTasks(s.pcs);
  }

  lemma BooksTake(s: State, w: nat)
    requires BooksBalance(s) && At(s, w, Passed) && s.tasks != []
    ensures BooksBalance(After(s, Take(w)))
  {
    var s' := After(s, Take(w));
    if !s'.pcs[w].Exited? {
      var task := s.tasks[0];
      RunningMove(s.pcs, w, Running(task));
      assert s.tasks == [task] + s'.tasks;
      assert s'.started + s'.tasks == s.started + s.tasks;
      MovesOver(multiset(s.finished), RunningTasks(s.pcs), RunningTasks(s'.pcs), multiset(s.started), task);
      assert multiset(s'.started) == multiset(s.started) + multiset{task};
    } else {
      BooksUnmoved(s, s', w, Exited);
    }
  }

  lemma MovesOver(f: multiset<nat>, r: multiset<nat>, r': multiset<nat>, t: multiset<nat>, task: nat)
    requires f + r == t && r' + multiset{} == r + multiset{task}
    ensures f + r' == t + multiset{task}
  {
    assert r' == r + multiset{task};
  }

  lemma BooksFinish(s: State, w: nat)
    requires BooksBalance(s) && w < |s.pcs| && s.pcs[w].Running?
    ensures BooksBalance(After(s, Finish(w)))
  {
    var s' := After(s, Finish(w));
    var task := s.pcs[w].task;
    RunningMove(s.pcs, w, Top);
    Finishes(multiset(s.finished), RunningTasks(s.pcs), RunningTasks(s'.pcs), task);
    assert multiset(s'.finished) == multiset(s.finished) + multiset{task};
  }

  lemma Finishes(f: multiset<nat>, r: multiset<nat>, r': multiset<nat>, task: nat)
    requires r' + multiset{task} == r + multiset{}
    ensures (f + multiset{task}) + r' == f + r
  {
    assert r == r' + multiset{task};
  }

  /** A worker past the wait can always go on: it takes the front of the queue only when there is one. */
  lemma TakeIsSafe(s: State, w: nat)
    requires Inv(s) && At(s, w, Passed)
    ensures Possible(s, Take(w))
  {
  }

  lemma EnqueueKeeps(s: State, t: Step)
    requires Inv(s) && Possible(s, t) && (t.Submit? || t.SubmitFrom?)
    ensures Inv(After(s, t))
  {
    var s' := After(s, t);
    assert s'.started + s'.tasks == s'.enqueued;
    assert !s.stop ==> !s.pcs[0].Exited?;
  }

  /** A wake-up of worker `w`, by a notification or not. */
  lemma WakeKeeps(s: State, w: nat, left: nat)
    requires Inv(s) && At(s, w, Waiting) && s.notifies <= left + 1
    ensures Inv(Moved(s, w, Woken).(notifies := left))
  {
    var s' := Moved(s, w, Woken).(notifies := left);
    BooksUnmoved(s, s', w, Woken);
    assert s.pcs[w] == Waiting && Waiting in s.pcs;
    LookersMove(s.pcs, w, Woken);
    assert WakeUpsSuffice(s');
    assert WorkersSound(s');
    assert s'.pcs[w] == Woken && !s'.pcs[w].Exited?;
  }

  lemma LockKeeps(s: State, w: nat)
    requires Inv(s) && Possible(s, Lock(w))
    ensures Inv(After(s, Lock(w)))
  {
    var s' := After(s, Lock(w));
    BooksUnmoved(s, s', w, Locked);
    LookersMove(s.pcs, w, Locked);
    assert s'.pcs[w] == Locked;
  }

  lemma TestKeeps(s: State, w: nat)
    requires Inv(s) && Possible(s, Test(w))
    ensures Inv(After(s, Test(w)))
  {
    var s' := After(s, Test(w));
    BooksUnmoved(s, s', w, s'.pcs[w]);
    LookersMove(s.pcs, w, s'.pcs[w]);
    assert !s'.pcs[w].Exited?;
  }

  lemma BlockKeeps(s: State, w: nat)
    requires Inv(s) && Possible(s, Block(w))
    ensures Inv(After(s, Block(w)))
  {
    var s' := After(s, Block(w));
    BooksUnmoved(s, s', w, Waiting);
    assert s'.pcs[w] == Waiting;
  }

  lemma TakeKeeps(s: State, w: nat)
    requires Inv(s) && Possible(s, Take(w)) && s.tasks != []
    ensures Inv(After(s, Take(w)))
  {
    var s' := After(s, Take(w));
    LookersMove(s.pcs, w, s'.pcs[w]);
    BooksTake(s, w);
    assert s'.pcs[w].Running?;
  }

  lemma ExitKeeps(s: State, w: nat)
    requires Inv(s) && Possible(s, Take(w)) && s.tasks == []
    ensures Inv(After(s, Take(w)))
  {
    var s' := After(s, Take(w));
    LookersMove(s.pcs, w, Exited);
    BooksUnmoved(s, s', w, Exited);
  }

  lemma FinishKeeps(s: State, w: nat)
    requires Inv(s) && Possible(s, Finish(w))
    ensures Inv(After(s, Finish(w)))
  {
    var s' := After(s, Finish(w));
    BooksFinish(s, w);
    LookersMove(s.pcs, w, Top);
    assert s'.pcs[w] == Top;
  }

  lemma StopKeeps(s: State, t: Step)
    requires Inv(s) && Possible(s, t) && (t.SetStop? || t.NotifyAll?)
    ensures Inv(After(s, t))
  {
    CountsWake(s.pcs);
    var s' := After(s, t);
    forall w | 0 <= w < |s.pcs|
      ensures s'.pcs[w] == s.pcs[w] || (s.pcs[w].Waiting? && s'.pcs[w].Woken?)
    {
    }
  }

  /** Every step of every thread keeps the invariant. */
  lemma StepKeeps(s: State, t: Step)
    requires Inv(s) && Possible(s, t)
    ensures Inv(After(s, t))
  {
    match t
    case Submit(_) => EnqueueKeeps(s, t);
    case SubmitFrom(_, _) => EnqueueKeeps(s, t);
    case NotifyOne(w) => WakeKeeps(s, w, s.notifies - 1);
    case NotifyNobody =>
    case WakeSpuriously(w) => WakeKeeps(s, w, s.notifies);
    case Lock(w) => LockKeeps(s, w);
    case Test(w) => TestKeeps(s, w);
    case Block(w) => BlockKeeps(s, w);
    case Take(w) =>
      if s.tasks != [] {
        TakeKeeps(s, w);
      } else {
        ExitKeeps(s, w);
      }
    case Finish(w) => FinishKeeps(s, w);
    case SetStop => StopKeeps(s, t);
    case NotifyAll => StopKeeps(s, t);
  }

  // ---------- Whole runs ----------

  /** Any interleaving of the threads; steps that cannot happen when their turn comes are passed over. */
  function AfterAll(s: State, steps: seq<Step>): State
    decreases |steps|
  {
    if steps == [] then s
    else
      var n := |steps| - 1;
      var z := AfterAll(s, steps[..n]);
      if Possible(z, steps[n]) then After(z, steps[n]) else z
  }

  lemma {:induction false} RunKeeps(s: State, steps: seq<Step>)
    requires Inv(s)
    ensures Inv(AfterAll(s, steps))
    decreases |steps|
  {
    if steps == [] {
    } else {
      var n := |steps| - 1;
      RunKeeps(s, steps[..n]);
      var z := AfterAll(s, steps[..n]);
      if Possible(z, steps[n]) {
        StepKeeps(z, steps[n]);
      }
    }
  }

  predicate Awake(pc: Pc) {
    !pc.Waiting? && !pc.Exited?
  }

  /**
   * Tasks have left the queue in the order they were enqueued, none twice; before stop, a queued task has
   * an awake worker or a notification under way; if all workers have exited, every enqueued task has run to
   * its end exactly once.
   */
  ghost predicate Sound(s: State) {
    && s.started <= s.enqueued
    && multiset(s.finished) <= multiset(s.started)
    && (s.tasks != [] && !s.stop ==> s.notifies > 0 || exists pc | pc in s.pcs :: Awake(pc))
    && ((forall pc | pc in s.pcs :: pc.Exited?) ==>
          s.started == s.enqueued && multiset(s.finished) == multiset(s.enqueued))
  }

  /** Every interleaving with at least one worker is sound. */
  lemma RunIsSound(workers: nat, steps: seq<Step>)
    requires workers > 0
    ensures Sound(AfterAll(Start(workers), steps))
  {
    StartSound(workers);
    RunKeeps(Start(workers), steps);
    InvIsSound(AfterAll(Start(workers), steps));
  }

  lemma InvIsSound(s: State)
    requires Inv(s)
    ensures Sound(s)
  {
    if s.tasks != [] && !s.stop && s.notifies == 0 {
      var w := WhoIsAwake(s);
      assert s.pcs[w] in s.pcs;
    }
    if forall pc | pc in s.pcs :: pc.Exited? {
      forall w | 0 <= w < |s.pcs|
        ensures s.pcs[w].Exited?
      {
        assert s.pcs[w] in s.pcs;
      }
      NobodyRuns(s.pcs);
      assert s.started + [] == s.started;
    }
  }

  lemma WhoIsAwake(s: State) returns (w: nat)
    requires Inv(s) && s.tasks != [] && s.notifies == 0
    ensures w < |s.pcs| && Awake(s.pcs[w])
  {
    if Waiting in s.pcs {
      w := SomeLooker(s.pcs);
    } else {
      w :| w < |s.pcs| && !s.pcs[w].Exited?;
      assert s.pcs[w] in s.pcs;
    }
  }

  /** Histories only grow: what was enqueued, started or finished stays so, in the same order. */
  lemma {:induction false} HistoryGrows(s: State, steps: seq<Step>)
    ensures var r := AfterAll(s, steps);
            s.enqueued <= r.enqueued && s.started <= r.started && s.finished <= r.finished && (s.stop ==> r.stop)
    decreases |steps|
  {
    if steps == [] {
    } else {
      var n := |steps| - 1;
      HistoryGrows(s, steps[..n]);
      var z := AfterAll(s, steps[..n]);
      if Possible(z, steps[n]) {
        StepGrows(z, steps[n]);
      }
    }
  }

  lemma StepGrows(s: State, t: Step)
    requires Possible(s, t)
    ensures var r := After(s, t);
            s.enqueued <= r.enqueued && s.started <= r.started && s.finished <= r.finished && (s.stop ==> r.stop)
  {
  }

  /** A step of the pool itself: not a new task, not the destructor, and not a spurious wake-up. */
  predicate Internal(t: Step) {
    t.NotifyOne? || t.NotifyNobody? || t.Lock? || t.Test? || t.Block? || t.Take? || t.Finish?
  }

  /** While a task is queued the pool can always go on by itself. */
  lemma CanGoOn(s: State) returns (t: Step)
    requires Inv(s) && s.tasks != []
    ensures Internal(t) && Possible(s, t)
  {
    if s.mutex.HeldBy? {
      var w := s.mutex.worker;
      t := if s.pcs[w].Locked? then Test(w) else if s.pcs[w].Passed? then Take(w) else Block(w);
    } else if s.notifies > 0 {
      if Waiting in s.pcs {
        var w :| 0 <= w < |s.pcs| && s.pcs[w] == Waiting;
        t := NotifyOne(w);
      } else {
        t := NotifyNobody;
      }
    } else {
      var w := WhoIsAwake(s);
      t := if s.pcs[w].Running? then Finish(w) else Lock(w);
    }
  }

  // ---------- Stopping ----------

  /** Stopped, with nobody blocked or about to block. */
  ghost predicate Calm(s: State) {
    s.stop && forall w {:trigger s.pcs[w]} | 0 <= w < |s.pcs| :: !s.pcs[w].Waiting? && !s.pcs[w].AboutToWait?
  }

  lemma {:induction false} CalmStays(s: State, steps: seq<Step>)
    requires Calm(s)
    ensures Calm(AfterAll(s, steps))
    decreases |steps|
  {
    if steps == [] {
    } else {
      CalmStays(s, steps[..|steps| - 1]);
    }
  }

  lemma {:induction false} RunsJoin(s: State, a: seq<Step>, b: seq<Step>)
    ensures AfterAll(s, a + b) == AfterAll(AfterAll(s, a), b)
    decreases |b|
  {
    if b == [] {
      assert a + b == a;
    } else {
      var n := |b| - 1;
      assert (a + b)[..|a + b| - 1] == a + b[..n] && (a + b)[|a + b| - 1] == b[n];
      RunsJoin(s, a, b[..n]);
    }
  }

  /** Neither a new task nor a spurious wake-up, nor a second notification from the destructor. */
  predicate Plain(steps: seq<Step>) {
    forall t | t in steps :: !t.Submit? && !t.SubmitFrom? && !t.WakeSpuriously? && !t.NotifyAll?
  }

  /** No plain run ever wakes the worker again, so the destructor waits for it in vain. */
  ghost predicate Stranded(s: State, w: nat) {
    forall steps | Plain(steps) :: At(AfterAll(s, steps), w, Waiting)
  }

  lemma StillWaits(s: State, w: nat, t: Step)
    requires s.notifies == 0 && At(s, w, Waiting) && Plain([t]) && Possible(s, t)
    ensures After(s, t).notifies == 0 && At(After(s, t), w, Waiting)
  {
    assert t in [t];
  }

  lemma {:induction false} WaitsOn(s: State, w: nat, steps: seq<Step>)
    requires s.notifies == 0 && At(s, w, Waiting) && Plain(steps)
    ensures AfterAll(s, steps).notifies == 0 && At(AfterAll(s, steps), w, Waiting)
    decreases |steps|
  {
    if steps == [] {
    } else {
      var n := |steps| - 1;
      assert steps[n] in steps && forall t | t in steps[..n] :: t in steps;
      WaitsOn(s, w, steps[..n]);
      var z := AfterAll(s, steps[..n]);
      if Possible(z, steps[n]) {
        StillWaits(z, w, steps[n]);
      }
    }
  }

  /** With nobody waiting, notifications can all be sent to nobody. */
  lemma {:induction false} Drain(s: State, n: nat) returns (steps: seq<Step>)
    requires Waiting !in s.pcs && n <= s.notifies
    ensures Plain(steps) && AfterAll(s, steps) == s.(notifies := s.notifies - n)
  {
    steps := [];
    if n > 0 {
      var before := Drain(s, n - 1);
      steps := before + [NotifyNobody];
      assert steps[..|steps| - 1] == before;
    }
  }

  /** The worker about to wait blocks once the notifications are spent, and is stranded. */
  lemma BlocksForGood(s: State, w: nat) returns (steps: seq<Step>)
    requires Waiting !in s.pcs && At(s, w, AboutToWait)
    ensures Plain(steps) && Stranded(AfterAll(s, steps), w)
  {
    var before := Drain(s, s.notifies);
    steps := before + [Block(w)];
    assert steps[..|steps| - 1] == before;
    var end := AfterAll(s, steps);
    forall more | Plain(more)
      ensures At(AfterAll(end, more), w, Waiting)
    {
      WaitsOn(end, w, more);
    }
  }

  /** Some plain run strands a worker. */
  ghost predicate CanStrand(s: State) {
    exists steps, w :: Plain(steps) && Stranded(AfterAll(s, steps), w)
  }

  /**
   * The destructor sets `stop` without the mutex, so its notification can fall between a worker's test and
   * its wait: the notification can be missed for good exactly when a worker is in between.
   */
  lemma StopCanBeMissed(s: State)
    requires s.stop
    ensures CanStrand(After(s, NotifyAll)) <==> AboutToWait in s.pcs
  {
    var s' := After(s, NotifyAll);
    assert forall w | 0 <= w < |s.pcs| :: s'.pcs[w] == if s.pcs[w].Waiting? then Woken else s.pcs[w];
    if AboutToWait in s.pcs {
      var w :| 0 <= w < |s.pcs| && s.pcs[w] == AboutToWait;
      var steps := BlocksForGood(s', w);
    } else {
      forall w | 0 <= w < |s'.pcs|
        ensures !s'.pcs[w].Waiting? && !s'.pcs[w].AboutToWait?
      {
        assert s.pcs[w] in s.pcs;
      }
      forall steps, w: nat | Plain(steps)
        ensures !Stranded(AfterAll(s', steps), w)
      {
        CalmStays(s', steps);
        assert AfterAll(AfterAll(s', steps), []) == AfterAll(s', steps);
        assert Plain([]);
      }
    }
  }

  /** The worker tests, and the destructor sets `stop` before the worker waits. */
  lemma StoppedInBetween() returns (steps: seq<Step>)
    ensures steps == [Lock(0), Test(0), SetStop]
    ensures AfterAll(Start(1), steps) == State([AboutToWait], HeldBy(0), [], true, 0, [], [], [])
  {
    var s := Start(1);
    var locked := s.(pcs := [Locked], mutex := HeldBy(0));
    var tested := locked.(pcs := [AboutToWait]);
    steps := OneMore(s, [], Lock(0), s, locked);
    steps := OneMore(s, steps, Test(0), locked, tested);
    steps := OneMore(s, steps, SetStop, tested, tested.(stop := true));
  }

  lemma ThenBlocked() returns (steps: seq<Step>)
    ensures steps == [Lock(0), Test(0), SetStop, NotifyAll, Block(0)]
    ensures AfterAll(Start(1), steps) == State([Waiting], Free, [], true, 0, [], [], [])
  {
    steps := StoppedInBetween();
    var stopped := State([AboutToWait], HeldBy(0), [], true, 0, [], [], []);
    assert WokenPcs([AboutToWait]) == [AboutToWait];
    steps := OneMore(Start(1), steps, NotifyAll, stopped, stopped);
    steps := OneMore(Start(1), steps, Block(0), stopped, stopped.(pcs := [Waiting], mutex := Free));
  }

  /** A run from the start that ends so: one worker waits, nothing is left to notify it, and it is stranded. */
  lemma MissedFromStart() returns (steps: seq<Step>)
    ensures steps == [Lock(0), Test(0), SetStop, NotifyAll, Block(0)]
    ensures var s := AfterAll(Start(1), steps);
            && s.pcs == [Waiting] && s.stop && s.notifies == 0
            && (forall t | Internal(t) :: !Possible(s, t))
            && Stranded(s, 0)
  {
    steps := ThenBlocked();
    var end := AfterAll(Start(1), steps);
    forall more | Plain(more)
      ensures At(AfterAll(end, more), 0, Waiting)
    {
      WaitsOn(end, 0, more);
    }
  }

  lemma OneMore(s: State, before: seq<Step>, t: Step, z: State, r: State) returns (steps: seq<Step>)
    requires AfterAll(s, before) == z && Possible(z, t) && After(z, t) == r
    ensures steps == before + [t] && AfterAll(s, steps) == r
  {
    steps := before + [t];
    assert steps[..|before|] == before;
  }

  // ---------- The pool, step by step in place ----------

  class ThreadPool {
    var tasks: seq<nat>
    var stop: bool
    var mutex: Mutex
    /** Notifications still to be sent by threads that have enqueued. */
    var notifies: nat
    /** Each worker's place in its loop. */
    var pcs: seq<Pc>
    ghost var enqueued: seq<nat>
    ghost var started: seq<nat>
    ghost var finished: seq<nat>

    ghost function Now(): State
      reads this
    {
      State(pcs, mutex, tasks, stop, notifies, enqueued, started, finished)
    }

    constructor (workers: nat)
      ensures Now() == Start(workers)
    {
      pcs := seq(workers, _ => Top);
      mutex, tasks, stop, notifies := Free, [], false, 0;
      enqueued, started, finished := [], [], [];
    }

    /** Under the mutex the task is queued; the notification follows. */
    method Enqueue(task: nat)
      requires mutex.Free?
      modifies this
      ensures Now() == Pushed(old(Now()), task)
    {
      tasks := tasks + [task];
      notifies := notifies + 1;
      enqueued := enqueued + [task];
    }

    /** Wakes the worker that the condition variable chooses. */
    method NotifyOne(w: nat)
      requires Possible(Now(), Step.NotifyOne(w))
      modifies this
      ensures Now() == After(old(Now()), Step.NotifyOne(w))
    {
      notifies := notifies - 1;
      pcs := pcs[w := Woken];
    }

    method NotifyNobody()
      requires Possible(Now(), Step.NotifyNobody)
      modifies this
      ensures Now() == After(old(Now()), Step.NotifyNobody)
    {
      notifies := notifies - 1;
    }

    method LockMutex(w: nat)
      requires Possible(Now(), Lock(w))
      modifies this
      ensures Now() == After(old(Now()), Lock(w))
    {
      mutex := HeldBy(w);
      pcs := pcs[w := Locked];
    }

    /** The wait's predicate, under the mutex. */
    method TestPredicate(w: nat)
      requires Possible(Now(), Test(w))
      modifies this
      ensures Now() == After(old(Now()), Test(w))
    {
      if stop || tasks != [] {
        pcs := pcs[w := Passed];
      } else {
        pcs := pcs[w := AboutToWait];
      }
    }

    /** Blocks and releases the mutex in one step. */
    method BlockWorker(w: nat)
      requires Possible(Now(), Block(w))
      modifies this
      ensures Now() == After(old(Now()), Block(w))
    {
      pcs := pcs[w := Waiting];
      mutex := Free;
    }

    method WakeWorker(w: nat)
      requires Possible(Now(), WakeSpuriously(w))
      modifies this
      ensures Now() == After(old(Now()), WakeSpuriously(w))
    {
      pcs := pcs[w := Woken];
    }

    /** Behind the wait: exit when stopping with nothing queued, or take the front of the queue. */
    method TakeOrExit(w: nat)
      requires Possible(Now(), Take(w))
      modifies this
      ensures Now() == After(old(Now()), Take(w))
    {
      if stop && tasks == [] {
        pcs := pcs[w := Exited];
      } else {
        var task := tasks[0];
        tasks := tasks[1..];
        pcs := pcs[w := Running(task)];
        started := started + [task];
      }
      mutex := Free;
    }

    method FinishTask(w: nat)
      requires Possible(Now(), Finish(w))
      modifies this
      ensures Now() == After(old(Now()), Finish(w))
    {
      finished := finished + [pcs[w].task];
      pcs := pcs[w := Top];
    }

    method SetStop()
      modifies this
      ensures Now() == After(old(Now()), Step.SetStop)
    {
      stop := true;
    }

    method NotifyAll()
      requires stop
      modifies this
      ensures Now() == After(old(Now()), Step.NotifyAll)
    {
      pcs := WokenPcs(pcs);
    }

    method Do(t: Step)
      requires Possible(Now(), t)
      modifies this
      ensures Now() == After(old(Now()), t)
    {
      match t
      case Submit(task) => Enqueue(task);
      case SubmitFrom(_, task) => Enqueue(task);
      case NotifyOne(w) => NotifyOne(w);
      case NotifyNobody => NotifyNobody();
      case Lock(w) => LockMutex(w);
      case Test(w) => TestPredicate(w);
      case Block(w) => BlockWorker(w);
      case WakeSpuriously(w) => WakeWorker(w);
      case Take(w) => TakeOrExit(w);
      case Finish(w) => FinishTask(w);
      case SetStop => SetStop();
      case NotifyAll => NotifyAll();
    }

    /** Any interleaving: the pool's fields go through the states of the run. */
    method Run(steps: seq<Step>)
      modifies this
      ensures Now() == AfterAll(old(Now()), steps)
      ensures |old(pcs)| > 0 && old(Now()) == Start(|old(pcs)|) ==> Sound(Now())
    {
      for i := 0 to |steps|
        invariant Now() == AfterAll(old(Now()), steps[..i])
      {
        assert steps[..i + 1][..i] == steps[..i];
        var t := steps[i];
        if Possible(State(pcs, mutex, tasks, stop, notifies, [], [], []), t) {
          Do(t);
        }
      }
      assert steps[..|steps|] == steps;
      if |old(pcs)| > 0 && old(Now()) == Start(|old(pcs)|) {
        RunIsSound(|old(pcs)|, steps);
      }
    }
  }
}
