/** libuv's thread pool as a system of atomic steps: a step is what one thread does while it holds the pool's
    mutex, or one hand-over outside it (src/threadpool.c). */
module ThreadPool {

  import opened Sequences

  datatype Item = Work(id: nat) | SlowMessage | ExitMessage

  /** Where a worker thread is. `Looking` holds the mutex at the head of its loop; `Woken` has been signalled, or
      woke by itself, and must take the mutex again; `Finished` has handed its request back and is about to. */
  datatype Worker = Starting | Waiting | Woken | Looking | Running(id: nat, slow: bool) | Finished(slow: bool) | Exited

  datatype Status = Succeeded | Canceled

  /** Where a request is. `Removed` lies between the two locked regions of a cancellation. */
  datatype Phase =
    | Queued | Executing(worker: nat) | Removed | InLoop(canceled: bool) | Draining(canceled: bool) | Done(canceled: bool)

  /** `ran` counts how often the work callback was started, `statuses` what the done callback was called with. */
  datatype Request = Request(slow: bool, loop: nat, phase: Phase, ran: nat, statuses: seq<Status>)

  datatype Pool = Pool(workers: seq<Worker>, mutex: Option<nat>, idle: int, slowRunning: int,
                       wq: seq<Item>, slowPending: seq<nat>, reqs: map<nat, Request>)

  datatype Action =
    | Submit(id: nat, slow: bool, loop: nat, wake: nat)
    | PostExit(wake: nat)
    | WakeUp(i: nat)
    | Lock(i: nat)
    | Look(i: nat, wake: nat)
    | Report(i: nat)
    | CancelRemove(id: nat)
    | CancelInsert(id: nat)
    | Drain(loop: nat)
    | Deliver(id: nat)

  function Threshold(p: Pool): nat {
    (|p.workers| + 1) / 2
  }

  /** The condition of the worker's wait loop. */
  predicate MustWait(p: Pool) {
    p.wq == [] || (p.wq == [SlowMessage] && p.slowRunning >= Threshold(p))
  }

  predicate SomeoneWaits(ws: seq<Worker>) {
    exists i :: 0 <= i < |ws| && ws[i].Waiting?
  }

  /** uv_cond_signal wakes one waiting thread if there is one; which one is up to the system. */
  predicate CanWake(ws: seq<Worker>, wake: nat) {
    SomeoneWaits(ws) ==> wake < |ws| && ws[wake].Waiting?
  }

  function Signal(ws: seq<Worker>, wake: nat): (r: seq<Worker>)
    ensures |r| == |ws|
  {
    if wake < |ws| && ws[wake].Waiting? then ws[wake := Woken] else ws
  }

  function SignalIfIdle(p: Pool, wake: nat): seq<Worker> {
    if p.idle > 0 then Signal(p.workers, wake) else p.workers
  }

  // ----- steps ---------------------------------------------------------------------------------------------

  /** uv__work_submit and post. */
  function SubmitStep(p: Pool, id: nat, slow: bool, loop: nat, wake: nat): Pool {
    var reqs := p.reqs[id := Request(slow, loop, Queued, 0, [])];
    if slow then
      var pending := p.slowPending + [id];
      if SlowMessage in p.wq then p.(slowPending := pending, reqs := reqs)
      else p.(slowPending := pending, reqs := reqs, wq := p.wq + [SlowMessage], workers := SignalIfIdle(p, wake))
    else p.(reqs := reqs, wq := p.wq + [Work(id)], workers := SignalIfIdle(p, wake))
  }

  /** A worker takes the mutex: at its start, back from the wait, or after a request. */
  function LockStep(p: Pool, i: nat): Pool
    requires i < |p.workers|
  {
    var w := p.workers[i];
    p.(mutex := Some(i), workers := p.workers[i := Looking],
       idle := if w.Woken? then p.idle - 1 else p.idle,
       slowRunning := if w == Finished(true) then p.slowRunning - 1 else p.slowRunning)
  }

  function Start(p: Pool, i: nat, id: nat, slow: bool): Pool
    requires i < |p.workers| && id in p.reqs
  {
    var r := p.reqs[id];
    p.(mutex := None, workers := p.workers[i := Running(id, slow)],
       reqs := p.reqs[id := r.(phase := Executing(i), ran := r.ran + 1)])
  }

  /** One turn of the worker's loop. */
  function LookStep(p: Pool, i: nat, wake: nat): Pool
    requires i < |p.workers|
    requires forall id :: Work(id) in p.wq || id in p.slowPending ==> id in p.reqs
  {
    if MustWait(p) then p.(idle := p.idle + 1, workers := p.workers[i := Waiting], mutex := None)
    else
      var q, rest := p.wq[0], p.wq[1..];
      assert q in p.wq;
      match q
      case ExitMessage => p.(workers := Signal(p.workers, wake)[i := Exited], mutex := None)
      case Work(id) => Start(p.(wq := rest), i, id, false)
      case SlowMessage =>
        if p.slowRunning >= Threshold(p) then p.(wq := rest + [SlowMessage])
        else if p.slowPending == [] then p.(wq := rest)
        else
          var id, more := p.slowPending[0], p.slowPending[1..];
          assert id in p.slowPending;
          var p1 := p.(wq := rest, slowPending := more, slowRunning := p.slowRunning + 1);
          var p2 := if more == [] then p1 else p1.(wq := rest + [SlowMessage], workers := SignalIfIdle(p, wake));
          Start(p2, i, id, true)
  }

  /** The worker hands the finished request to its loop, under the loop's own mutex. */
  function ReportStep(p: Pool, i: nat): Pool
    requires i < |p.workers| && p.workers[i].Running? && p.workers[i].id in p.reqs
  {
    var id, slow := p.workers[i].id, p.workers[i].slow;
    p.(workers := p.workers[i := Finished(slow)], reqs := p.reqs[id := p.reqs[id].(phase := InLoop(false))])
  }

  /** Linked in some queue, with its work callback not yet cleared. */
  predicate Cancellable(r: Request) {
    r.phase.Queued? || r.phase == InLoop(true) || r.phase == Draining(true)
  }

  function CancelStep(p: Pool, id: nat): Pool
    requires id in p.reqs
  {
    p.(wq := Without(p.wq, Work(id)), slowPending := Without(p.slowPending, id),
       reqs := p.reqs[id := p.reqs[id].(phase := Removed)])
  }

  ghost predicate Step(p: Pool, a: Action, p': Pool) {
    match a
    case Submit(id, slow, loop, wake) =>
      p.mutex.None? && id !in p.reqs && CanWake(p.workers, wake) && p' == SubmitStep(p, id, slow, loop, wake)
    case PostExit(wake) =>
      && p.mutex.None? && ExitMessage !in p.wq && CanWake(p.workers, wake)
      && p' == p.(wq := p.wq + [ExitMessage], workers := SignalIfIdle(p, wake))
    case WakeUp(i) => i < |p.workers| && p.workers[i].Waiting? && p' == p.(workers := p.workers[i := Woken])
    case Lock(i) =>
      && p.mutex.None? && i < |p.workers|
      && (p.workers[i].Starting? || p.workers[i].Woken? || p.workers[i].Finished?)
      && p' == LockStep(p, i)
    case Look(i, wake) =>
      && p.mutex == Some(i) && i < |p.workers| && CanWake(p.workers, wake)
      && (forall id :: Work(id) in p.wq || id in p.slowPending ==> id in p.reqs)
      && p' == LookStep(p, i, wake)
    case Report(i) =>
      i < |p.workers| && p.workers[i].Running? && p.workers[i].id in p.reqs && p' == ReportStep(p, i)
    case CancelRemove(id) => p.mutex.None? && id in p.reqs && Cancellable(p.reqs[id]) && p' == CancelStep(p, id)
    case CancelInsert(id) =>
      id in p.reqs && p.reqs[id].phase.Removed? && p' == p.(reqs := p.reqs[id := p.reqs[id].(phase := InLoop(true))])
    case Drain(loop) =>
      p' == p.(reqs := map id | id in p.reqs ::
                 if p.reqs[id].loop == loop && p.reqs[id].phase.InLoop? then
                   p.reqs[id].(phase := Draining(p.reqs[id].phase.canceled))
                 else p.reqs[id])
    case Deliver(id) =>
      && id in p.reqs && p.reqs[id].phase.Draining?
      && var c := p.reqs[id].phase.canceled;
         p' == p.(reqs := p.reqs[id := p.reqs[id].(phase := Done(c),
                    statuses := p.reqs[id].statuses + [if c then Canceled else Succeeded])])
  }

  ghost predicate Init(p: Pool) {
    && |p.workers| >= 1 && (forall i :: 0 <= i < |p.workers| ==> p.workers[i].Starting?)
    && p.mutex == None && p.idle == 0 && p.slowRunning == 0 && p.wq == [] && p.slowPending == [] && p.reqs == map[]
  }

  // ----- the invariant -------------------------------------------------------------------------------------

  predicate IsIdle(w: Worker) { w.Waiting? || w.Woken? }

  predicate IsSlow(w: Worker) { w == Finished(true) || (w.Running? && w.slow) }

  predicate IsAwake(w: Worker) { !w.Waiting? && !w.Exited? }

  function Count(ws: seq<Worker>, f: Worker -> bool): nat {
    if ws == [] then 0 else (if f(ws[0]) then 1 else 0) + Count(ws[1..], f)
  }

  ghost predicate QueuesOk(p: Pool) {
    && NoDup(p.wq) && NoDup(p.slowPending)
    && (forall id :: Work(id) in p.wq <==> id in p.reqs && p.reqs[id].phase.Queued? && !p.reqs[id].slow)
    && (forall id :: id in p.slowPending <==> id in p.reqs && p.reqs[id].phase.Queued? && p.reqs[id].slow)
    && (p.slowPending != [] ==> SlowMessage in p.wq)
    && ((exists i :: 0 <= i < |p.workers| && p.workers[i].Exited?) ==> ExitMessage in p.wq)
  }

  ghost predicate WorkersOk(p: Pool) {
    && |p.workers| >= 1
    && (forall i :: 0 <= i < |p.workers| ==> (p.workers[i].Looking? <==> p.mutex == Some(i)))
    && (p.mutex.Some? ==> p.mutex.value < |p.workers|)
    && (forall i :: 0 <= i < |p.workers| && p.workers[i].Running? ==>
          && p.workers[i].id in p.reqs && p.reqs[p.workers[i].id].phase == Executing(i)
          && p.reqs[p.workers[i].id].slow == p.workers[i].slow)
    && (forall id :: id in p.reqs && p.reqs[id].phase.Executing? ==>
          p.reqs[id].phase.worker < |p.workers| && p.workers[p.reqs[id].phase.worker] == Running(id, p.reqs[id].slow))
  }

  ghost predicate CountsOk(p: Pool) {
    && p.idle == Count(p.workers, IsIdle) && p.slowRunning == Count(p.workers, IsSlow)
    && p.slowRunning <= Threshold(p)
  }

  ghost predicate RequestOk(r: Request) {
    match r.phase
    case Queued => r.ran == 0 && r.statuses == []
    case Executing(_) => r.ran == 1 && r.statuses == []
    case Removed => r.ran == 0 && r.statuses == []
    case InLoop(c) => r.ran == (if c then 0 else 1) && r.statuses == []
    case Draining(c) => r.ran == (if c then 0 else 1) && r.statuses == []
    case Done(c) => r.ran == (if c then 0 else 1) && r.statuses == [if c then Canceled else Succeeded]
  }

  ghost predicate RequestsOk(p: Pool) {
    forall id :: id in p.reqs ==> RequestOk(p.reqs[id])
  }

  ghost predicate SomeoneAwake(ws: seq<Worker>) {
    exists i :: 0 <= i < |ws| && IsAwake(ws[i])
  }

  /** No lost wake-up: while work can be taken and a thread waits, another thread is awake to take it. */
  ghost predicate NoLostWakeup(p: Pool) {
    !MustWait(p) && SomeoneWaits(p.workers) ==> SomeoneAwake(p.workers)
  }

  ghost predicate Inv(p: Pool) {
    QueuesOk(p) && WorkersOk(p) && CountsOk(p) && RequestsOk(p) && NoLostWakeup(p)
  }

  // ----- counting and sequences ----------------------------------------------------------------------------

  lemma {:induction false} CountUpdate(ws: seq<Worker>, f: Worker -> bool, i: nat, w: Worker)
    requires i < |ws|
    ensures Count(ws[i := w], f) == Count(ws, f) - (if f(ws[i]) then 1 else 0) + (if f(w) then 1 else 0)
  {
    if i == 0 {
      assert ws[0 := w][1..] == ws[1..];
    } else {
      assert ws[i := w][1..] == ws[1..][i - 1 := w];
      CountUpdate(ws[1..], f, i - 1, w);
    }
  }

  lemma {:induction false} CountZero(ws: seq<Worker>, f: Worker -> bool)
    ensures Count(ws, f) == 0 <==> forall i :: 0 <= i < |ws| ==> !f(ws[i])
  {
    if ws != [] {
      CountZero(ws[1..], f);
      assert forall i :: 1 <= i < |ws| ==> ws[i] == ws[1..][i - 1];
    }
  }

  lemma DropHead<T>(s: seq<T>)
    requires NoDup(s) && s != []
    ensures NoDup(s[1..]) && forall y :: y in s[1..] <==> y in s && y != s[0]
  {
    assert s == [s[0]] + s[1..];
  }

  lemma AppendNew<T>(s: seq<T>, x: T)
    requires NoDup(s) && x !in s
    ensures NoDup(s + [x]) && forall y :: y in s + [x] <==> y in s || y == x
  {
  }

  /** Signalling changes neither the counts nor anything but one waiting thread, which is awake afterwards. */
  lemma SignalFacts(ws: seq<Worker>, wake: nat)
    requires CanWake(ws, wake)
    ensures Count(Signal(ws, wake), IsIdle) == Count(ws, IsIdle) && Count(Signal(ws, wake), IsSlow) == Count(ws, IsSlow)
    ensures forall i :: 0 <= i < |ws| ==> Signal(ws, wake)[i] == ws[i] || (ws[i].Waiting? && Signal(ws, wake)[i].Woken?)
    ensures SomeoneWaits(ws) ==> SomeoneAwake(Signal(ws, wake))
  {
    if wake < |ws| && ws[wake].Waiting? {
      CountUpdate(ws, IsIdle, wake, Woken);
      CountUpdate(ws, IsSlow, wake, Woken);
      assert IsAwake(Signal(ws, wake)[wake]);
    }
  }

  /** With nobody idle there is nobody waiting. */
  lemma SignalIfIdleFacts(p: Pool, wake: nat)
    requires CountsOk(p) && CanWake(p.workers, wake)
    ensures var ws := SignalIfIdle(p, wake);
            && |ws| == |p.workers|
            && Count(ws, IsIdle) == Count(p.workers, IsIdle) && Count(ws, IsSlow) == Count(p.workers, IsSlow)
            && (forall i :: 0 <= i < |ws| ==> ws[i] == p.workers[i] || (p.workers[i].Waiting? && ws[i].Woken?))
            && (SomeoneWaits(ws) ==> SomeoneAwake(ws))
  {
    CountZero(p.workers, IsIdle);
    SignalFacts(p.workers, wake);
  }

  // ----- every step keeps the invariant --------------------------------------------------------------------

  lemma SubmitKeepsQueues(p: Pool, id: nat, slow: bool, loop: nat, wake: nat, p': Pool)
    requires Inv(p) && Step(p, Submit(id, slow, loop, wake), p')
    ensures QueuesOk(p')
  {
    SignalIfIdleFacts(p, wake);
    if slow {
      AppendNew(p.slowPending, id);
      if SlowMessage !in p.wq { AppendNew(p.wq, SlowMessage); }
    } else {
      AppendNew(p.wq, Work(id));
    }
  }

  lemma SubmitKeepsWorkers(p: Pool, id: nat, slow: bool, loop: nat, wake: nat, p': Pool)
    requires Inv(p) && Step(p, Submit(id, slow, loop, wake), p')
    ensures WorkersOk(p')
  {
    SignalIfIdleFacts(p, wake);
  }

  lemma SubmitKeepsInv(p: Pool, id: nat, slow: bool, loop: nat, wake: nat, p': Pool)
    requires Inv(p) && Step(p, Submit(id, slow, loop, wake), p')
    ensures Inv(p')
  {
    SignalIfIdleFacts(p, wake);
    SubmitKeepsQueues(p, id, slow, loop, wake, p');
    SubmitKeepsWorkers(p, id, slow, loop, wake, p');
  }

  lemma PostExitKeepsInv(p: Pool, wake: nat, p': Pool)
    requires Inv(p) && Step(p, PostExit(wake), p')
    ensures Inv(p')
  {
    SignalIfIdleFacts(p, wake);
    AppendNew(p.wq, ExitMessage);
  }

  lemma WakeUpKeepsInv(p: Pool, i: nat, p': Pool)
    requires Inv(p) && Step(p, WakeUp(i), p')
    ensures Inv(p')
  {
    CountUpdate(p.workers, IsIdle, i, Woken);
    CountUpdate(p.workers, IsSlow, i, Woken);
    assert IsAwake(p'.workers[i]);
  }

  lemma LockKeepsInv(p: Pool, i: nat, p': Pool)
    requires Inv(p) && Step(p, Lock(i), p')
    ensures Inv(p')
  {
    CountUpdate(p.workers, IsIdle, i, Looking);
    CountUpdate(p.workers, IsSlow, i, Looking);
    assert IsAwake(p'.workers[i]);
  }

  lemma ReportKeepsQueues(p: Pool, i: nat, p': Pool)
    requires Inv(p) && Step(p, Report(i), p')
    ensures QueuesOk(p') && WorkersOk(p')
  {
  }

  lemma ReportKeepsInv(p: Pool, i: nat, p': Pool)
    requires Inv(p) && Step(p, Report(i), p')
    ensures Inv(p')
  {
    CountUpdate(p.workers, IsIdle, i, Finished(p.workers[i].slow));
    CountUpdate(p.workers, IsSlow, i, Finished(p.workers[i].slow));
    assert IsAwake(p'.workers[i]);
    ReportKeepsQueues(p, i, p');
  }

  lemma CancelRemoveKeepsQueues(p: Pool, id: nat, p': Pool)
    requires Inv(p) && Step(p, CancelRemove(id), p')
    ensures QueuesOk(p') && (!MustWait(p') ==> !MustWait(p))
  {
    WithoutMembers(p.wq, Work(id));
    WithoutMembers(p.slowPending, id);
    assert p'.slowPending != [] ==> p'.slowPending[0] in p'.slowPending;
  }

  lemma CancelRemoveKeepsInv(p: Pool, id: nat, p': Pool)
    requires Inv(p) && Step(p, CancelRemove(id), p')
    ensures Inv(p')
  {
    CancelRemoveKeepsQueues(p, id, p');
    assert WorkersOk(p');
  }

  lemma DrainKeepsQueues(p: Pool, loop: nat, p': Pool)
    requires Inv(p) && Step(p, Drain(loop), p')
    ensures QueuesOk(p')
  {
  }

  lemma DrainKeepsWorkers(p: Pool, loop: nat, p': Pool)
    requires Inv(p) && Step(p, Drain(loop), p')
    ensures WorkersOk(p')
  {
  }

  lemma DrainKeepsInv(p: Pool, loop: nat, p': Pool)
    requires Inv(p) && Step(p, Drain(loop), p')
    ensures Inv(p')
  {
    DrainKeepsQueues(p, loop, p');
    DrainKeepsWorkers(p, loop, p');
  }

  lemma CancelInsertKeepsInv(p: Pool, id: nat, p': Pool)
    requires Inv(p) && Step(p, CancelInsert(id), p')
    ensures Inv(p')
  {
    assert WorkersOk(p');
  }

  lemma DeliverKeepsInv(p: Pool, id: nat, p': Pool)
    requires Inv(p) && Step(p, Deliver(id), p')
    ensures Inv(p')
  {
    assert WorkersOk(p');
  }

  /** Starting a request that was just unlinked from its queue. */
  lemma StartFacts(p: Pool, i: nat, id: nat, slow: bool)
    requires WorkersOk(p) && RequestsOk(p) && p.mutex == Some(i)
    requires id in p.reqs && p.reqs[id].phase.Queued? && p.reqs[id].slow == slow
    ensures WorkersOk(Start(p, i, id, slow)) && RequestsOk(Start(p, i, id, slow))
    ensures SomeoneAwake(Start(p, i, id, slow).workers)
    ensures Count(Start(p, i, id, slow).workers, IsIdle) == Count(p.workers, IsIdle)
    ensures Count(Start(p, i, id, slow).workers, IsSlow) == Count(p.workers, IsSlow) + if slow then 1 else 0
  {
    CountUpdate(p.workers, IsIdle, i, Running(id, slow));
    CountUpdate(p.workers, IsSlow, i, Running(id, slow));
    assert IsAwake(Start(p, i, id, slow).workers[i]);
  }

  lemma LookWaitKeepsInv(p: Pool, i: nat, wake: nat, p': Pool)
    requires Inv(p) && Step(p, Look(i, wake), p') && MustWait(p)
    ensures Inv(p')
  {
    CountUpdate(p.workers, IsIdle, i, Waiting);
    CountUpdate(p.workers, IsSlow, i, Waiting);
  }

  lemma LookExitKeepsCounts(p: Pool, i: nat, wake: nat, p': Pool)
    requires Inv(p) && Step(p, Look(i, wake), p') && !MustWait(p) && p.wq[0].ExitMessage?
    ensures CountsOk(p') && NoLostWakeup(p')
  {
    var ws := Signal(p.workers, wake);
    SignalFacts(p.workers, wake);
    CountUpdate(ws, IsIdle, i, Exited);
    CountUpdate(ws, IsSlow, i, Exited);
    if SomeoneWaits(p'.workers) {
      var j :| 0 <= j < |p'.workers| && p'.workers[j].Waiting?;
      assert p.workers[j].Waiting? && wake != i;
      assert IsAwake(p'.workers[wake]);
    }
  }

  lemma LookExitKeepsInv(p: Pool, i: nat, wake: nat, p': Pool)
    requires Inv(p) && Step(p, Look(i, wake), p') && !MustWait(p) && p.wq[0].ExitMessage?
    ensures Inv(p')
  {
    LookExitKeepsCounts(p, i, wake, p');
    SignalFacts(p.workers, wake);
    assert p.wq[0] in p.wq;
    assert WorkersOk(p');
  }

  lemma LookWorkKeepsInv(p: Pool, i: nat, wake: nat, p': Pool)
    requires Inv(p) && Step(p, Look(i, wake), p') && !MustWait(p) && p.wq[0].Work?
    ensures Inv(p')
  {
    DropHead(p.wq);
    assert p.wq[0] in p.wq;
    var p1 := p.(wq := p.wq[1..]);
    StartFacts(p1, i, p.wq[0].id, false);
    assert QueuesOk(p');
  }

  lemma LookPassKeepsInv(p: Pool, i: nat, wake: nat, p': Pool)
    requires Inv(p) && Step(p, Look(i, wake), p') && !MustWait(p) && p.wq[0].SlowMessage?
    requires p.slowRunning >= Threshold(p) || p.slowPending == []
    ensures Inv(p') && p'.mutex == Some(i)
    ensures p.slowRunning >= Threshold(p) ==> !MustWait(p') && !p'.wq[0].SlowMessage?
  {
    DropHead(p.wq);
    assert p.wq[0] in p.wq;
    if p.slowRunning >= Threshold(p) {
      AppendNew(p.wq[1..], SlowMessage);
      assert p.wq[1] in p.wq[1..];
    }
    assert IsAwake(p'.workers[i]);
  }

  lemma LookSlowKeepsQueues(p: Pool, i: nat, wake: nat, p': Pool)
    requires Inv(p) && Step(p, Look(i, wake), p') && !MustWait(p) && p.wq[0].SlowMessage?
    requires p.slowRunning < Threshold(p) && p.slowPending != []
    ensures QueuesOk(p')
  {
    SlowQueues(p, wake);
    SignalIfIdleFacts(p, wake);
    assert p.slowPending[0] in p.slowPending;
  }

  lemma SlowQueues(p: Pool, wake: nat)
    requires NoDup(p.wq) && NoDup(p.slowPending) && p.wq != [] && p.wq[0].SlowMessage? && p.slowPending != []
    ensures var p2 := SlowTaken(p, wake);
            && NoDup(p2.wq) && NoDup(p2.slowPending) && (p2.slowPending != [] ==> SlowMessage in p2.wq)
            && (forall x :: x in p2.wq <==> x in p.wq && (x.SlowMessage? ==> p2.slowPending != []))
            && (forall id :: id in p2.slowPending <==> id in p.slowPending && id != p.slowPending[0])
  {
    DropHead(p.wq);
    DropHead(p.slowPending);
    AppendNew(p.wq[1..], SlowMessage);
  }

  /** The pool as it is when a slow request has been unlinked and the next one announced. */
  function SlowTaken(p: Pool, wake: nat): Pool
    requires p.wq != [] && p.slowPending != []
  {
    var p1 := p.(wq := p.wq[1..], slowPending := p.slowPending[1..], slowRunning := p.slowRunning + 1);
    if p.slowPending[1..] == [] then p1 else p1.(wq := p.wq[1..] + [SlowMessage], workers := SignalIfIdle(p, wake))
  }

  lemma SlowTakenFacts(p: Pool, wake: nat)
    requires Inv(p) && p.wq != [] && p.slowPending != [] && CanWake(p.workers, wake)
    ensures var p2 := SlowTaken(p, wake);
            && WorkersOk(p2) && RequestsOk(p2) && |p2.workers| == |p.workers|
            && Count(p2.workers, IsSlow) == p.slowRunning && Count(p2.workers, IsIdle) == p.idle
  {
    SignalIfIdleFacts(p, wake);
  }

  lemma LookSlowKeepsInv(p: Pool, i: nat, wake: nat, p': Pool)
    requires Inv(p) && Step(p, Look(i, wake), p') && !MustWait(p) && p.wq[0].SlowMessage?
    requires p.slowRunning < Threshold(p) && p.slowPending != []
    ensures Inv(p')
  {
    LookSlowKeepsQueues(p, i, wake, p');
    SlowTakenFacts(p, wake);
    assert p.slowPending[0] in p.slowPending;
    StartFacts(SlowTaken(p, wake), i, p.slowPending[0], true);
  }

  lemma LookKeepsInv(p: Pool, i: nat, wake: nat, p': Pool)
    requires Inv(p) && Step(p, Look(i, wake), p')
    ensures Inv(p')
  {
    if MustWait(p) {
      LookWaitKeepsInv(p, i, wake, p');
    } else if p.wq[0].ExitMessage? {
      LookExitKeepsInv(p, i, wake, p');
    } else if p.wq[0].Work? {
      LookWorkKeepsInv(p, i, wake, p');
    } else if p.slowRunning >= Threshold(p) || p.slowPending == [] {
      LookPassKeepsInv(p, i, wake, p');
    } else {
      LookSlowKeepsInv(p, i, wake, p');
    }
  }

  lemma StepKeepsInv(p: Pool, a: Action, p': Pool)
    requires Inv(p) && Step(p, a, p')
    ensures Inv(p')
  {
    match a
    case Submit(id, slow, loop, wake) => SubmitKeepsInv(p, id, slow, loop, wake, p');
    case PostExit(wake) => PostExitKeepsInv(p, wake, p');
    case WakeUp(i) => WakeUpKeepsInv(p, i, p');
    case Lock(i) => LockKeepsInv(p, i, p');
    case Look(i, wake) => LookKeepsInv(p, i, wake, p');
    case Report(i) => ReportKeepsInv(p, i, p');
    case CancelRemove(id) => CancelRemoveKeepsInv(p, id, p');
    case CancelInsert(id) => CancelInsertKeepsInv(p, id, p');
    case Drain(loop) => DrainKeepsInv(p, loop, p');
    case Deliver(id) => DeliverKeepsInv(p, id, p');
  }

  // ----- whole runs ----------------------------------------------------------------------------------------

  ghost predicate StepAt(pools: seq<Pool>, acts: seq<Action>, i: nat)
    requires i < |acts| < |pools|
  {
    Step(pools[i], acts[i], pools[i + 1])
  }

  ghost predicate IsRun(pools: seq<Pool>, acts: seq<Action>) {
    && |pools| == |acts| + 1 && Init(pools[0])
    && forall i :: 0 <= i < |acts| ==> StepAt(pools, acts, i)
  }

  lemma InitKeepsInv(p: Pool)
    requires Init(p)
    ensures Inv(p)
  {
    CountZero(p.workers, IsIdle);
    CountZero(p.workers, IsSlow);
  }

  lemma {:induction false} RunKeepsInv(pools: seq<Pool>, acts: seq<Action>, n: nat)
    requires IsRun(pools, acts) && n <= |acts|
    ensures Inv(pools[n])
  {
    if n == 0 {
      InitKeepsInv(pools[0]);
    } else {
      RunKeepsInv(pools, acts, n - 1);
      assert StepAt(pools, acts, n - 1);
      StepKeepsInv(pools[n - 1], acts[n - 1], pools[n]);
    }
  }

  /** What one step can do to one request. */
  lemma StepOnRequest(p: Pool, a: Action, p': Pool, id: nat)
    requires Inv(p) && Step(p, a, p') && id in p.reqs
    ensures id in p'.reqs && p.reqs[id].ran <= p'.reqs[id].ran && p.reqs[id].statuses <= p'.reqs[id].statuses
    ensures p.reqs[id].phase.Done? ==> p'.reqs[id] == p.reqs[id]
  {
    if a.Look? && !MustWait(p) {
      assert p.wq[0] in p.wq;
      assert p.slowPending != [] ==> p.slowPending[0] in p.slowPending;
    }
  }

  ghost predicate Evolves(before: Request, after: Request) {
    && before.ran <= after.ran && before.statuses <= after.statuses
    && (before.phase.Done? ==> after == before)
  }

  lemma RunStepOnRequest(pools: seq<Pool>, acts: seq<Action>, n: nat, id: nat)
    requires IsRun(pools, acts) && n < |acts| && id in pools[n].reqs
    ensures id in pools[n + 1].reqs && Evolves(pools[n].reqs[id], pools[n + 1].reqs[id])
  {
    RunKeepsInv(pools, acts, n);
    assert StepAt(pools, acts, n);
    StepOnRequest(pools[n], acts[n], pools[n + 1], id);
  }

  lemma {:induction false} RequestHistory(pools: seq<Pool>, acts: seq<Action>, m: nat, n: nat, id: nat)
    requires IsRun(pools, acts) && m <= n <= |acts| && id in pools[m].reqs
    ensures id in pools[n].reqs && Evolves(pools[m].reqs[id], pools[n].reqs[id])
    decreases n
  {
    if m < n {
      RequestHistory(pools, acts, m, n - 1, id);
      RunStepOnRequest(pools, acts, n - 1, id);
    }
  }

  /** Over a whole run the done callback of a request is called at most once. If it reports success the work ran
      exactly once; if it reports cancellation the work never ran and, from then on, never will. */
  lemma CompletedExactlyOnce(pools: seq<Pool>, acts: seq<Action>, m: nat, n: nat, id: nat)
    requires IsRun(pools, acts) && m <= n <= |acts| && id in pools[m].reqs && pools[m].reqs[id].statuses != []
    ensures id in pools[n].reqs && pools[n].reqs[id] == pools[m].reqs[id]
    ensures var r := pools[n].reqs[id]; (r.statuses == [Succeeded] && r.ran == 1) || (r.statuses == [Canceled] && r.ran == 0)
  {
    RunKeepsInv(pools, acts, m);
    assert RequestOk(pools[m].reqs[id]);
    RequestHistory(pools, acts, m, n, id);
  }

  /** Never more than half the threads, rounded up, run slow work, and pending slow work is always scheduled. */
  lemma SlowWorkLimited(pools: seq<Pool>, acts: seq<Action>, n: nat)
    requires IsRun(pools, acts) && n <= |acts|
    ensures Count(pools[n].workers, IsSlow) <= (|pools[n].workers| + 1) / 2
    ensures pools[n].slowPending != [] ==> SlowMessage in pools[n].wq
  {
    RunKeepsInv(pools, acts, n);
  }

  /** When every thread waits, no request at all is queued. */
  lemma AllWaitingMeansNothingQueued(pools: seq<Pool>, acts: seq<Action>, n: nat, id: nat)
    requires IsRun(pools, acts) && n <= |acts| && id in pools[n].reqs
    requires forall i :: 0 <= i < |pools[n].workers| ==> pools[n].workers[i].Waiting?
    ensures !pools[n].reqs[id].phase.Queued? && !pools[n].reqs[id].phase.Executing?
  {
    RunKeepsInv(pools, acts, n);
    NothingQueued(pools[n], id);
  }

  lemma NothingQueued(p: Pool, id: nat)
    requires Inv(p) && id in p.reqs
    requires forall i :: 0 <= i < |p.workers| ==> p.workers[i].Waiting?
    ensures !p.reqs[id].phase.Queued? && !p.reqs[id].phase.Executing?
  {
    CountZero(p.workers, IsSlow);
    assert p.workers[0].Waiting?;
    assert SomeoneWaits(p.workers) && !SomeoneAwake(p.workers);
    assert p.wq == [];
    assert Work(id) !in p.wq && SlowMessage !in p.wq;
  }

  // ----- the workers finish everything ---------------------------------------------------------------------

  predicate IsWorkerStep(a: Action) {
    a.Lock? || a.Look? || a.Report?
  }

  function Weight(w: Worker): nat {
    match w
    case Exited => 0
    case Waiting => 3
    case Looking => 4
    case Starting => 5
    case Woken => 5
    case Finished(_) => 5
    case Running(_, _) => 6
  }

  function TotalWeight(ws: seq<Worker>): nat {
    if ws == [] then 0 else Weight(ws[0]) + TotalWeight(ws[1..])
  }

  /** How much the workers still have to do if left alone. */
  function Remaining(p: Pool): nat {
    6 * (|p.wq| + |p.slowPending|) + (if p.wq != [] && p.wq[0].SlowMessage? then 1 else 0) + TotalWeight(p.workers)
  }

  lemma {:induction false} WeightUpdate(ws: seq<Worker>, i: nat, w: Worker)
    requires i < |ws|
    ensures TotalWeight(ws[i := w]) == TotalWeight(ws) - Weight(ws[i]) + Weight(w)
  {
    if i == 0 {
      assert ws[0 := w][1..] == ws[1..];
    } else {
      assert ws[i := w][1..] == ws[1..][i - 1 := w];
      WeightUpdate(ws[1..], i - 1, w);
    }
  }

  lemma SignalWeight(ws: seq<Worker>, wake: nat)
    ensures TotalWeight(Signal(ws, wake)) <= TotalWeight(ws) + 2
  {
    if wake < |ws| && ws[wake].Waiting? {
      WeightUpdate(ws, wake, Woken);
    }
  }

  /** Every worker step brings the pool closer to rest. */
  lemma WorkerStepDescends(p: Pool, a: Action, p': Pool)
    requires Inv(p) && Step(p, a, p') && IsWorkerStep(a)
    ensures Remaining(p') < Remaining(p)
  {
    match a
    case Lock(i) => WeightUpdate(p.workers, i, Looking);
    case Report(i) => WeightUpdate(p.workers, i, Finished(p.workers[i].slow));
    case Look(i, wake) => LookDescends(p, i, wake, p');
  }

  lemma LookDescends(p: Pool, i: nat, wake: nat, p': Pool)
    requires Inv(p) && Step(p, Look(i, wake), p')
    ensures Remaining(p') < Remaining(p)
  {
    if MustWait(p) {
      WeightUpdate(p.workers, i, Waiting);
    } else if p.wq[0].ExitMessage? {
      SignalWeight(p.workers, wake);
      WeightUpdate(Signal(p.workers, wake), i, Exited);
    } else if p.wq[0].Work? {
      WeightUpdate(p.workers, i, Running(p.wq[0].id, false));
    } else if p.slowRunning >= Threshold(p) {
      LookPassKeepsInv(p, i, wake, p');
    } else if p.slowPending == [] {
      DropHead(p.wq);
    } else {
      LookSlowDescends(p, i, wake, p');
    }
  }

  lemma LookSlowDescends(p: Pool, i: nat, wake: nat, p': Pool)
    requires Inv(p) && Step(p, Look(i, wake), p') && !MustWait(p) && p.wq[0].SlowMessage?
    requires p.slowRunning < Threshold(p) && p.slowPending != []
    ensures Remaining(p') < Remaining(p)
  {
    SignalWeight(p.workers, wake);
    var ws := SlowTaken(p, wake).workers;
    assert ws[i].Looking?;
    WeightUpdate(ws, i, Running(p.slowPending[0], true));
  }

  /** As long as a request is queued or running and no exit was posted, a worker can take a step. */
  lemma WorkersCanMove(p: Pool, id: nat) returns (a: Action, p': Pool)
    requires Inv(p) && id in p.reqs && (p.reqs[id].phase.Queued? || p.reqs[id].phase.Executing?) && ExitMessage !in p.wq
    ensures IsWorkerStep(a) && Step(p, a, p')
  {
    if p.mutex.Some? {
      var i := p.mutex.value;
      var wake := if j :| 0 <= j < |p.workers| && p.workers[j].Waiting? then j else 0;
      a, p' := Look(i, wake), LookStep(p, i, wake);
    } else {
      if forall i :: 0 <= i < |p.workers| ==> p.workers[i].Waiting? {
        NothingQueued(p, id);
      }
      var i :| 0 <= i < |p.workers| && !p.workers[i].Waiting?;
      if p.workers[i].Running? {
        a, p' := Report(i), ReportStep(p, i);
      } else {
        a, p' := Lock(i), LockStep(p, i);
      }
    }
  }

  /** Left alone, the workers come to rest: from any reachable state a run of worker steps is no longer than what
      remained to do. Together with WorkersCanMove, when it can go on no further no request is queued or running. */
  lemma {:induction false} WorkersComeToRest(pools: seq<Pool>, acts: seq<Action>)
    requires |pools| == |acts| + 1 && Inv(pools[0])
    requires forall i :: 0 <= i < |acts| ==> IsWorkerStep(acts[i]) && Step(pools[i], acts[i], pools[i + 1])
    ensures Inv(pools[|acts|]) && |acts| + Remaining(pools[|acts|]) <= Remaining(pools[0])
  {
    if acts != [] {
      var n := |acts| - 1;
      assert forall i :: 0 <= i < n ==> acts[..n][i] == acts[i];
      assert forall i :: 0 <= i <= n ==> pools[..n + 1][i] == pools[i];
      WorkersComeToRest(pools[..n + 1], acts[..n]);
      assert IsWorkerStep(acts[n]) && Step(pools[n], acts[n], pools[n + 1]);
      StepKeepsInv(pools[n], acts[n], pools[n + 1]);
      WorkerStepDescends(pools[n], acts[n], pools[n + 1]);
    }
  }

  // ----- every request is completed ------------------------------------------------------------------------

  /** A step that carries on with what was submitted: a worker's, the second half of a cancellation, a loop taking in
      requests that wait for it, or a callback. */
  ghost predicate Finishing(p: Pool, a: Action) {
    || IsWorkerStep(a) || a.CancelInsert? || a.Deliver?
    || (a.Drain? && exists id :: id in p.reqs && p.reqs[id].loop == a.loop && p.reqs[id].phase.InLoop?)
  }

  /** As long as a request is not done and no exit was posted, some step carries on. */
  lemma UnfinishedCanMove(p: Pool, id: nat) returns (a: Action, p': Pool)
    requires Inv(p) && id in p.reqs && !p.reqs[id].phase.Done? && ExitMessage !in p.wq
    ensures Finishing(p, a) && Step(p, a, p')
  {
    match p.reqs[id].phase
    case Queued => a, p' := WorkersCanMove(p, id);
    case Executing(_) => a, p' := WorkersCanMove(p, id);
    case Removed =>
      a, p' := CancelInsert(id), p.(reqs := p.reqs[id := p.reqs[id].(phase := InLoop(true))]);
    case InLoop(_) =>
      var loop := p.reqs[id].loop;
      a := Drain(loop);
      p' := p.(reqs := map k | k in p.reqs ::
                 if p.reqs[k].loop == loop && p.reqs[k].phase.InLoop? then
                   p.reqs[k].(phase := Draining(p.reqs[k].phase.canceled))
                 else p.reqs[k]);
    case Draining(c) =>
      a := Deliver(id);
      p' := p.(reqs := p.reqs[id := p.reqs[id].(phase := Done(c),
                 statuses := p.reqs[id].statuses + [if c then Canceled else Succeeded])]);
  }

  function Stage(r: Request): nat {
    match r.phase
    case Queued => 4
    case Executing(_) => 4
    case Removed => 3
    case InLoop(_) => 2
    case Draining(_) => 1
    case Done(_) => 0
  }

  ghost function Stages(m: map<nat, Request>): nat {
    if m == map[] then 0
    else
      var id :| id in m;
      Stage(m[id]) + Stages(m - {id})
  }

  lemma {:induction false} StagesSplit(m: map<nat, Request>, id: nat)
    requires id in m
    ensures Stages(m) == Stage(m[id]) + Stages(m - {id})
    decreases |m|
  {
    var k :| k in m && Stages(m) == Stage(m[k]) + Stages(m - {k});
    if k != id {
      StagesSplit(m - {k}, id);
      StagesSplit(m - {id}, k);
      assert m - {k} - {id} == m - {id} - {k};
    }
  }

  /** No request went back a stage. */
  ghost predicate NoneBack(m: map<nat, Request>, m': map<nat, Request>) {
    m.Keys == m'.Keys && forall id :: id in m ==> Stage(m'[id]) <= Stage(m[id])
  }

  lemma {:induction false} StagesDescend(m: map<nat, Request>, m': map<nat, Request>)
    requires NoneBack(m, m')
    ensures Stages(m') <= Stages(m)
    ensures (exists id :: id in m && Stage(m'[id]) < Stage(m[id])) ==> Stages(m') < Stages(m)
    decreases |m|
  {
    if m == map[] {
      assert m' == map[];
    } else {
      var k :| k in m && ((exists id :: id in m && Stage(m'[id]) < Stage(m[id])) ==> Stage(m'[k]) < Stage(m[k]));
      StagesSplit(m, k);
      StagesSplit(m', k);
      assert NoneBack(m - {k}, m' - {k});
      StagesDescend(m - {k}, m' - {k});
    }
  }

  /** A worker's step leaves every request at its stage or moves it on. */
  lemma WorkerStepStages(p: Pool, a: Action, p': Pool)
    requires Inv(p) && Step(p, a, p') && IsWorkerStep(a)
    ensures NoneBack(p.reqs, p'.reqs)
  {
    if a.Look? && !MustWait(p) {
      assert p.wq[0] in p.wq;
      assert p.slowPending != [] ==> p.slowPending[0] in p.slowPending;
    }
  }

  lemma FinishingStepDescends(p: Pool, a: Action, p': Pool)
    requires Inv(p) && Step(p, a, p') && Finishing(p, a)
    ensures Remaining(p') + Stages(p'.reqs) < Remaining(p) + Stages(p.reqs)
  {
    if IsWorkerStep(a) {
      WorkerStepDescends(p, a, p');
      WorkerStepStages(p, a, p');
    } else {
      LoopStepStages(p, a, p');
    }
    StagesDescend(p.reqs, p'.reqs);
  }

  lemma LoopStepStages(p: Pool, a: Action, p': Pool)
    requires Step(p, a, p') && Finishing(p, a) && !IsWorkerStep(a)
    ensures NoneBack(p.reqs, p'.reqs) && Remaining(p') == Remaining(p)
    ensures exists id :: id in p.reqs && Stage(p'.reqs[id]) < Stage(p.reqs[id])
  {
    if a.Drain? {
      var id :| id in p.reqs && p.reqs[id].loop == a.loop && p.reqs[id].phase.InLoop?;
      assert Stage(p'.reqs[id]) < Stage(p.reqs[id]);
    } else {
      assert Stage(p'.reqs[a.id]) < Stage(p.reqs[a.id]);
    }
  }

  ghost predicate FinishingAt(pools: seq<Pool>, acts: seq<Action>, i: nat)
    requires i < |acts| < |pools|
  {
    Finishing(pools[i], acts[i]) && Step(pools[i], acts[i], pools[i + 1])
  }

  /** Everything is completed: from any reachable state, however the steps that carry on are chosen, they come to an end
      after no more than a number fixed at the start, and then, unless an exit was posted, every request is done. */
  lemma {:induction false} EverythingCompletes(pools: seq<Pool>, acts: seq<Action>)
    requires |pools| == |acts| + 1 && Inv(pools[0])
    requires forall i :: 0 <= i < |acts| ==> FinishingAt(pools, acts, i)
    ensures Inv(pools[|acts|])
    ensures |acts| + Remaining(pools[|acts|]) + Stages(pools[|acts|].reqs) <= Remaining(pools[0]) + Stages(pools[0].reqs)
    ensures ExitMessage !in pools[|acts|].wq && (forall a, p :: Finishing(pools[|acts|], a) ==> !Step(pools[|acts|], a, p)) ==>
              forall id :: id in pools[|acts|].reqs ==> pools[|acts|].reqs[id].phase.Done?
  {
    FinishingRun(pools, acts);
    var last := pools[|acts|];
    if ExitMessage !in last.wq && (forall a, p :: Finishing(last, a) ==> !Step(last, a, p)) {
      QuietMeansDone(last);
    }
  }

  lemma QuietMeansDone(p: Pool)
    requires Inv(p) && ExitMessage !in p.wq && forall a, p' :: Finishing(p, a) ==> !Step(p, a, p')
    ensures forall id :: id in p.reqs ==> p.reqs[id].phase.Done?
  {
    if id :| id in p.reqs && !p.reqs[id].phase.Done? {
      var a, p' := UnfinishedCanMove(p, id);
      assert false;
    }
  }

  lemma {:induction false} FinishingRun(pools: seq<Pool>, acts: seq<Action>)
    requires |pools| == |acts| + 1 && Inv(pools[0])
    requires forall i :: 0 <= i < |acts| ==> FinishingAt(pools, acts, i)
    ensures Inv(pools[|acts|])
    ensures |acts| + Remaining(pools[|acts|]) + Stages(pools[|acts|].reqs) <= Remaining(pools[0]) + Stages(pools[0].reqs)
  {
    if acts != [] {
      var n := |acts| - 1;
      var before, first := pools[..n + 1], acts[..n];
      forall i | 0 <= i < n ensures FinishingAt(before, first, i) {
        assert FinishingAt(pools, acts, i);
      }
      FinishingRun(before, first);
      assert FinishingAt(pools, acts, n);
      StepKeepsInv(pools[n], acts[n], pools[n + 1]);
      FinishingStepDescends(pools[n], acts[n], pools[n + 1]);
    }
  }
}
