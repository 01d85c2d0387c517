/** The order in which libuv's thread pool starts requests (src/threadpool.c). */
module ThreadPoolOrder {

  import opened Sequences
  import opened ThreadPool

  ghost predicate Ahead<T>(s: seq<T>, x: T, y: T) {
    exists i, j :: 0 <= i < j < |s| && s[i] == x && s[j] == y
  }

  lemma AheadInTail<T>(s: seq<T>, x: T, y: T)
    requires NoDup(s) && Ahead(s, x, y)
    ensures s != [] && s[0] != y && (s[0] != x ==> Ahead(s[1..], x, y))
  {
    var i, j :| 0 <= i < j < |s| && s[i] == x && s[j] == y;
    if s[0] != x {
      assert s[1..][i - 1] == x && s[1..][j - 1] == y;
    }
  }

  lemma AheadAppended<T>(s: seq<T>, x: T, y: T, z: T)
    ensures Ahead(s, x, y) ==> Ahead(s + [z], x, y)
    ensures x in s ==> Ahead(s + [z], x, z)
  {
    if Ahead(s, x, y) {
      var i, j :| 0 <= i < j < |s| && s[i] == x && s[j] == y;
      assert (s + [z])[i] == x && (s + [z])[j] == y;
    }
    if x in s {
      var i :| 0 <= i < |s| && s[i] == x;
      assert (s + [z])[i] == x && (s + [z])[|s|] == z;
    }
  }

  lemma AheadPrepended<T>(s: seq<T>, x: T, y: T, z: T)
    ensures Ahead(s, x, y) ==> Ahead([z] + s, x, y)
    ensures y in s ==> Ahead([z] + s, z, y)
  {
    if Ahead(s, x, y) {
      var i, j :| 0 <= i < j < |s| && s[i] == x && s[j] == y;
      assert ([z] + s)[i + 1] == x && ([z] + s)[j + 1] == y;
    }
    if y in s {
      var j :| 0 <= j < |s| && s[j] == y;
      assert ([z] + s)[0] == z && ([z] + s)[j + 1] == y;
    }
  }

  lemma {:induction false} AheadWithout<T>(s: seq<T>, x: T, y: T, z: T)
    requires NoDup(s) && Ahead(s, x, y) && z != x && z != y
    ensures Ahead(Without(s, z), x, y)
  {
    AheadInTail(s, x, y);
    assert s == [s[0]] + s[1..];
    if s[0] == x {
      var i, j :| 0 <= i < j < |s| && s[i] == x && s[j] == y;
      assert s[1..][j - 1] == y;
      WithoutMembers(s[1..], z);
      AheadPrepended(Without(s[1..], z), x, y, x);
    } else if s[0] != z {
      AheadWithout(s[1..], x, y, z);
      AheadPrepended(Without(s[1..], z), x, y, s[0]);
    }
  }

  /** Request a waits before request b, in the queue of their kind. */
  ghost predicate WaitsBefore(p: Pool, a: nat, b: nat, slow: bool) {
    if slow then Ahead(p.slowPending, a, b) else Ahead(p.wq, Work(a), Work(b))
  }

  /** While a waits, b has not been started and, if it waits too, stands behind a. */
  ghost predicate InTurn(p: Pool, a: nat, b: nat, slow: bool) {
    && a != b && a in p.reqs && b in p.reqs && p.reqs[a].slow == slow && p.reqs[b].slow == slow
    && (p.reqs[a].phase.Queued? ==> p.reqs[b].ran == 0 && (p.reqs[b].phase.Queued? ==> WaitsBefore(p, a, b, slow)))
  }

  lemma SubmitKeepsTurn(p: Pool, act: Action, p': Pool, a: nat, b: nat, slow: bool)
    requires Inv(p) && act.Submit? && Step(p, act, p') && InTurn(p, a, b, slow)
    ensures InTurn(p', a, b, slow)
  {
    AheadAppended(p.slowPending, a, b, act.id);
    AheadAppended(p.wq, Work(a), Work(b), SlowMessage);
    AheadAppended(p.wq, Work(a), Work(b), Work(act.id));
  }

  lemma CancelKeepsTurn(p: Pool, act: Action, p': Pool, a: nat, b: nat, slow: bool)
    requires Inv(p) && act.CancelRemove? && Step(p, act, p') && InTurn(p, a, b, slow)
    ensures InTurn(p', a, b, slow)
  {
    if p'.reqs[a].phase.Queued? && p'.reqs[b].phase.Queued? {
      if slow {
        AheadWithout(p.slowPending, a, b, act.id);
      } else {
        AheadWithout(p.wq, Work(a), Work(b), Work(act.id));
      }
    }
  }

  /** The queues after a worker took the head of the main queue. */
  lemma LookKeepsQueued(p: Pool, act: Action, p': Pool, a: nat, b: nat)
    requires Inv(p) && act.Look? && Step(p, act, p') && InTurn(p, a, b, false) && WaitsBefore(p, a, b, false)
    requires p'.reqs[a].phase.Queued?
    ensures WaitsBefore(p', a, b, false) && p'.reqs[b] == p.reqs[b]
  {
    AheadInTail(p.wq, Work(a), Work(b));
    AheadAppended(p.wq[1..], Work(a), Work(b), SlowMessage);
    assert p.slowPending != [] ==> p.slowPending[0] in p.slowPending;
  }

  lemma LookKeepsPending(p: Pool, act: Action, p': Pool, a: nat, b: nat)
    requires Inv(p) && act.Look? && Step(p, act, p') && InTurn(p, a, b, true) && WaitsBefore(p, a, b, true)
    requires p'.reqs[a].phase.Queued?
    ensures WaitsBefore(p', a, b, true) && p'.reqs[b] == p.reqs[b]
  {
    AheadInTail(p.slowPending, a, b);
    assert p.wq != [] ==> p.wq[0] in p.wq;
  }

  lemma LookKeepsTurn(p: Pool, act: Action, p': Pool, a: nat, b: nat, slow: bool)
    requires Inv(p) && act.Look? && Step(p, act, p') && InTurn(p, a, b, slow)
    ensures InTurn(p', a, b, slow)
  {
    LookOnWaiting(p, act, p', a);
    LookOnWaiting(p, act, p', b);
    if p'.reqs[a].phase.Queued? && p.reqs[b].phase.Queued? {
      if slow {
        LookKeepsPending(p, act, p', a, b);
      } else {
        LookKeepsQueued(p, act, p', a, b);
      }
    }
  }

  lemma LookOnWaiting(p: Pool, act: Action, p': Pool, id: nat)
    requires Inv(p) && act.Look? && Step(p, act, p') && id in p.reqs
    ensures id in p'.reqs && p'.reqs[id].slow == p.reqs[id].slow && (p'.reqs[id].phase.Queued? ==> p'.reqs[id] == p.reqs[id])
    ensures !p.reqs[id].phase.Queued? ==> p'.reqs[id] == p.reqs[id]
  {
    assert p.wq != [] ==> p.wq[0] in p.wq;
    assert p.slowPending != [] ==> p.slowPending[0] in p.slowPending;
  }

  lemma StepKeepsTurn(p: Pool, act: Action, p': Pool, a: nat, b: nat, slow: bool)
    requires Inv(p) && Step(p, act, p') && InTurn(p, a, b, slow)
    ensures InTurn(p', a, b, slow)
  {
    match act
    case Submit(_, _, _, _) => SubmitKeepsTurn(p, act, p', a, b, slow);
    case CancelRemove(_) => CancelKeepsTurn(p, act, p', a, b, slow);
    case Look(_, _) => LookKeepsTurn(p, act, p', a, b, slow);
    case PostExit(_) => AheadAppended(p.wq, Work(a), Work(b), ExitMessage);
    case _ =>
  }

  lemma StepKeepsKind(p: Pool, act: Action, p': Pool, id: nat)
    requires Inv(p) && Step(p, act, p') && id in p.reqs
    ensures id in p'.reqs && p'.reqs[id].slow == p.reqs[id].slow
  {
    if act.Look? {
      LookOnWaiting(p, act, p', id);
    }
  }

  lemma {:induction false} SubmittedStays(pools: seq<Pool>, acts: seq<Action>, i: nat, n: nat)
    requires IsRun(pools, acts) && i < n <= |acts| && acts[i].Submit?
    ensures acts[i].id in pools[n].reqs && pools[n].reqs[acts[i].id].slow == acts[i].slow
    decreases n
  {
    RunKeepsInv(pools, acts, n - 1);
    assert StepAt(pools, acts, n - 1);
    if i < n - 1 {
      SubmittedStays(pools, acts, i, n - 1);
      StepKeepsKind(pools[n - 1], acts[n - 1], pools[n], acts[i].id);
    }
  }

  /** Whoever is submitted next gets in line behind those who wait. */
  lemma SubmittedBehind(p: Pool, act: Action, p': Pool, a: nat)
    requires Inv(p) && act.Submit? && Step(p, act, p') && a in p.reqs && p.reqs[a].slow == act.slow
    ensures InTurn(p', a, act.id, act.slow)
  {
    AheadAppended(p.slowPending, a, a, act.id);
    AheadAppended(p.wq, Work(a), Work(a), Work(act.id));
  }

  lemma {:induction false} TurnsKept(pools: seq<Pool>, acts: seq<Action>, i: nat, j: nat, n: nat)
    requires IsRun(pools, acts) && i < j < n <= |acts| && acts[i].Submit? && acts[j].Submit? && acts[i].slow == acts[j].slow
    ensures InTurn(pools[n], acts[i].id, acts[j].id, acts[j].slow)
    decreases n
  {
    RunKeepsInv(pools, acts, n - 1);
    assert StepAt(pools, acts, n - 1);
    if n - 1 == j {
      SubmittedStays(pools, acts, i, j);
      SubmittedBehind(pools[j], acts[j], pools[n], acts[i].id);
    } else {
      TurnsKept(pools, acts, i, j, n - 1);
      StepKeepsTurn(pools[n - 1], acts[n - 1], pools[n], acts[i].id, acts[j].id, acts[j].slow);
    }
  }

  predicate IsCanceled(ph: Phase) {
    ph.Removed? || ph == InLoop(true) || ph == Draining(true) || ph == Done(true)
  }

  /** In every run, requests of one kind are started in the order in which they were submitted: once the later one
      has been started, the earlier one has been started as well, or was cancelled. */
  lemma StartedInOrder(pools: seq<Pool>, acts: seq<Action>, i: nat, j: nat, n: nat)
    requires IsRun(pools, acts) && i < j < n <= |acts| && acts[i].Submit? && acts[j].Submit? && acts[i].slow == acts[j].slow
    ensures acts[i].id in pools[n].reqs && acts[j].id in pools[n].reqs
    ensures pools[n].reqs[acts[j].id].ran > 0 ==>
              pools[n].reqs[acts[i].id].ran > 0 || IsCanceled(pools[n].reqs[acts[i].id].phase)
  {
    TurnsKept(pools, acts, i, j, n);
    RunKeepsInv(pools, acts, n);
    assert RequestOk(pools[n].reqs[acts[i].id]);
  }
}
