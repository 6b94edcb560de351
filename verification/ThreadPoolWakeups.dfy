/** No lost wakeup: how each step treats the condition variable, the queue and the exit message. */
module ThreadPoolWakeups {
  import opened Basics
  import opened ThreadPool
  import opened ThreadPoolInv

  ghost function Ones(pc: WorkerPc): nat {
    if IsIdle(pc) then 1 else 0
  }

  lemma {:induction false} CountIdleUpdate(ws: seq<WorkerPc>, i: nat, pc: WorkerPc)
    requires i < |ws|
    ensures CountIdle(ws[i := pc]) == CountIdle(ws) - Ones(ws[i]) + Ones(pc)
  {
    if i > 0 {
      assert ws[i := pc][1..] == ws[1..][i - 1 := pc];
      CountIdleUpdate(ws[1..], i - 1, pc);
    }
  }

  lemma {:induction false} CountIdleZero(ws: seq<WorkerPc>)
    ensures CountIdle(ws) == 0 <==> forall i :: 0 <= i < |ws| ==> !IsIdle(ws[i])
  {
    if ws != [] {
      CountIdleZero(ws[1..]);
      assert forall i :: 0 < i < |ws| ==> ws[i] == ws[1..][i - 1];
    }
  }

  lemma {:induction false} CountIdleNone(ws: seq<WorkerPc>)
    requires forall i :: 0 <= i < |ws| ==> ws[i] == Start
    ensures CountIdle(ws) == 0
  {
    CountIdleZero(ws);
  }

  lemma {:induction false} InWithout<X>(q: seq<X>, x: X, y: X)
    requires NoDup(q)
    ensures y in Without(q, x) <==> y in q && y != x
  {
    if q != [] && q[0] != x {
      NoDupTail(q);
      InWithout(q[1..], x, y);
    } else if q != [] {
      NoDupTail(q);
    }
  }

  lemma {:induction false} NoDupWithout<X>(q: seq<X>, x: X)
    requires NoDup(q)
    ensures NoDup(Without(q, x))
  {
    if q != [] && q[0] != x {
      NoDupTail(q);
      NoDupWithout(q[1..], x);
      InWithout(q[1..], x, q[0]);
      NoDupCons(q[0], Without(q[1..], x));
    } else if q != [] {
      NoDupTail(q);
    }
  }

  lemma NoDupTail<X>(q: seq<X>)
    requires NoDup(q) && q != []
    ensures NoDup(q[1..]) && q[0] !in q[1..] && q == [q[0]] + q[1..]
    ensures forall x :: x in q <==> x == q[0] || x in q[1..]
  {
  }

  lemma NoDupCons<X>(x: X, q: seq<X>)
    requires NoDup(q) && x !in q
    ensures NoDup([x] + q)
  {
  }

  lemma NoDupSnoc<X>(q: seq<X>, x: X)
    requires NoDup(q) && x !in q
    ensures NoDup(q + [x])
  {
  }

  // ---------- steps ----------

  /** A worker that neither enters nor leaves the wait unsignalled, and does not exit. */
  lemma OneWorker(s: State, s': State, i: nat, pc: WorkerPc)
    requires Wakeups(s) && i < |s.workers| && s'.workers == s.workers[i := pc]
    requires s'.wq == s.wq && s'.exitPosted == s.exitPosted
    requires s'.idle == s.idle - Ones(s.workers[i]) + Ones(pc)
    requires Alert(pc) && !s.workers[i].Exited?
    ensures Wakeups(s')
  {
    CountIdleUpdate(s.workers, i, pc);
    assert s'.workers[i] == pc;
    assert forall k :: 0 <= k < |s'.workers| && s'.workers[k].Exited? ==> s.workers[k].Exited?;
  }

  /** A signal leaves the number of idle workers alone; with the queue not empty somebody looks at it. */
  lemma Signalled(s: State, j: nat)
    requires CanSignal(s, j) && s.idle == CountIdle(s.workers)
    ensures var s' := Signal(s, j);
      && s'.idle == CountIdle(s'.workers) && s'.wq == s.wq && s'.exitPosted == s.exitPosted
      && |s'.workers| == |s.workers|
      && (forall k :: 0 <= k < |s.workers| ==> (s'.workers[k].Exited? <==> s.workers[k].Exited?))
      && (AllExited(s') || exists k :: 0 <= k < |s'.workers| && Alert(s'.workers[k]))
  {
    var s' := Signal(s, j);
    if IsWaiting(s, j) {
      CountIdleUpdate(s.workers, j, Woken);
      assert Alert(s'.workers[j]);
    } else if !AllExited(s) {
      var k :| 0 <= k < |s.workers| && !s.workers[k].Exited?;
      assert Alert(s'.workers[k]);
    }
  }

  lemma Posted(s: State, item: Item, j: nat)
    requires Wakeups(s) && CanSignal(s, j)
    requires item == Exit ==> s.exitPosted || Exit !in s.wq
    ensures var s' := Post(s, item, j).(exitPosted := s.exitPosted || item == Exit); Wakeups(s')
  {
    var s1 := s.(wq := s.wq + [item]);
    var s' := Post(s, item, j).(exitPosted := s.exitPosted || item == Exit);
    assert forall x :: x in s1.wq <==> x in s.wq || x == item;
    assert s.wq != [] ==> s1.wq[0] == s.wq[0];
    assert s.wq == [] ==> forall i :: 0 <= i < |s.workers| ==> !s.workers[i].Exited?;
    if s.idle > 0 {
      Signalled(s1, j);
    } else {
      CountIdleZero(s.workers);
      if !AllExited(s) {
        var k :| 0 <= k < |s.workers| && !s.workers[k].Exited?;
        assert Alert(s'.workers[k]);
      }
    }
  }

  lemma TakeKeepsWakeups(s: State, i: nat, j: nat)
    requires Wakeups(s) && Enabled(s, Take(i, j)) && NoDup(s.wq)
    ensures Wakeups(Apply(s, Take(i, j)))
  {
    var s' := Apply(s, Take(i, j));
    CountIdleUpdate(s.workers, i, s'.workers[i]);
    if s.wq == [] {
      assert forall k :: 0 <= k < |s.workers| ==> !s'.workers[k].Exited?;
    } else if s.wq[0].Exit? {
      var s1 := if s.workers[i].Woken? then s.(idle := s.idle - 1) else s;
      var s2 := SetWorker(s1, i, Exited);
      CountIdleUpdate(s.workers, i, Exited);
      assert CanSignal(s2, j);
      Signalled(s2, j);
      assert s'.wq[0] == Exit;
    } else {
      NoDupTail(s.wq);
      assert s'.workers[i].Running? && Alert(s'.workers[i]);
      assert forall k :: 0 <= k < |s.workers| ==> !s.workers[k].Exited?;
    }
  }

  lemma CancelKeepsWakeups(s: State, l: nat)
    requires Wakeups(s) && Enabled(s, CancelTest(l)) && NoDup(s.wq)
    ensures Wakeups(Apply(s, CancelTest(l)))
  {
    var s', item := Apply(s, CancelTest(l)), Work(s.loops[l].cancel.w);
    InWithout(s.wq, item, Exit);
    assert s.wq != [] && s.wq[0] == Exit ==> Without(s.wq, item)[0] == Exit;
    assert s'.workers == s.workers;
    if s'.wq != [] && !AllExited(s') {
      var k :| 0 <= k < |s.workers| && Alert(s.workers[k]);
      assert Alert(s'.workers[k]);
    }
  }

  lemma WorkerStepKeepsWakeups(s: State, i: nat, step: Step)
    requires Wakeups(s) && Enabled(s, step) && (step == Spurious(i) || step == Call(i) || step == Complete(i) || step == WorkerSend(i))
    ensures Wakeups(Apply(s, step))
  {
    var s' := Apply(s, step);
    OneWorker(s, s', i, s'.workers[i]);
  }

  ghost predicate InLoopThread(step: Step) {
    step.DrainFd? || step.VisitHandle? || step.MoveAside? || step.NextCallback? || step.CancelLock? ||
    step.CancelInsert? || step.CancelSendStep?
  }

  /** The loop threads' steps, but for the cancel test, do not touch what the workers wait for. */
  lemma LoopStepKeepsWakeups(s: State, step: Step)
    requires Wakeups(s) && Enabled(s, step) && InLoopThread(step)
    ensures Wakeups(Apply(s, step))
  {
    var s' := Apply(s, step);
    assert s'.workers == s.workers && s'.wq == s.wq && s'.idle == s.idle && s'.exitPosted == s.exitPosted;
  }

  lemma SubmitKeepsWakeups(s: State, w: nat, l: nat, j: nat)
    requires Wakeups(s) && Enabled(s, Submit(w, l, j)) && NoDup(s.wq)
    ensures Wakeups(Apply(s, Submit(w, l, j)))
  {
    Posted(s.(works := Apply(s, Submit(w, l, j)).works), Work(w), j);
  }

  lemma KeepsWakeups(s: State, step: Step)
    requires Wakeups(s) && Enabled(s, step) && NoDup(s.wq)
    ensures Wakeups(Apply(s, step))
  {
    match step
    case Submit(w, l, j) => SubmitKeepsWakeups(s, w, l, j);
    case PostExit(j) => Posted(s, Exit, j);
    case Take(i, j) => TakeKeepsWakeups(s, i, j);
    case Spurious(i) => WorkerStepKeepsWakeups(s, i, step);
    case Call(i) => WorkerStepKeepsWakeups(s, i, step);
    case Complete(i) => WorkerStepKeepsWakeups(s, i, step);
    case WorkerSend(i) => WorkerStepKeepsWakeups(s, i, step);
    case CancelTest(l) => CancelKeepsWakeups(s, l);
    case _ => LoopStepKeepsWakeups(s, step);
  }
}
