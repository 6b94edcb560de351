/** Mutex ownership and the pending-flag handshake: how each step treats them. */
module ThreadPoolLocks {
  import opened ThreadPool
  import opened ThreadPoolInv

  ghost predicate Locked(s: State) {
    Mutexes(s) && Sends(s)
  }

  /** Nothing but workers outside the sends has changed. */
  lemma SameLoops(s: State, s': State)
    requires Locked(s) && s'.loops == s.loops && s'.global == s.global && |s'.workers| == |s.workers|
    requires forall i :: 0 <= i < |s.workers| && (s.workers[i].Sending? || s'.workers[i].Sending?) ==>
               s'.workers[i] == s.workers[i]
    ensures Locked(s')
  {
    forall k | 0 <= k < |s'.loops| ensures MutexOk(s', k) && SendOk(s', k) {
      assert MutexOk(s, k) && SendOk(s, k);
    }
  }

  /** One loop has changed; the workers have not, and the global mutex only for this loop. */
  lemma OneLoop(s: State, s': State, l: nat)
    requires Locked(s) && l < |s.loops| && |s'.loops| == |s.loops| && s'.workers == s.workers
    requires forall k :: 0 <= k < |s.loops| && k != l ==> s'.loops[k] == s.loops[k]
    requires s'.global == s.global || (s.global == NotHeld && s'.global == HeldBy(l)) ||
             (s.global == HeldBy(l) && s'.global == NotHeld)
    requires MutexOk(s', l) && SendOk(s', l)
    requires s.loops[l].mutex.ByWorker? ==> s'.loops[l].mutex == s.loops[l].mutex
    ensures Locked(s')
  {
    forall k | 0 <= k < |s'.loops| ensures MutexOk(s', k) && SendOk(s', k) {
      assert MutexOk(s, k) && SendOk(s, k);
    }
    assert MutexOk(s, l);
  }

  /** One worker and the loop whose mutex it takes, holds or releases have changed. */
  lemma OneSender(s: State, s': State, i: nat, l: nat)
    requires Locked(s) && i < |s.workers| && l < |s.loops|
    requires |s'.workers| == |s.workers| && forall k :: 0 <= k < |s.workers| && k != i ==> s'.workers[k] == s.workers[k]
    requires |s'.loops| == |s.loops| && forall k :: 0 <= k < |s.loops| && k != l ==> s'.loops[k] == s.loops[k]
    requires s'.global == s.global && s'.loops[l].cancel == s.loops[l].cancel
    requires s.workers[i].Sending? ==> s.workers[i].loop == l
    requires s.loops[l].mutex == Free || s.loops[l].mutex == ByWorker(i)
    requires if s'.workers[i].Sending? then s'.workers[i].loop == l && s'.loops[l].mutex == ByWorker(i)
             else s'.loops[l].mutex == Free
    requires SendOk(s', l)
    ensures Locked(s')
  {
    forall k | 0 <= k < |s'.loops| ensures MutexOk(s', k) && SendOk(s', k) {
      assert MutexOk(s, k) && SendOk(s, k);
    }
  }

  lemma PoolStepKeepsLocked(s: State, step: Step)
    requires Locked(s) && Enabled(s, step)
    requires step.Submit? || step.PostExit? || step.Spurious? || step.Take? || step.Call?
    ensures Locked(Apply(s, step))
  {
    SameLoops(s, Apply(s, step));
  }

  lemma SenderStepKeepsLocked(s: State, i: nat, step: Step)
    requires Locked(s) && Enabled(s, step) && (step == Complete(i) || step == WorkerSend(i))
    ensures Locked(Apply(s, step))
  {
    var l := if step.Complete? then s.works[s.workers[i].w].loop else s.workers[i].loop;
    assert MutexOk(s, l) && SendOk(s, l);
    OneSender(s, Apply(s, step), i, l);
  }

  lemma LoopStepKeepsLocked(s: State, l: nat, step: Step)
    requires Locked(s) && Enabled(s, step)
    requires step == DrainFd(l) || step == VisitHandle(l) || step == MoveAside(l) || step == NextCallback(l)
    ensures Locked(Apply(s, step))
  {
    assert MutexOk(s, l) && SendOk(s, l);
    OneLoop(s, Apply(s, step), l);
  }

  lemma CancelStepKeepsLocked(s: State, l: nat, step: Step)
    requires Locked(s) && Enabled(s, step)
    requires step == CancelInsert(l) || step == CancelSendStep(l)
    ensures Locked(Apply(s, step))
  {
    assert MutexOk(s, l) && SendOk(s, l);
    OneLoop(s, Apply(s, step), l);
  }

  lemma CancelGlobalKeepsLocked(s: State, l: nat, step: Step)
    requires Locked(s) && Enabled(s, step) && ((step.CancelLock? && step.l == l) || step == CancelTest(l))
    ensures Locked(Apply(s, step))
  {
    assert MutexOk(s, l) && SendOk(s, l);
    OneLoop(s, Apply(s, step), l);
  }

  lemma KeepsLocked(s: State, step: Step)
    requires Locked(s) && Enabled(s, step)
    ensures Locked(Apply(s, step))
  {
    match step
    case Complete(i) => SenderStepKeepsLocked(s, i, step);
    case WorkerSend(i) => SenderStepKeepsLocked(s, i, step);
    case DrainFd(l) => LoopStepKeepsLocked(s, l, step);
    case VisitHandle(l) => LoopStepKeepsLocked(s, l, step);
    case MoveAside(l) => LoopStepKeepsLocked(s, l, step);
    case NextCallback(l) => LoopStepKeepsLocked(s, l, step);
    case CancelLock(l, w) => CancelGlobalKeepsLocked(s, l, step);
    case CancelTest(l) => CancelGlobalKeepsLocked(s, l, step);
    case CancelInsert(l) => CancelStepKeepsLocked(s, l, step);
    case CancelSendStep(l) => CancelStepKeepsLocked(s, l, step);
    case _ => PoolStepKeepsLocked(s, step);
  }
}
