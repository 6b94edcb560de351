/** What holds of every run of the thread pool. */
module ThreadPoolRuns {
  import opened ThreadPool
  import opened ThreadPoolInv
  import opened ThreadPoolWakeups
  import opened ThreadPoolLocks
  import opened ThreadPoolPlaces

  lemma InitInv(s: State)
    requires Init(s)
    ensures Inv(s)
  {
    CountIdleNone(s.workers);
  }

  lemma KeepsTracked(s: State, step: Step)
    requires Inv(s) && Enabled(s, step)
    ensures Tracked(Apply(s, step))
  {
    match step
    case Submit(w, l, j) => SubmitKeepsTracked(s, w, l, j);
    case PostExit(j) => ExitKeepsTracked(s, j);
    case Take(i, j) =>
      if s.wq != [] && s.wq[0].Work? {
        TakeKeepsTracked(s, i, j);
      } else {
        QuietStepKeepsTracked(s, step);
      }
    case Call(i) => CallKeepsTracked(s, i);
    case Complete(i) => CompleteKeepsTracked(s, i);
    case MoveAside(l) =>
      assert SendOk(s, l);
      MoveAsideKeepsTracked(s, l);
    case NextCallback(l) =>
      if s.loops[l].local != [] {
        CallbackKeepsTracked(s, l);
      } else {
        QuietStepKeepsTracked(s, step);
      }
    case CancelLock(l, w) => LockKeepsTracked(s, l, w);
    case CancelTest(l) =>
      if Apply(s, step).loops[l].cancel.Idle? {
        LateCancelKeepsTracked(s, l);
      } else {
        CancelKeepsTracked(s, l);
      }
    case CancelInsert(l) => ReinsertKeepsTracked(s, l);
    case _ => QuietStepKeepsTracked(s, step);
  }

  /** Every step keeps the invariant. */
  lemma StepKeepsInv(s: State, step: Step)
    requires Inv(s) && Enabled(s, step)
    ensures Inv(Apply(s, step))
  {
    KeepsTracked(s, step);
    KeepsLocked(s, step);
    KeepsWakeups(s, step);
  }

  lemma {:induction false} RunKeepsInv(s: State, steps: seq<Step>)
    requires Inv(s) && IsRun(s, steps)
    ensures Inv(After(s, steps))
    decreases |steps|
  {
    if steps != [] {
      StepKeepsInv(s, steps[0]);
      RunKeepsInv(Apply(s, steps[0]), steps[1..]);
    }
  }
}
