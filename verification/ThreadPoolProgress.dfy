/** Left to themselves the workers and loop threads always come to rest, and then no work is left over. */
module ThreadPoolProgress {
  import opened ThreadPool
  import opened ThreadPoolInv
  import opened ThreadPoolWakeups
  import opened ThreadPoolLocks
  import opened ThreadPoolPlaces
  import opened ThreadPoolRuns

  /** The steps that need no new submission, cancel, shutdown or spurious wakeup. */
  ghost predicate Internal(step: Step) {
    !(step.Submit? || step.PostExit? || step.Spurious? || step.CancelLock?)
  }

  // ---------- a bound on what is left to do ----------

  ghost function StageRank(stage: Stage): nat {
    match stage
    case Read => 9
    case Swap => 8
    case Write => 7
  }

  ghost function WorkerRank(pc: WorkerPc): nat {
    match pc
    case Running(_) => 13
    case Ran(_) => 12
    case Sending(_, stage) => StageRank(stage)
    case Start => 2
    case Woken => 2
    case Waiting => 1
    case Exited => 0
  }

  ghost function LoopRank(v: Loop): nat {
    2 * |v.wq| + |v.local| + (if v.readable then 4 else 0)
    + (match v.pc
       case Visit => 3
       case Collect => 2
       case Callbacks => 1
       case Poll => 0)
    + (match v.cancel
       case HasGlobal(_) => 13
       case Reinsert(_) => 12
       case CancelSend(stage) => StageRank(stage)
       case Idle => 0)
  }

  ghost function WorkersRank(ws: seq<WorkerPc>): nat {
    if ws == [] then 0 else WorkerRank(ws[0]) + WorkersRank(ws[1..])
  }

  ghost function LoopsRank(ls: seq<Loop>): nat {
    if ls == [] then 0 else LoopRank(ls[0]) + LoopsRank(ls[1..])
  }

  ghost function Rank(s: State): nat {
    12 * |s.wq| + WorkersRank(s.workers) + LoopsRank(s.loops)
  }

  lemma {:induction false} WorkersRankUpdate(ws: seq<WorkerPc>, i: nat, pc: WorkerPc)
    requires i < |ws|
    ensures WorkersRank(ws[i := pc]) == WorkersRank(ws) - WorkerRank(ws[i]) + WorkerRank(pc)
  {
    if i > 0 {
      assert ws[i := pc][1..] == ws[1..][i - 1 := pc];
      WorkersRankUpdate(ws[1..], i - 1, pc);
    }
  }

  lemma {:induction false} LoopsRankUpdate(ls: seq<Loop>, l: nat, v: Loop)
    requires l < |ls|
    ensures LoopsRank(ls[l := v]) == LoopsRank(ls) - LoopRank(ls[l]) + LoopRank(v)
  {
    if l > 0 {
      assert ls[l := v][1..] == ls[1..][l - 1 := v];
      LoopsRankUpdate(ls[1..], l - 1, v);
    }
  }

  lemma {:induction false} WithoutIsShorter<X>(q: seq<X>, x: X)
    ensures |Without(q, x)| <= |q|
  {
    if q != [] && q[0] != x {
      WithoutIsShorter(q[1..], x);
    }
  }

  lemma TakeDescends(s: State, i: nat, j: nat)
    requires Enabled(s, Take(i, j))
    ensures Rank(Apply(s, Take(i, j))) < Rank(s)
  {
    var s' := Apply(s, Take(i, j));
    if s.wq != [] && s.wq[0].Exit? {
      WorkersRankUpdate(s.workers, i, Exited);
      var ws := s.workers[i := Exited];
      if j < |ws| && ws[j].Waiting? {
        WorkersRankUpdate(ws, j, Woken);
        assert s'.workers == ws[j := Woken];
      } else {
        assert s'.workers == ws;
      }
    } else {
      WorkersRankUpdate(s.workers, i, s'.workers[i]);
    }
  }

  lemma CallDescends(s: State, i: nat)
    requires Enabled(s, Call(i))
    ensures Rank(Apply(s, Call(i))) < Rank(s)
  {
    WorkersRankUpdate(s.workers, i, Ran(s.workers[i].w));
  }

  lemma CompleteDescends(s: State, i: nat)
    requires Enabled(s, Complete(i))
    ensures Rank(Apply(s, Complete(i))) < Rank(s)
  {
    var l := s.works[s.workers[i].w].loop;
    WorkersRankUpdate(s.workers, i, Sending(l, Read));
    LoopsRankUpdate(s.loops, l, Apply(s, Complete(i)).loops[l]);
  }

  lemma WorkerSendDescends(s: State, i: nat)
    requires Enabled(s, WorkerSend(i))
    ensures Rank(Apply(s, WorkerSend(i))) < Rank(s)
  {
    var s', l := Apply(s, WorkerSend(i)), s.workers[i].loop;
    SendDescends(s.loops[l], s.workers[i].stage);
    WorkersRankUpdate(s.workers, i, s'.workers[i]);
    LoopsRankUpdate(s.loops, l, s'.loops[l]);
    assert s'.workers == s.workers[i := s'.workers[i]] && s'.loops == s.loops[l := s'.loops[l]];
    assert LoopRank(s'.loops[l]) == LoopRank(AfterSend(s.loops[l], s.workers[i].stage).0);
  }

  lemma SendDescends(v: Loop, stage: Stage)
    ensures var (v', finished) := AfterSend(v, stage);
      LoopRank(v') + (if finished then 2 else StageRank(NextStage(stage))) < LoopRank(v) + StageRank(stage)
  {
  }

  lemma LoopDescends(s: State, l: nat, step: Step)
    requires Enabled(s, step) && l < |s.loops| && SendOk(s, l)
    requires step == DrainFd(l) || step == VisitHandle(l) || step == MoveAside(l) || step == NextCallback(l)
    ensures Rank(Apply(s, step)) < Rank(s)
  {
    var s' := Apply(s, step);
    LoopsRankUpdate(s.loops, l, s'.loops[l]);
    assert s'.loops == s.loops[l := s'.loops[l]];
  }

  lemma CancelTestDescends(s: State, l: nat)
    requires Enabled(s, CancelTest(l))
    ensures Rank(Apply(s, CancelTest(l))) < Rank(s)
  {
    var v, w, s' := s.loops[l], s.loops[l].cancel.w, Apply(s, CancelTest(l));
    var v' := s'.loops[l];
    UnlinkDescends(v, w);
    WithoutIsShorter(s.wq, Work(w));
    LoopsRankUpdate(s.loops, l, v');
    assert s'.loops == s.loops[l := v'] && s'.workers == s.workers && |s'.wq| <= |s.wq|;
    assert LoopRank(v') < LoopRank(v);
  }

  /** The loop of a cancelled work, whether that was unlinked or not. */
  lemma UnlinkDescends(v: Loop, w: nat)
    requires v.cancel.HasGlobal?
    ensures LoopRank(v.(wq := Without(v.wq, w), local := Without(v.local, w), cancel := Reinsert(w))) < LoopRank(v)
    ensures LoopRank(v.(cancel := Idle)) < LoopRank(v)
  {
    WithoutIsShorter(v.wq, w);
    WithoutIsShorter(v.local, w);
  }

  lemma CancelInsertDescends(s: State, l: nat)
    requires Enabled(s, CancelInsert(l))
    ensures Rank(Apply(s, CancelInsert(l))) < Rank(s)
  {
    var s' := Apply(s, CancelInsert(l));
    LoopsRankUpdate(s.loops, l, s'.loops[l]);
    assert LoopRank(s'.loops[l]) < LoopRank(s.loops[l]);
  }

  lemma CancelSendDescends(s: State, l: nat)
    requires Enabled(s, CancelSendStep(l))
    ensures Rank(Apply(s, CancelSendStep(l))) < Rank(s)
  {
    var s' := Apply(s, CancelSendStep(l));
    OwnSendDescends(s.loops[l]);
    LoopsRankUpdate(s.loops, l, s'.loops[l]);
  }

  lemma OwnSendDescends(v: Loop)
    requires v.cancel.CancelSend?
    ensures var (v', finished) := AfterSend(v, v.cancel.stage);
      LoopRank(v'.(mutex := if finished then Free else v'.mutex,
                   cancel := if finished then Idle else CancelSend(NextStage(v.cancel.stage)))) < LoopRank(v)
  {
  }

  lemma InternalDescends(s: State, step: Step)
    requires Inv(s) && Enabled(s, step) && Internal(step)
    ensures Rank(Apply(s, step)) < Rank(s)
  {
    match step
    case Take(i, j) => TakeDescends(s, i, j);
    case Call(i) => CallDescends(s, i);
    case Complete(i) => CompleteDescends(s, i);
    case WorkerSend(i) => WorkerSendDescends(s, i);
    case DrainFd(l) => assert SendOk(s, l); LoopDescends(s, l, step);
    case VisitHandle(l) => assert SendOk(s, l); LoopDescends(s, l, step);
    case MoveAside(l) => assert SendOk(s, l); LoopDescends(s, l, step);
    case NextCallback(l) => assert SendOk(s, l); LoopDescends(s, l, step);
    case CancelTest(l) => CancelTestDescends(s, l);
    case CancelInsert(l) => CancelInsertDescends(s, l);
    case CancelSendStep(l) => CancelSendDescends(s, l);
  }

  /** Livelock is impossible: however the threads are scheduled, they take boundedly many steps of their own. */
  lemma {:induction false} InternalRunsAreBounded(s: State, steps: seq<Step>)
    requires Inv(s) && IsRun(s, steps) && forall k :: 0 <= k < |steps| ==> Internal(steps[k])
    ensures |steps| <= Rank(s)
    decreases |steps|
  {
    if steps != [] {
      InternalDescends(s, steps[0]);
      StepKeepsInv(s, steps[0]);
      InternalRunsAreBounded(Apply(s, steps[0]), steps[1..]);
    }
  }

  // ---------- at rest ----------

  /** No thread can take a step of its own. */
  ghost predicate AtRest(s: State) {
    forall step :: Internal(step) ==> !Enabled(s, step)
  }

  lemma NoSender(s: State, i: nat)
    requires AtRest(s)
    ensures i < |s.workers| && s.workers[i].Sending? ==> s.workers[i].loop >= |s.loops|
  {
    assert !Enabled(s, WorkerSend(i));
  }

  lemma Members(q: seq<nat>)
    ensures forall k :: 0 <= k < |q| ==> q[k] in q
  {
  }

  lemma LoopAtRest(s: State, l: nat)
    requires Inv(s) && AtRest(s) && l < |s.loops|
    ensures var v := s.loops[l]; v.mutex == Free && v.cancel == Idle && v.pc == Poll && v.wq == [] && v.local == []
  {
    var v := s.loops[l];
    assert MutexOk(s, l) && SendOk(s, l) && LoopOk(s, l);
    assert !Enabled(s, CancelSendStep(l));
    NoSender(s, if v.mutex.ByWorker? then v.mutex.i else 0);
    assert v.mutex == Free;
    assert !Enabled(s, CancelTest(l));
    assert !Enabled(s, CancelInsert(l));
    assert v.cancel == Idle;
    Members(v.local);
    assert !Enabled(s, DrainFd(l));
    assert !Enabled(s, VisitHandle(l));
    assert !Enabled(s, MoveAside(l));
    assert !Enabled(s, NextCallback(l));
  }

  lemma WorkerAtRest(s: State, i: nat)
    requires Inv(s) && AtRest(s) && i < |s.workers|
    ensures s.workers[i].Waiting? || s.workers[i].Exited?
  {
    assert WorkerOk(s, i);
    if s.global.HeldBy? {
      assert MutexOk(s, s.global.l);
      LoopAtRest(s, s.global.l);
    }
    var j := SomeSignal(s);
    assert !Enabled(s, Take(i, j));
    assert !Enabled(s, Call(i));
    if s.workers[i].Ran? {
      assert PlaceOk(s, s.workers[i].w);
      LoopAtRest(s, s.works[s.workers[i].w].loop);
    }
    assert !Enabled(s, Complete(i));
    assert !Enabled(s, WorkerSend(i));
  }

  lemma SomeSignal(s: State) returns (j: nat)
    ensures CanSignal(s, j)
  {
    if k: nat :| k < |s.workers| && s.workers[k].Waiting? {
      j := k;
    } else {
      j := 0;
    }
  }

  /** At rest, unless the pool has been shut down, the queue is empty and every work ever submitted has had
      its completion callback; after a shutdown every worker has exited and only works posted behind the
      exit message are left. */
  lemma RestIsComplete(s: State)
    requires Inv(s) && AtRest(s)
    ensures !s.exitPosted ==> s.wq == []
    ensures s.exitPosted ==> AllExited(s) && s.wq != [] && s.wq[0] == Exit
    ensures forall w :: w in s.works ==> s.works[w].place == Finished || Work(w) in s.wq
  {
    forall i | 0 <= i < |s.workers| ensures s.workers[i].Waiting? || s.workers[i].Exited? {
      WorkerAtRest(s, i);
    }
    if s.wq != [] {
      assert AllExited(s);
      assert s.workers[0].Exited?;
    }
    forall w | w in s.works ensures s.works[w].place == Finished || Work(w) in s.wq {
      assert PlaceOk(s, w);
      LoopAtRest(s, s.works[w].loop);
      assert forall i :: 0 <= i < |s.workers| ==> !HasWork(s.workers[i], w);
    }
  }

  // ---------- the theorems ----------

  /** In every run: a completion callback runs at most once and with UV_ECANCELED exactly for the works
      whose cancel returned 0, which never run; every other work has run once by then. */
  lemma EveryRunIsSafe(s0: State, steps: seq<Step>, w: nat)
    requires Init(s0) && IsRun(s0, steps) && w in After(s0, steps).works
    ensures var v := After(s0, steps).works[w];
      && v.done <= 1 && v.ran <= 1
      && (v.done == 1 ==> v.status == v.cancelReturnedZero)
      && (v.cancelReturnedZero ==> v.ran == 0)
      && (v.done == 1 && !v.cancelReturnedZero ==> v.ran == 1)
  {
    InitInv(s0);
    RunKeepsInv(s0, steps);
    assert HistoryOk(After(s0, steps), w);
  }

  /** A worker never calls the function that marks a cancelled work. */
  lemma CancelledIsNeverCalled(s0: State, steps: seq<Step>, i: nat)
    requires Init(s0) && IsRun(s0, steps) && Enabled(After(s0, steps), Call(i))
    ensures var s := After(s0, steps); s.works[s.workers[i].w].fn == User
  {
    InitInv(s0);
    RunKeepsInv(s0, steps);
    var s := After(s0, steps);
    assert WorkerOk(s, i) && HistoryOk(s, s.workers[i].w);
  }

  /** No lost wakeup: while something is queued and not all workers have exited, some worker is on its
      way to the queue or to its own work without needing another signal. A worker exits only when the
      exit message has reached the head of the queue. */
  lemma NoLostWakeup(s0: State, steps: seq<Step>)
    requires Init(s0) && IsRun(s0, steps)
    ensures var s := After(s0, steps);
      && (s.wq != [] && !AllExited(s) ==> exists i :: 0 <= i < |s.workers| && Alert(s.workers[i]))
      && (forall i :: 0 <= i < |s.workers| && s.workers[i].Exited? ==> s.wq != [] && s.wq[0] == Exit)
  {
    InitInv(s0);
    RunKeepsInv(s0, steps);
  }

  /** From any reachable state, let the threads run on their own in any order: they stop after boundedly
      many steps, and when they have stopped every work has been completed exactly once. */
  lemma EveryWorkCompletes(s0: State, steps: seq<Step>, more: seq<Step>)
    requires Init(s0) && IsRun(s0, steps) && IsRun(After(s0, steps), more)
    requires forall k :: 0 <= k < |more| ==> Internal(more[k])
    ensures |more| <= Rank(After(s0, steps))
    ensures var s := After(After(s0, steps), more);
      AtRest(s) ==> forall w :: w in s.works && !s.exitPosted ==> s.works[w].done == 1
    ensures var s := After(After(s0, steps), more);
      AtRest(s) && s.exitPosted ==>
        AllExited(s) && s.wq != [] && forall w :: w in s.works && s.works[w].done == 0 ==> Work(w) in s.wq[1..]
  {
    InitInv(s0);
    RunKeepsInv(s0, steps);
    RunKeepsInv(After(s0, steps), more);
    InternalRunsAreBounded(After(s0, steps), more);
    var s := After(After(s0, steps), more);
    if AtRest(s) {
      RestIsComplete(s);
      forall w | w in s.works ensures s.works[w].done == 0 ==> s.exitPosted && Work(w) in s.wq[1..] {
        assert HistoryOk(s, w);
      }
      forall w | w in s.works && !s.exitPosted ensures s.works[w].done == 1 {
        assert HistoryOk(s, w);
      }
    }
  }
}
