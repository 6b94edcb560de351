/** First come, first served: in which order the completion callbacks of a loop run. */
module ThreadPoolCallbacks {
  import opened Basics
  import opened ThreadPool
  import opened ThreadPoolInv
  import opened ThreadPoolWakeups
  import opened ThreadPoolRuns
  import opened ThreadPoolProgress

  /** The work that a worker, or a cancel, hands to the loop in this step. */
  ghost function Arrival(s: State, step: Step, l: nat): seq<nat>
    requires Enabled(s, step)
  {
    match step
    case Complete(i) => if s.works[s.workers[i].w].loop == l then [s.workers[i].w] else []
    case CancelInsert(k) => if k == l then [s.loops[k].cancel.w] else []
    case _ => []
  }

  /** The work that a cancel takes back in this step, to hand it to the loop anew. */
  ghost function TakenBack(s: State, step: Step, l: nat): set<nat>
    requires Enabled(s, step)
  {
    if step.CancelTest? && step.l == l && l < |s.loops| && |Apply(s, step).loops| == |s.loops| &&
       Apply(s, step).loops[l].cancel.Reinsert?
    then {s.loops[l].cancel.w} else {}
  }

  ghost function AllTakenBack(s: State, steps: seq<Step>, l: nat): set<nat>
    requires IsRun(s, steps)
    decreases |steps|
  {
    if steps == [] then {} else TakenBack(s, steps[0], l) + AllTakenBack(Apply(s, steps[0]), steps[1..], l)
  }

  ghost function Staying(q: seq<nat>, gone: set<nat>): seq<nat> {
    if q == [] then [] else (if q[0] in gone then [] else [q[0]]) + Staying(q[1..], gone)
  }

  /** The works handed to the loop, in the order of the steps, each where it is not taken back again later. */
  ghost function Arrivals(s: State, steps: seq<Step>, l: nat): seq<nat>
    requires IsRun(s, steps)
    decreases |steps|
  {
    if steps == [] then []
    else
      var t := Apply(s, steps[0]);
      Staying(Arrival(s, steps[0], l), AllTakenBack(t, steps[1..], l)) + Arrivals(t, steps[1..], l)
  }

  /** The work whose completion callback runs in this step. */
  ghost function Called(s: State, step: Step, l: nat): seq<nat>
    requires Enabled(s, step)
  {
    if step == NextCallback(l) && s.loops[l].local != [] then [s.loops[l].local[0]] else []
  }

  /** The works whose completion callbacks have run, in the order of the steps. */
  ghost function Calls(s: State, steps: seq<Step>, l: nat): seq<nat>
    requires IsRun(s, steps)
    decreases |steps|
  {
    if steps == [] then [] else Called(s, steps[0], l) + Calls(Apply(s, steps[0]), steps[1..], l)
  }

  lemma {:induction false} StayingJoin(a: seq<nat>, b: seq<nat>, gone: set<nat>)
    ensures Staying(a + b, gone) == Staying(a, gone) + Staying(b, gone)
  {
    if a == [] {
      assert a + b == b;
    } else {
      assert (a + b)[1..] == a[1..] + b;
      StayingJoin(a[1..], b, gone);
      Associates(if a[0] in gone then [] else [a[0]], Staying(a[1..], gone), Staying(b, gone));
    }
  }

  lemma {:induction false} StayingAll(q: seq<nat>, gone: set<nat>)
    requires forall w :: w in q ==> w !in gone
    ensures Staying(q, gone) == q
  {
    if q != [] {
      assert forall w :: w in q[1..] ==> w in q;
      StayingAll(q[1..], gone);
      assert q == [q[0]] + q[1..];
    }
  }

  lemma {:induction false} StayingWithout(q: seq<nat>, w: nat, gone: set<nat>)
    requires NoDup(q)
    ensures Staying(Without(q, w), gone) == Staying(q, {w} + gone)
  {
    if q != [] {
      NoDupTail(q);
      if q[0] == w {
        assert w !in q[1..];
        StayingMore(q[1..], w, gone);
        Nothing(Staying(q[1..], gone));
      } else {
        StayingWithout(q[1..], w, gone);
        assert ([q[0]] + Without(q[1..], w))[1..] == Without(q[1..], w);
      }
    }
  }

  lemma {:induction false} StayingMore(q: seq<nat>, w: nat, gone: set<nat>)
    requires w !in q
    ensures Staying(q, {w} + gone) == Staying(q, gone)
  {
    if q != [] {
      assert forall k :: k in q[1..] ==> k in q;
      StayingMore(q[1..], w, gone);
    }
  }

  lemma Nothing(q: seq<nat>)
    ensures q + [] == q && [] + q == q
  {
  }

  /** The finished works of a loop that wait for their callbacks: moved aside, and still in its queue. */
  ghost function Uncalled(s: State, l: nat): seq<nat>
    requires l < |s.loops|
  {
    s.loops[l].local + s.loops[l].wq
  }

  lemma UncalledOk(s: State, l: nat)
    requires Inv(s) && l < |s.loops|
    ensures NoDup(Uncalled(s, l))
  {
    var v := s.loops[l];
    assert LoopOk(s, l);
    forall w | w in v.local
      ensures w !in v.wq
    {
      assert s.works[w].place == InLocal;
    }
    NoDupJoin(v.local, v.wq);
  }

  lemma NoDupJoin(a: seq<nat>, b: seq<nat>)
    requires NoDup(a) && NoDup(b) && forall w :: w in a ==> w !in b
    ensures NoDup(a + b)
  {
    var q := a + b;
    forall i, j | 0 <= i < j < |q|
      ensures q[i] != q[j]
    {
      if i < |a| && |a| <= j {
        assert a[i] in a && b[j - |a|] in b;
      }
    }
  }

  /** A work whose callback has run is not taken back any more. */
  lemma {:induction false} FinishedStays(s: State, steps: seq<Step>, l: nat, w: nat)
    requires Inv(s) && IsRun(s, steps) && w in s.works && s.works[w].place.Finished?
    ensures w !in AllTakenBack(s, steps, l)
    decreases |steps|
  {
    if steps != [] {
      StepKeepsInv(s, steps[0]);
      FinishedStep(s, steps[0], l, w);
      FinishedStays(Apply(s, steps[0]), steps[1..], l, w);
    }
  }

  lemma FinishedStep(s: State, step: Step, l: nat, w: nat)
    requires Inv(s) && Enabled(s, step) && w in s.works && s.works[w].place.Finished?
    ensures w !in TakenBack(s, step, l)
    ensures IsFinished(Apply(s, step), w)
  {
    match step
    case Take(i, j) => TakeOther(s, i, j, w);
    case Complete(i) => CompleteOther(s, i, w);
    case MoveAside(k) => AsideOther(s, k, w);
    case NextCallback(k) => CallbackOther(s, k, w);
    case CancelTest(k) => CancelOther(s, k, w);
    case CancelInsert(k) => InsertOther(s, k, w);
    case WorkerSend(i) => WorkerSendOther(s, i, w);
    case CancelSendStep(k) => CancelSendOther(s, k, w);
    case _ =>
  }

  ghost predicate IsFinished(s: State, w: nat) {
    w in s.works && s.works[w].place.Finished?
  }

  lemma TakeOther(s: State, i: nat, j: nat, w: nat)
    requires Inv(s) && Enabled(s, Take(i, j)) && IsFinished(s, w)
    ensures IsFinished(Apply(s, Take(i, j)), w)
  {
    if s.wq != [] && s.wq[0].Work? {
      assert Work(s.wq[0].id) in s.wq;
    }
  }

  lemma CompleteOther(s: State, i: nat, w: nat)
    requires Inv(s) && Enabled(s, Complete(i)) && IsFinished(s, w)
    ensures IsFinished(Apply(s, Complete(i)), w)
  {
    assert WorkerOk(s, i);
  }

  lemma AsideOther(s: State, k: nat, w: nat)
    requires Inv(s) && Enabled(s, MoveAside(k)) && IsFinished(s, w)
    ensures IsFinished(Apply(s, MoveAside(k)), w)
  {
    assert LoopOk(s, k);
  }

  lemma CancelOther(s: State, k: nat, w: nat)
    requires Inv(s) && Enabled(s, CancelTest(k)) && IsFinished(s, w)
    ensures IsFinished(Apply(s, CancelTest(k)), w) && s.loops[k].cancel.w != w
  {
    assert LoopOk(s, k);
  }

  lemma CallbackOther(s: State, k: nat, w: nat)
    requires Enabled(s, NextCallback(k)) && IsFinished(s, w)
    ensures IsFinished(Apply(s, NextCallback(k)), w)
  {
  }

  lemma WorkerSendOther(s: State, i: nat, w: nat)
    requires Enabled(s, WorkerSend(i)) && IsFinished(s, w)
    ensures IsFinished(Apply(s, WorkerSend(i)), w)
  {
  }

  lemma CancelSendOther(s: State, k: nat, w: nat)
    requires Enabled(s, CancelSendStep(k)) && IsFinished(s, w)
    ensures IsFinished(Apply(s, CancelSendStep(k)), w)
  {
  }

  lemma InsertOther(s: State, k: nat, w: nat)
    requires Inv(s) && Enabled(s, CancelInsert(k)) && IsFinished(s, w)
    ensures IsFinished(Apply(s, CancelInsert(k)), w)
  {
    assert LoopOk(s, k);
  }

  /** How a step changes what waits for its callback. */
  ghost predicate Shifts(s: State, step: Step, l: nat)
    requires Enabled(s, step) && l < |s.loops|
  {
    && |Apply(s, step).loops| == |s.loops|
    && if TakenBack(s, step, l) != {} then
         && TakenBack(s, step, l) == {s.loops[l].cancel.w}
         && Uncalled(Apply(s, step), l) == Without(Uncalled(s, l), s.loops[l].cancel.w)
         && Arrival(s, step, l) == Called(s, step, l) == []
       else Uncalled(s, l) + Arrival(s, step, l) == Called(s, step, l) + Uncalled(Apply(s, step), l)
  }

  lemma StepShifts(s: State, step: Step, l: nat)
    requires Inv(s) && Enabled(s, step) && l < |s.loops|
    ensures Shifts(s, step, l)
  {
    match step
    case Complete(i) => CompleteShifts(s, i, l);
    case CancelInsert(k) => InsertShifts(s, k, l);
    case MoveAside(k) => AsideShifts(s, k, l);
    case NextCallback(k) => CallbackShifts(s, k, l);
    case CancelTest(k) => TestShifts(s, k, l);
    case _ => OtherShifts(s, step, l);
  }

  lemma CompleteShifts(s: State, i: nat, l: nat)
    requires Enabled(s, Complete(i)) && l < |s.loops|
    ensures Shifts(s, Complete(i), l)
  {
    Nothing(Uncalled(s, l));
    Nothing(Uncalled(Apply(s, Complete(i)), l));
    Associates(s.loops[l].local, s.loops[l].wq, Arrival(s, Complete(i), l));
  }

  lemma InsertShifts(s: State, k: nat, l: nat)
    requires Enabled(s, CancelInsert(k)) && l < |s.loops|
    ensures Shifts(s, CancelInsert(k), l)
  {
    Nothing(Uncalled(s, l));
    Nothing(Uncalled(Apply(s, CancelInsert(k)), l));
    Associates(s.loops[l].local, s.loops[l].wq, Arrival(s, CancelInsert(k), l));
  }

  lemma AsideShifts(s: State, k: nat, l: nat)
    requires Inv(s) && Enabled(s, MoveAside(k)) && l < |s.loops|
    ensures Shifts(s, MoveAside(k), l)
  {
    assert SendOk(s, k);
    Nothing(s.loops[k].wq);
    Nothing(Uncalled(s, l));
  }

  lemma CallbackShifts(s: State, k: nat, l: nat)
    requires Enabled(s, NextCallback(k)) && l < |s.loops|
    ensures Shifts(s, NextCallback(k), l)
  {
    Nothing(Uncalled(s, l));
    if k == l && s.loops[l].local != [] {
      Head(s.loops[l].local, s.loops[l].wq);
    }
  }

  lemma Head(q: seq<nat>, r: seq<nat>)
    requires q != []
    ensures q + r == [q[0]] + (q[1..] + r)
  {
  }

  /** The queues of the loops are as they were. */
  ghost predicate Untouched(s: State, t: State) {
    |t.loops| == |s.loops| &&
    forall l :: 0 <= l < |s.loops| ==> t.loops[l].wq == s.loops[l].wq && t.loops[l].local == s.loops[l].local
  }

  lemma OtherShifts(s: State, step: Step, l: nat)
    requires Enabled(s, step) && l < |s.loops|
    requires !step.Complete? && !step.CancelInsert? && !step.MoveAside? && !step.NextCallback? && !step.CancelTest?
    ensures Shifts(s, step, l)
  {
    if step.WorkerSend? {
      WorkerTouches(s, step.i);
    } else if step.CancelSendStep? {
      CancelTouches(s, step.l);
    } else if step.DrainFd? || step.VisitHandle? || step.CancelLock? {
      VisitTouches(s, step);
    } else {
      PoolTouches(s, step);
    }
    Nothing(Uncalled(s, l));
  }

  lemma WorkerTouches(s: State, i: nat)
    requires Enabled(s, WorkerSend(i))
    ensures Untouched(s, Apply(s, WorkerSend(i)))
  {
  }

  lemma CancelTouches(s: State, l: nat)
    requires Enabled(s, CancelSendStep(l))
    ensures Untouched(s, Apply(s, CancelSendStep(l)))
  {
  }

  lemma VisitTouches(s: State, step: Step)
    requires Enabled(s, step) && (step.DrainFd? || step.VisitHandle? || step.CancelLock?)
    ensures Untouched(s, Apply(s, step))
  {
  }

  lemma PoolTouches(s: State, step: Step)
    requires Enabled(s, step) && (step.Submit? || step.PostExit? || step.Spurious? || step.Take? || step.Call?)
    ensures Untouched(s, Apply(s, step))
  {
  }

  lemma TestShifts(s: State, k: nat, l: nat)
    requires Inv(s) && Enabled(s, CancelTest(k)) && l < |s.loops|
    ensures Shifts(s, CancelTest(k), l)
  {
    Nothing(Uncalled(s, l));
    if k == l && Apply(s, CancelTest(l)).loops[l].cancel.Reinsert? {
      UncalledOk(s, l);
      WithoutJoin(s.loops[l].local, s.loops[l].wq, s.loops[l].cancel.w);
      BackUncalled(s, l);
    } else {
      TestTouches(s, k, l);
    }
  }

  lemma BackUncalled(s: State, l: nat)
    requires Enabled(s, CancelTest(l)) && Apply(s, CancelTest(l)).loops[l].cancel.Reinsert?
    ensures var v, w := s.loops[l], s.loops[l].cancel.w;
            Uncalled(Apply(s, CancelTest(l)), l) == Without(v.local, w) + Without(v.wq, w)
  {
  }

  lemma TestTouches(s: State, k: nat, l: nat)
    requires Enabled(s, CancelTest(k)) && l < |s.loops| && (k != l || !Apply(s, CancelTest(k)).loops[k].cancel.Reinsert?)
    ensures |Apply(s, CancelTest(k)).loops| == |s.loops| && Uncalled(Apply(s, CancelTest(k)), l) == Uncalled(s, l)
  {
  }

  lemma {:induction false} WithoutJoin(a: seq<nat>, b: seq<nat>, w: nat)
    requires NoDup(a + b)
    ensures Without(a + b, w) == Without(a, w) + Without(b, w)
  {
    if a == [] {
      assert a + b == b;
    } else {
      assert (a + b)[1..] == a[1..] + b;
      NoDupTail(a + b);
      if a[0] == w {
        assert w !in (a + b)[1..];
        NotThere(b, w);
      } else {
        WithoutJoin(a[1..], b, w);
        Associates([a[0]], Without(a[1..], w), Without(b, w));
      }
    }
  }

  lemma {:induction false} NotThere(q: seq<nat>, w: nat)
    requires w !in q
    ensures Without(q, w) == q
  {
    if q != [] {
      assert w !in q[1..];
      NotThere(q[1..], w);
    }
  }

  /** Callbacks that have run and works that wait for theirs: all that waited and have arrived, in this order. */
  lemma {:induction false} LoopOrder(s: State, steps: seq<Step>, l: nat)
    requires Inv(s) && IsRun(s, steps) && l < |s.loops|
    ensures |After(s, steps).loops| == |s.loops|
    ensures Calls(s, steps, l) + Uncalled(After(s, steps), l) ==
            Staying(Uncalled(s, l), AllTakenBack(s, steps, l)) + Arrivals(s, steps, l)
    decreases |steps|
  {
    if steps == [] {
      StayingAll(Uncalled(s, l), {});
      Nothing(Uncalled(s, l));
    } else {
      var t, more := Apply(s, steps[0]), steps[1..];
      StepKeepsInv(s, steps[0]);
      StepShifts(s, steps[0], l);
      LoopOrder(t, more, l);
      StepLoopOrder(s, steps[0], more, l);
      var gone := AllTakenBack(t, more, l);
      Associates(Called(s, steps[0], l), Calls(t, more, l), Uncalled(After(t, more), l));
      Associates(Called(s, steps[0], l), Staying(Uncalled(t, l), gone), Arrivals(t, more, l));
      Associates(Staying(Uncalled(s, l), TakenBack(s, steps[0], l) + gone), Staying(Arrival(s, steps[0], l), gone),
                 Arrivals(t, more, l));
    }
  }

  lemma StepLoopOrder(s: State, step: Step, more: seq<Step>, l: nat)
    requires Inv(s) && Enabled(s, step) && IsRun(Apply(s, step), more) && l < |s.loops| && l < |Apply(s, step).loops|
    ensures var gone := AllTakenBack(Apply(s, step), more, l);
            Called(s, step, l) + Staying(Uncalled(Apply(s, step), l), gone) ==
            Staying(Uncalled(s, l), TakenBack(s, step, l) + gone) + Staying(Arrival(s, step, l), gone)
  {
    var t := Apply(s, step);
    var gone := AllTakenBack(t, more, l);
    StepShifts(s, step, l);
    if TakenBack(s, step, l) != {} {
      UncalledOk(s, l);
      StayingWithout(Uncalled(s, l), s.loops[l].cancel.w, gone);
      Nothing(Staying(Uncalled(t, l), gone));
    } else {
      assert {} + gone == gone;
      StayingJoin(Uncalled(s, l), Arrival(s, step, l), gone);
      StayingJoin(Called(s, step, l), Uncalled(t, l), gone);
      CalledStays(s, step, more, l);
    }
  }

  lemma CalledStays(s: State, step: Step, more: seq<Step>, l: nat)
    requires Inv(s) && Enabled(s, step) && IsRun(Apply(s, step), more)
    ensures Staying(Called(s, step, l), AllTakenBack(Apply(s, step), more, l)) == Called(s, step, l)
  {
    if Called(s, step, l) != [] {
      var w := s.loops[l].local[0];
      StepKeepsInv(s, step);
      FinishedStays(Apply(s, step), more, l, w);
      StayingAll([w], AllTakenBack(Apply(s, step), more, l));
    }
  }

  /** In every run: the completion callbacks of a loop run in the order in which its works have been handed to it, by a
      worker or by a cancel, and at rest all of them have run. */
  lemma CalledInOrder(s0: State, steps: seq<Step>, l: nat)
    requires Init(s0) && IsRun(s0, steps) && l < |s0.loops|
    ensures Calls(s0, steps, l) <= Arrivals(s0, steps, l)
    ensures AtRest(After(s0, steps)) ==> Calls(s0, steps, l) == Arrivals(s0, steps, l)
  {
    InitInv(s0);
    RunKeepsInv(s0, steps);
    LoopOrder(s0, steps, l);
    Nothing(Arrivals(s0, steps, l));
    Nothing(Calls(s0, steps, l));
    if AtRest(After(s0, steps)) {
      LoopAtRest(After(s0, steps), l);
    }
  }
}
