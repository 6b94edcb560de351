/** First come, first served: in which order works are taken by the workers, which of them are taken before the workers
    exit, and which can be cancelled. */
module ThreadPoolOrder {
  import opened Basics
  import opened ThreadPool
  import opened ThreadPoolInv
  import opened ThreadPoolWakeups
  import opened ThreadPoolRuns
  import opened ThreadPoolProgress

  // ---------- what is handed in and what is taken, step by step ----------

  ghost function HandsIn(step: Step): seq<Item> {
    if step.Submit? then [Work(step.w)] else if step.PostExit? then [Exit] else []
  }

  /** What has been handed in, in the order of the steps. */
  ghost function Posts(steps: seq<Step>): seq<Item> {
    if steps == [] then [] else HandsIn(steps[0]) + Posts(steps[1..])
  }

  /** The work that a worker is about to call when it leaves the queue. */
  ghost function Taken(s: State, step: Step): seq<Item>
    requires Enabled(s, step)
  {
    if step.Take? && |Apply(s, step).workers| > step.i && Apply(s, step).workers[step.i].Running?
    then [Work(Apply(s, step).workers[step.i].w)] else []
  }

  /** The works that workers have taken, in the order of the steps. */
  ghost function Takes(s: State, steps: seq<Step>): seq<Item>
    requires IsRun(s, steps)
    decreases |steps|
  {
    if steps == [] then [] else Taken(s, steps[0]) + Takes(Apply(s, steps[0]), steps[1..])
  }

  /** No cancel has returned 0 for it. */
  ghost predicate Keeps(works: map<nat, WorkState>, x: Item) {
    x.Exit? || (x.id in works && !works[x.id].cancelReturnedZero)
  }

  ghost function Kept(q: seq<Item>, works: map<nat, WorkState>): seq<Item> {
    if q == [] then [] else (if Keeps(works, q[0]) then [q[0]] else []) + Kept(q[1..], works)
  }

  lemma {:induction false} KeptJoin(a: seq<Item>, b: seq<Item>, works: map<nat, WorkState>)
    ensures Kept(a + b, works) == Kept(a, works) + Kept(b, works)
  {
    if a == [] {
      assert a + b == b;
    } else {
      assert (a + b)[1..] == a[1..] + b;
      KeptJoin(a[1..], b, works);
      Associates(if Keeps(works, a[0]) then [a[0]] else [], Kept(a[1..], works), Kept(b, works));
    }
  }

  lemma {:induction false} KeptAll(q: seq<Item>, works: map<nat, WorkState>)
    requires forall x :: x in q ==> Keeps(works, x)
    ensures Kept(q, works) == q
  {
    if q != [] {
      assert forall x :: x in q[1..] ==> x in q;
      KeptAll(q[1..], works);
      assert q == [q[0]] + q[1..];
    }
  }

  lemma {:induction false} KeptWithout(q: seq<Item>, x: Item, works: map<nat, WorkState>)
    requires !Keeps(works, x)
    ensures Kept(Without(q, x), works) == Kept(q, works)
  {
    if q != [] && q[0] != x {
      KeptWithout(q[1..], x, works);
      assert ([q[0]] + Without(q[1..], x))[1..] == Without(q[1..], x);
    }
  }

  lemma {:induction false} InKept(q: seq<Item>, works: map<nat, WorkState>, x: Item)
    ensures x in Kept(q, works) <==> x in q && Keeps(works, x)
  {
    if q != [] {
      InKept(q[1..], works, x);
      assert x in q <==> x == q[0] || x in q[1..];
    }
  }

  // ---------- once taken, once cancelled ----------

  ghost predicate Out(v: WorkState) {
    v.place != Queued && !v.cancelReturnedZero
  }

  /** A cancel that has returned 0 stays so, and a work that has been taken is not cancelled any more. */
  ghost predicate Lasts(works: map<nat, WorkState>, works': map<nat, WorkState>, w: nat)
    requires w in works
  {
    && w in works' && (works[w].cancelReturnedZero ==> works'[w].cancelReturnedZero)
    && (Out(works[w]) ==> Out(works'[w]))
  }

  lemma StepLasts(s: State, step: Step, w: nat)
    requires Inv(s) && Enabled(s, step) && w in s.works
    ensures Lasts(s.works, Apply(s, step).works, w)
  {
    match step
    case Take(i, j) => TakeLasts(s, i, j, w);
    case Complete(i) => CompleteLasts(s, i, w);
    case MoveAside(l) => MoveAsideLasts(s, l, w);
    case NextCallback(l) => CallbackLasts(s, l, w);
    case CancelTest(l) => CancelLasts(s, l, w);
    case CancelInsert(l) => InsertLasts(s, l, w);
    case _ =>
  }

  lemma TakeLasts(s: State, i: nat, j: nat, w: nat)
    requires Inv(s) && Enabled(s, Take(i, j)) && w in s.works
    ensures Lasts(s.works, Apply(s, Take(i, j)).works, w)
  {
  }

  lemma CompleteLasts(s: State, i: nat, w: nat)
    requires Inv(s) && Enabled(s, Complete(i)) && w in s.works
    ensures Lasts(s.works, Apply(s, Complete(i)).works, w)
  {
  }

  lemma MoveAsideLasts(s: State, l: nat, w: nat)
    requires Inv(s) && Enabled(s, MoveAside(l)) && w in s.works
    ensures Lasts(s.works, Apply(s, MoveAside(l)).works, w)
  {
  }

  lemma CallbackLasts(s: State, l: nat, w: nat)
    requires Inv(s) && Enabled(s, NextCallback(l)) && w in s.works
    ensures Lasts(s.works, Apply(s, NextCallback(l)).works, w)
  {
  }

  /** What a cancel finds linked has not been taken, or has been cancelled before. */
  lemma CancelLasts(s: State, l: nat, w: nat)
    requires Inv(s) && Enabled(s, CancelTest(l)) && w in s.works
    ensures Lasts(s.works, Apply(s, CancelTest(l)).works, w)
  {
    assert LoopOk(s, l) && HistoryOk(s, s.loops[l].cancel.w);
  }

  lemma InsertLasts(s: State, l: nat, w: nat)
    requires Inv(s) && Enabled(s, CancelInsert(l)) && w in s.works
    ensures Lasts(s.works, Apply(s, CancelInsert(l)).works, w)
  {
  }

  lemma {:induction false} RunLasts(s: State, steps: seq<Step>, w: nat)
    requires Inv(s) && IsRun(s, steps) && w in s.works
    ensures Lasts(s.works, After(s, steps).works, w)
    decreases |steps|
  {
    if steps != [] {
      StepLasts(s, steps[0], w);
      StepKeepsInv(s, steps[0]);
      RunLasts(Apply(s, steps[0]), steps[1..], w);
    }
  }

  // ---------- the queue ----------

  /** How a step changes the queue: at its end, at its front, or by taking a cancelled work out. */
  lemma StepQueue(s: State, step: Step)
    requires Inv(s) && Enabled(s, step)
    ensures if step.CancelTest? then Apply(s, step).wq == s.wq || CancelsIn(s, step.l)
            else s.wq + HandsIn(step) == Taken(s, step) + Apply(s, step).wq
  {
    if step.Take? {
      TakeQueue(s, step.i, step.j);
    } else if step.CancelTest? {
      CancelQueue(s, step.l);
    } else {
      OtherQueue(s, step);
      Nothing(s.wq + HandsIn(step), s.wq + HandsIn(step));
    }
  }

  lemma TakeQueue(s: State, i: nat, j: nat)
    requires Inv(s) && Enabled(s, Take(i, j))
    ensures s.wq + [] == Taken(s, Take(i, j)) + Apply(s, Take(i, j)).wq
  {
    if s.wq != [] && s.wq[0].Work? {
      TakeWork(s, i, j);
      Front(s.wq);
    } else {
      TakeNone(s, i, j);
    }
    Nothing(s.wq, s.wq);
  }

  lemma Front(q: seq<Item>)
    requires q != []
    ensures [q[0]] + q[1..] == q
  {
  }

  lemma TakeWork(s: State, i: nat, j: nat)
    requires Enabled(s, Take(i, j)) && s.wq != [] && s.wq[0].Work?
    ensures Taken(s, Take(i, j)) == [s.wq[0]] && Apply(s, Take(i, j)).wq == s.wq[1..]
  {
  }

  lemma TakeNone(s: State, i: nat, j: nat)
    requires Enabled(s, Take(i, j)) && (s.wq == [] || s.wq[0].Exit?)
    ensures Taken(s, Take(i, j)) == [] && Apply(s, Take(i, j)).wq == s.wq
  {
  }

  lemma CancelQueue(s: State, l: nat)
    requires Inv(s) && Enabled(s, CancelTest(l))
    ensures Apply(s, CancelTest(l)).wq == s.wq || CancelsIn(s, l)
  {
  }

  lemma OtherQueue(s: State, step: Step)
    requires Enabled(s, step) && !step.Take? && !step.CancelTest?
    ensures Apply(s, step).wq == s.wq + HandsIn(step)
  {
    Nothing(s.wq, s.wq);
  }

  ghost predicate CancelsIn(s: State, l: nat) {
    && Enabled(s, CancelTest(l))
    && var w, t := s.loops[l].cancel.w, Apply(s, CancelTest(l));
       t.wq == Without(s.wq, Work(w)) && w in t.works && t.works[w].cancelReturnedZero
  }

  /** `works` are those at the end of the run. */
  lemma StepOrder(s: State, step: Step, more: seq<Step>)
    requires Inv(s) && Enabled(s, step) && IsRun(Apply(s, step), more)
    ensures var t, works := Apply(s, step), After(Apply(s, step), more).works;
            Kept(s.wq + HandsIn(step), works) == Taken(s, step) + Kept(t.wq, works)
  {
    var t := Apply(s, step);
    var works := After(t, more).works;
    StepKeepsInv(s, step);
    StepQueue(s, step);
    if step.CancelTest? {
      Nothing(s.wq, Kept(t.wq, works));
      if t.wq != s.wq {
        RunLasts(t, more, s.loops[step.l].cancel.w);
        KeptWithout(s.wq, Work(s.loops[step.l].cancel.w), works);
      }
    } else {
      KeptJoin(Taken(s, step), t.wq, works);
      TakenStays(s, step, more);
    }
  }

  lemma Nothing(q: seq<Item>, r: seq<Item>)
    ensures q + [] == q && [] + r == r
  {
  }

  lemma TakenStays(s: State, step: Step, more: seq<Step>)
    requires Inv(s) && Enabled(s, step) && IsRun(Apply(s, step), more)
    ensures Kept(Taken(s, step), After(Apply(s, step), more).works) == Taken(s, step)
  {
    var t := Apply(s, step);
    StepKeepsInv(s, step);
    if Taken(s, step) != [] {
      var w := t.workers[step.i].w;
      assert WorkerOk(t, step.i) && HistoryOk(t, w);
      RunLasts(t, more, w);
      KeptAll([Work(w)], After(t, more).works);
    }
  }

  /** What has been taken and what is queued: all that was queued and has been handed in, in its order, but for the
      works that have been cancelled. */
  lemma {:induction false} QueueOrder(s: State, steps: seq<Step>)
    requires Inv(s) && IsRun(s, steps)
    ensures Takes(s, steps) + After(s, steps).wq == Kept(s.wq + Posts(steps), After(s, steps).works)
    decreases |steps|
  {
    if steps == [] {
      QueuedIsKept(s);
      Nothing(s.wq, s.wq);
    } else {
      var t, more := Apply(s, steps[0]), steps[1..];
      var works := After(t, more).works;
      StepKeepsInv(s, steps[0]);
      QueueOrder(t, more);
      StepOrder(s, steps[0], more);
      OrderJoin(s.wq, HandsIn(steps[0]), Posts(more), Taken(s, steps[0]), t.wq, works);
      Associates(Taken(s, steps[0]), Takes(t, more), After(t, more).wq);
    }
  }

  lemma OrderJoin(q: seq<Item>, p: seq<Item>, ps: seq<Item>, x: seq<Item>, q': seq<Item>, works: map<nat, WorkState>)
    requires Kept(q + p, works) == x + Kept(q', works)
    ensures Kept(q + (p + ps), works) == x + Kept(q' + ps, works)
  {
    Associates(q, p, ps);
    KeptJoin(q + p, ps, works);
    KeptJoin(q', ps, works);
    Associates(x, Kept(q', works), Kept(ps, works));
  }

  lemma QueuedIsKept(s: State)
    requires Inv(s)
    ensures Kept(s.wq, s.works) == s.wq
  {
    forall x | x in s.wq
      ensures Keeps(s.works, x)
    {
      if x.Work? {
        assert HistoryOk(s, x.id);
      }
    }
    KeptAll(s.wq, s.works);
  }

  lemma {:induction false} TakesWorks(s: State, steps: seq<Step>)
    requires IsRun(s, steps)
    ensures Exit !in Takes(s, steps)
    decreases |steps|
  {
    if steps != [] {
      TakesWorks(Apply(s, steps[0]), steps[1..]);
    }
  }

  /** In every run: works are taken in the order of their submission, apart from those cancelled, and at rest, unless the
      pool has been shut down, all of them have been taken. Nothing is taken that was submitted after the shutdown. */
  lemma TakenInOrder(s0: State, steps: seq<Step>)
    requires Init(s0) && IsRun(s0, steps)
    ensures Takes(s0, steps) <= Kept(Posts(steps), After(s0, steps).works) && Exit !in Takes(s0, steps)
    ensures AtRest(After(s0, steps)) && !After(s0, steps).exitPosted ==>
              Takes(s0, steps) == Kept(Posts(steps), After(s0, steps).works)
  {
    InitInv(s0);
    RunKeepsInv(s0, steps);
    QueueOrder(s0, steps);
    TakesWorks(s0, steps);
    Nothing(Takes(s0, steps), Posts(steps));
    if AtRest(After(s0, steps)) {
      RestIsComplete(After(s0, steps));
    }
  }

  // ---------- the shutdown ----------

  lemma {:induction false} NewWorks(s: State, steps: seq<Step>, w: nat)
    requires Inv(s) && IsRun(s, steps) && Work(w) in Posts(steps)
    ensures w !in s.works && exists k :: 0 <= k < |steps| && steps[k].Submit? && steps[k].w == w
    decreases |steps|
  {
    if Work(w) in HandsIn(steps[0]) {
      assert steps[0].Submit? && steps[0].w == w;
    } else {
      StepKeepsInv(s, steps[0]);
      NewWorks(Apply(s, steps[0]), steps[1..], w);
      var k :| 0 <= k < |steps| - 1 && steps[1..][k].Submit? && steps[1..][k].w == w;
      assert steps[k + 1] == steps[1..][k];
      if w in s.works {
        StepLasts(s, steps[0], w);
      }
    }
  }

  lemma ExitOnce(a: seq<Item>, b: seq<Item>, c: seq<Item>, d: seq<Item>)
    requires Exit !in a && Exit !in c && b != [] && b[0] == Exit && a + b == c + ([Exit] + d)
    ensures b == [Exit] + d
  {
    var q, r := a + b, c + ([Exit] + d);
    assert q[|a|] == Exit && r[|c|] == Exit;
    NotShorter(a, c, q);
    NotShorter(c, a, r);
    assert q[|a|..] == b && r[|c|..] == [Exit] + d;
  }

  lemma NotShorter(a: seq<Item>, c: seq<Item>, q: seq<Item>)
    requires |a| < |q| && q[|a|] == Exit && Exit !in c && c <= q
    ensures |c| <= |a|
  {
    assert forall k :: 0 <= k < |c| ==> q[k] == c[k];
  }

  /** Only what was handed in after the exit message is left behind it. */
  lemma LeftBehindExit(s: State, j: nat, after: seq<Step>)
    requires Inv(s) && Enabled(s, PostExit(j)) && IsRun(Apply(s, PostExit(j)), after)
    requires var t := After(Apply(s, PostExit(j)), after); t.wq != [] && t.wq[0] == Exit
    ensures var t := After(Apply(s, PostExit(j)), after);
            forall w :: Work(w) in t.wq ==> Work(w) in Posts(after)
  {
    var u := Apply(s, PostExit(j));
    var t := After(u, after);
    StepKeepsInv(s, PostExit(j));
    QueueOrder(u, after);
    TakesWorks(u, after);
    var c, d := Kept(s.wq, t.works), Kept(Posts(after), t.works);
    assert u.wq == s.wq + [Exit];
    Associates(s.wq, [Exit], Posts(after));
    KeptJoin(s.wq, [Exit] + Posts(after), t.works);
    KeptJoin([Exit], Posts(after), t.works);
    KeptAll([Exit], t.works);
    InKept(s.wq, t.works, Exit);
    ExitOnce(Takes(u, after), t.wq, c, d);
    forall w | Work(w) in t.wq
      ensures Work(w) in Posts(after)
    {
      assert Work(w) in d;
      InKept(Posts(after), t.works, Work(w));
    }
  }

  /** A shutdown at any point of any run: when the threads have come to rest, all workers have exited, every work that had
      been submitted by then has had its completion callback, once, and a work without it was submitted later. */
  lemma SubmittedBeforeExitCompletes(s0: State, before: seq<Step>, j: nat, after: seq<Step>)
    requires Init(s0) && IsRun(s0, before) && Enabled(After(s0, before), PostExit(j))
    requires IsRun(Apply(After(s0, before), PostExit(j)), after)
    requires AtRest(After(Apply(After(s0, before), PostExit(j)), after))
    ensures var t := After(Apply(After(s0, before), PostExit(j)), after);
            && AllExited(t)
            && (forall w :: w in After(s0, before).works ==> w in t.works && t.works[w].done == 1)
            && (forall w :: w in t.works && t.works[w].done != 1 ==>
                  exists k :: 0 <= k < |after| && after[k].Submit? && after[k].w == w)
  {
    InitInv(s0);
    RunKeepsInv(s0, before);
    var s := After(s0, before);
    var u := Apply(s, PostExit(j));
    StepKeepsInv(s, PostExit(j));
    RunKeepsInv(u, after);
    var t := After(u, after);
    ExitStays(u, after);
    RestIsComplete(t);
    LeftBehindExit(s, j, after);
    forall w | w in t.works && t.works[w].done != 1
      ensures w !in s.works && exists k :: 0 <= k < |after| && after[k].Submit? && after[k].w == w
    {
      assert HistoryOk(t, w);
      NewWorks(u, after, w);
    }
    forall w | w in s.works
      ensures w in t.works
    {
      RunLasts(u, after, w);
    }
  }

  lemma {:induction false} ExitStays(s: State, steps: seq<Step>)
    requires IsRun(s, steps) && s.exitPosted
    ensures After(s, steps).exitPosted
    decreases |steps|
  {
    if steps != [] {
      ExitStays(Apply(s, steps[0]), steps[1..]);
    }
  }

  // ---------- cancelling ----------

  lemma {:induction false} AllSubmitted(s: State, steps: seq<Step>, w: nat)
    requires Inv(s) && IsRun(s, steps) && w in After(s, steps).works && w !in s.works
    ensures Work(w) in Posts(steps)
    decreases |steps|
  {
    StepKeepsInv(s, steps[0]);
    if w in Apply(s, steps[0]).works {
      StepSubmits(s, steps[0], w);
    } else {
      AllSubmitted(Apply(s, steps[0]), steps[1..], w);
    }
  }

  lemma StepSubmits(s: State, step: Step, w: nat)
    requires Inv(s) && Enabled(s, step) && w !in s.works && w in Apply(s, step).works
    ensures step.Submit? && step.w == w
  {
    assert forall i :: 0 <= i < |s.workers| ==> WorkerOk(s, i);
  }

  lemma {:induction false} TakenIsOut(s: State, steps: seq<Step>, w: nat)
    requires Inv(s) && IsRun(s, steps) && Work(w) in Takes(s, steps)
    ensures w in After(s, steps).works && Out(After(s, steps).works[w])
    decreases |steps|
  {
    var t := Apply(s, steps[0]);
    StepKeepsInv(s, steps[0]);
    if Work(w) in Taken(s, steps[0]) {
      assert WorkerOk(t, steps[0].i) && HistoryOk(t, w);
      RunLasts(t, steps[1..], w);
    } else {
      TakenIsOut(t, steps[1..], w);
    }
  }

  /** What a cancel finds when it has both mutexes. */
  lemma CancelFinds(s: State, l: nat)
    requires Inv(s) && Enabled(s, CancelTest(l))
    ensures Apply(s, CancelTest(l)).loops[l].cancel.Reinsert? <==> !Out(s.works[s.loops[l].cancel.w])
  {
    var w := s.loops[l].cancel.w;
    assert LoopOk(s, l) && HistoryOk(s, w) && PlaceOk(s, w);
  }

  /** In every run: a cancel succeeds, and so returns 0, exactly when no worker has taken the work before. */
  lemma CancelSucceedsExactly(s0: State, steps: seq<Step>, l: nat)
    requires Init(s0) && IsRun(s0, steps) && Enabled(After(s0, steps), CancelTest(l))
    ensures var s := After(s0, steps);
            var t := Apply(s, CancelTest(l));
            && (t.loops[l].cancel == Reinsert(s.loops[l].cancel.w) <==> Work(s.loops[l].cancel.w) !in Takes(s0, steps))
            && (t.loops[l].cancel.Reinsert? ==>
                  s.loops[l].cancel.w in t.works && t.works[s.loops[l].cancel.w].cancelReturnedZero)
            && (!t.loops[l].cancel.Reinsert? ==> t.works == s.works && t.loops[l].cancel.Idle?)
  {
    var s := After(s0, steps);
    var w := s.loops[l].cancel.w;
    InitInv(s0);
    RunKeepsInv(s0, steps);
    CancelFinds(s, l);
    if Work(w) in Takes(s0, steps) {
      TakenIsOut(s0, steps, w);
    } else if Out(s.works[w]) {
      OutIsTaken(s0, steps, w);
    }
  }

  lemma OutIsTaken(s0: State, steps: seq<Step>, w: nat)
    requires Init(s0) && IsRun(s0, steps) && w in After(s0, steps).works && Out(After(s0, steps).works[w])
    ensures Work(w) in Takes(s0, steps)
  {
    var s := After(s0, steps);
    InitInv(s0);
    RunKeepsInv(s0, steps);
    AllSubmitted(s0, steps, w);
    QueueOrder(s0, steps);
    Nothing(Takes(s0, steps), Posts(steps));
    InKept(Posts(steps), s.works, Work(w));
    assert Work(w) !in s.wq;
  }
}
