/** Where the queue node of each work is, and what has happened to the work: how each step treats them. */
module ThreadPoolPlaces {
  import opened Basics
  import opened ThreadPool
  import opened ThreadPoolInv
  import opened ThreadPoolWakeups

  ghost predicate Tracked(s: State) {
    Placed(s) && Histories(s)
  }

  /** Only `x` may have entered or left the queue. */
  ghost predicate SameBut<X(!new)>(q: seq<X>, q': seq<X>, x: X) {
    NoDup(q') && forall y :: y != x ==> (y in q' <==> y in q)
  }

  ghost predicate LoopSameBut(v: Loop, v': Loop, w: nat) {
    && SameBut(v.wq, v'.wq, w) && SameBut(v.local, v'.local, w)
    && (v'.cancel.Reinsert? && v'.cancel.w != w ==> v'.cancel == v.cancel)
    && (v.cancel.Reinsert? && v.cancel.w != w ==> v'.cancel == v.cancel)
    && (v'.cancel.HasGlobal? ==> v'.cancel == v.cancel)
  }

  ghost predicate WorkerSameBut(pc: WorkerPc, pc': WorkerPc, w: nat) {
    forall k :: k != w ==> (HasWork(pc', k) <==> HasWork(pc, k))
  }

  /** Everything hangs where it did, but for the work `w`. */
  ghost predicate OnlyMoved(s: State, s': State, w: nat) {
    && s'.works.Keys == s.works.Keys + {w}
    && (forall k :: k in s.works && k != w ==> s'.works[k] == s.works[k])
    && SameBut(s.wq, s'.wq, Work(w))
    && |s'.loops| == |s.loops| && (forall l :: 0 <= l < |s.loops| ==> LoopSameBut(s.loops[l], s'.loops[l], w))
    && |s'.workers| == |s.workers| && (forall i :: 0 <= i < |s.workers| ==> WorkerSameBut(s.workers[i], s'.workers[i], w))
  }

  /** The work `w` hangs in one place and in no other. */
  ghost predicate OnlyIn(s: State, w: nat)
    requires w in s.works
  {
    var v := s.works[w];
    && v.loop < |s.loops|
    && (Work(w) in s.wq <==> v.place == Queued)
    && (forall l :: 0 <= l < |s.loops| ==>
          && (w in s.loops[l].wq <==> v.place == InLoop && l == v.loop)
          && (w in s.loops[l].local <==> v.place == InLocal && l == v.loop)
          && (s.loops[l].cancel == Reinsert(w) <==> v.place == Between && l == v.loop)
          && (s.loops[l].cancel == HasGlobal(w) ==> l == v.loop && !v.place.Finished?))
    && (forall i :: 0 <= i < |s.workers| ==> (HasWork(s.workers[i], w) <==> v.place == Held(i)))
    && (v.place.Held? ==> v.place.worker < |s.workers|)
  }

  lemma {:induction false} PlacedIsOnlyIn(s: State, w: nat)
    requires Placed(s) && w in s.works
    ensures OnlyIn(s, w)
  {
    assert PlaceOk(s, w);
    forall l | 0 <= l < |s.loops|
      ensures (w in s.loops[l].wq <==> s.works[w].place == InLoop && l == s.works[w].loop)
      ensures (w in s.loops[l].local <==> s.works[w].place == InLocal && l == s.works[w].loop)
      ensures (s.loops[l].cancel == Reinsert(w) <==> s.works[w].place == Between && l == s.works[w].loop)
      ensures (s.loops[l].cancel == HasGlobal(w) ==> l == s.works[w].loop && !s.works[w].place.Finished?)
    {
      assert LoopOk(s, l);
    }
    forall i | 0 <= i < |s.workers| ensures HasWork(s.workers[i], w) <==> s.works[w].place == Held(i) {
      assert WorkerOk(s, i);
    }
  }

  lemma MovedPlaces(s: State, s': State, w: nat)
    requires Placed(s) && OnlyMoved(s, s', w) && OnlyIn(s', w)
    ensures Placed(s')
  {
    forall k | k in s'.works ensures PlaceOk(s', k) {
      if k != w {
        assert PlaceOk(s, k);
        var l := s.works[k].loop;
        assert LoopSameBut(s.loops[l], s'.loops[l], w);
        if s.works[k].place.Held? {
          assert WorkerSameBut(s.workers[s.works[k].place.worker], s'.workers[s.works[k].place.worker], w);
        }
      }
    }
    MovedContainers(s, s', w);
  }

  lemma MovedContainers(s: State, s': State, w: nat)
    requires Placed(s) && OnlyMoved(s, s', w) && OnlyIn(s', w)
    ensures forall l :: 0 <= l < |s'.loops| ==> LoopOk(s', l)
    ensures forall i :: 0 <= i < |s'.workers| ==> WorkerOk(s', i)
    ensures QueueOk(s')
  {
    forall l | 0 <= l < |s'.loops| ensures LoopOk(s', l) {
      assert LoopOk(s, l) && LoopSameBut(s.loops[l], s'.loops[l], w);
    }
    forall i | 0 <= i < |s'.workers| ensures WorkerOk(s', i) {
      assert WorkerOk(s, i) && WorkerSameBut(s.workers[i], s'.workers[i], w);
      if s'.workers[i].Running? || s'.workers[i].Ran? {
        assert HasWork(s'.workers[i], s'.workers[i].w);
      }
    }
  }

  lemma MovedHistories(s: State, s': State, w: nat)
    requires Tracked(s) && OnlyMoved(s, s', w) && HistoryOk(s', w)
    requires forall i :: 0 <= i < |s.workers| ==>
               s'.workers[i] == s.workers[i] || HasWork(s.workers[i], w) || !(s.workers[i].Running? || s.workers[i].Ran?)
    ensures Histories(s')
  {
    forall k | k in s'.works ensures HistoryOk(s', k) {
      if k != w {
        assert HistoryOk(s, k) && PlaceOk(s, k);
      }
    }
  }

  /** The step from `s` to `s'` puts the work `w` in one place and leaves all others where they are. */
  ghost predicate Moves(s: State, s': State, w: nat) {
    Stays(s, s', w) && Lands(s', w)
  }

  ghost predicate Stays(s: State, s': State, w: nat) {
    && OnlyMoved(s, s', w)
    && forall i :: 0 <= i < |s.workers| ==>
         s'.workers[i] == s.workers[i] || HasWork(s.workers[i], w) || !(s.workers[i].Running? || s.workers[i].Ran?)
  }

  ghost predicate Lands(s: State, w: nat) {
    w in s.works && OnlyIn(s, w) && HistoryOk(s, w)
  }

  lemma Moved(s: State, s': State, w: nat)
    requires Tracked(s) && Moves(s, s', w)
    ensures Tracked(s')
  {
    MovedPlaces(s, s', w);
    MovedHistories(s, s', w);
  }

  // ---------- steps that move one work ----------

  lemma LoopsStay(s: State, w: nat)
    requires Placed(s)
    ensures forall l :: 0 <= l < |s.loops| ==> LoopSameBut(s.loops[l], s.loops[l], w)
  {
    forall l | 0 <= l < |s.loops| ensures LoopSameBut(s.loops[l], s.loops[l], w) {
      assert LoopOk(s, l);
    }
  }

  lemma SubmitKeepsTracked(s: State, w: nat, l: nat, j: nat)
    requires Tracked(s) && Enabled(s, Submit(w, l, j))
    ensures Tracked(Apply(s, Submit(w, l, j)))
  {
    SubmitMoves(s, w, l, j);
    Moved(s, Apply(s, Submit(w, l, j)), w);
  }

  lemma SubmitMoves(s: State, w: nat, l: nat, j: nat)
    requires Tracked(s) && Enabled(s, Submit(w, l, j))
    ensures Moves(s, Apply(s, Submit(w, l, j)), w)
  {
    SubmitStays(s, w, l, j);
    SubmitLands(s, w, l, j);
  }

  lemma SubmitStays(s: State, w: nat, l: nat, j: nat)
    requires Tracked(s) && Enabled(s, Submit(w, l, j))
    ensures Stays(s, Apply(s, Submit(w, l, j)), w)
  {
    LoopsStay(s, w);
    NoDupSnoc(s.wq, Work(w));
  }

  lemma SubmitLands(s: State, w: nat, l: nat, j: nat)
    requires Tracked(s) && Enabled(s, Submit(w, l, j))
    ensures Lands(Apply(s, Submit(w, l, j)), w)
  {
    FreshIsNowhere(s, w);
  }

  lemma FreshIsNowhere(s: State, w: nat)
    requires Placed(s) && w !in s.works
    ensures Work(w) !in s.wq && forall i :: 0 <= i < |s.workers| ==> !HasWork(s.workers[i], w)
    ensures forall l :: 0 <= l < |s.loops| ==>
      w !in s.loops[l].wq && w !in s.loops[l].local && s.loops[l].cancel != Reinsert(w) && s.loops[l].cancel != HasGlobal(w)
  {
    forall l | 0 <= l < |s.loops|
      ensures w !in s.loops[l].wq && w !in s.loops[l].local && s.loops[l].cancel != Reinsert(w) && s.loops[l].cancel != HasGlobal(w)
    {
      assert LoopOk(s, l);
    }
    forall i | 0 <= i < |s.workers| ensures !HasWork(s.workers[i], w) {
      assert WorkerOk(s, i);
    }
  }

  lemma TakeKeepsTracked(s: State, i: nat, j: nat)
    requires Tracked(s) && Enabled(s, Take(i, j)) && s.wq != [] && s.wq[0].Work?
    ensures Tracked(Apply(s, Take(i, j)))
  {
    TakeMoves(s, i, j);
    Moved(s, Apply(s, Take(i, j)), s.wq[0].id);
  }

  lemma TakeMoves(s: State, i: nat, j: nat)
    requires Tracked(s) && Enabled(s, Take(i, j)) && s.wq != [] && s.wq[0].Work?
    ensures Moves(s, Apply(s, Take(i, j)), s.wq[0].id)
  {
    TakeStays(s, i, j);
    TakeLands(s, i, j);
  }

  lemma TakeStays(s: State, i: nat, j: nat)
    requires Tracked(s) && Enabled(s, Take(i, j)) && s.wq != [] && s.wq[0].Work?
    ensures Stays(s, Apply(s, Take(i, j)), s.wq[0].id)
  {
    LoopsStay(s, s.wq[0].id);
    NoDupTail(s.wq);
    assert Work(s.wq[0].id) in s.wq;
  }

  lemma TakeLands(s: State, i: nat, j: nat)
    requires Tracked(s) && Enabled(s, Take(i, j)) && s.wq != [] && s.wq[0].Work?
    ensures Lands(Apply(s, Take(i, j)), s.wq[0].id)
  {
    NoDupTail(s.wq);
    PlacedIsOnlyIn(s, s.wq[0].id);
    assert HistoryOk(s, s.wq[0].id);
  }

  lemma CallKeepsTracked(s: State, i: nat)
    requires Tracked(s) && Enabled(s, Call(i))
    ensures Tracked(Apply(s, Call(i)))
  {
    CallMoves(s, i);
    Moved(s, Apply(s, Call(i)), s.workers[i].w);
  }

  lemma CallMoves(s: State, i: nat)
    requires Tracked(s) && Enabled(s, Call(i))
    ensures Moves(s, Apply(s, Call(i)), s.workers[i].w)
  {
    assert WorkerOk(s, i);
    LoopsStay(s, s.workers[i].w);
    PlacedIsOnlyIn(s, s.workers[i].w);
    assert HistoryOk(s, s.workers[i].w);
  }

  lemma CompleteKeepsTracked(s: State, i: nat)
    requires Tracked(s) && Enabled(s, Complete(i))
    ensures Tracked(Apply(s, Complete(i)))
  {
    CompleteMoves(s, i);
    Moved(s, Apply(s, Complete(i)), s.workers[i].w);
  }

  lemma CompleteMoves(s: State, i: nat)
    requires Tracked(s) && Enabled(s, Complete(i))
    ensures Moves(s, Apply(s, Complete(i)), s.workers[i].w)
  {
    CompleteStays(s, i);
    CompleteLands(s, i);
  }

  lemma CompleteStays(s: State, i: nat)
    requires Tracked(s) && Enabled(s, Complete(i))
    ensures Stays(s, Apply(s, Complete(i)), s.workers[i].w)
  {
    var w := s.workers[i].w;
    var l := s.works[w].loop;
    assert WorkerOk(s, i) && LoopOk(s, l);
    LoopsStay(s, w);
    PlacedIsOnlyIn(s, w);
    NoDupSnoc(s.loops[l].wq, w);
  }

  lemma CompleteLands(s: State, i: nat)
    requires Tracked(s) && Enabled(s, Complete(i))
    ensures Lands(Apply(s, Complete(i)), s.workers[i].w)
  {
    var w := s.workers[i].w;
    assert WorkerOk(s, i);
    PlacedIsOnlyIn(s, w);
    assert HistoryOk(s, w);
  }

  lemma CallbackKeepsTracked(s: State, l: nat)
    requires Tracked(s) && Enabled(s, NextCallback(l)) && s.loops[l].local != []
    ensures Tracked(Apply(s, NextCallback(l)))
  {
    CallbackMoves(s, l);
    Moved(s, Apply(s, NextCallback(l)), s.loops[l].local[0]);
  }

  lemma CallbackMoves(s: State, l: nat)
    requires Tracked(s) && Enabled(s, NextCallback(l)) && s.loops[l].local != []
    ensures Moves(s, Apply(s, NextCallback(l)), s.loops[l].local[0])
  {
    CallbackStays(s, l);
    CallbackLands(s, l);
  }

  lemma CallbackStays(s: State, l: nat)
    requires Tracked(s) && Enabled(s, NextCallback(l)) && s.loops[l].local != []
    ensures Stays(s, Apply(s, NextCallback(l)), s.loops[l].local[0])
  {
    assert LoopOk(s, l);
    LoopsStay(s, s.loops[l].local[0]);
    NoDupTail(s.loops[l].local);
  }

  lemma CallbackLands(s: State, l: nat)
    requires Tracked(s) && Enabled(s, NextCallback(l)) && s.loops[l].local != []
    ensures Lands(Apply(s, NextCallback(l)), s.loops[l].local[0])
  {
    var w := s.loops[l].local[0];
    assert LoopOk(s, l) && w in s.loops[l].local;
    NoDupTail(s.loops[l].local);
    PlacedIsOnlyIn(s, w);
    assert HistoryOk(s, w);
  }

  lemma CancelKeepsTracked(s: State, l: nat)
    requires Tracked(s) && Enabled(s, CancelTest(l))
    requires s.loops[l].cancel.w in Apply(s, CancelTest(l)).works && Apply(s, CancelTest(l)).loops[l].cancel.Reinsert?
    ensures Tracked(Apply(s, CancelTest(l)))
  {
    CancelMoves(s, l);
    Moved(s, Apply(s, CancelTest(l)), s.loops[l].cancel.w);
  }

  /** A queue without an element: all others, once. */
  lemma Unlinked<X(!new)>(q: seq<X>, x: X)
    requires NoDup(q)
    ensures NoDup(Without(q, x)) && SameBut(q, Without(q, x), x) && x !in Without(q, x)
  {
    NoDupWithout(q, x);
    forall y ensures y in Without(q, x) <==> y in q && y != x {
      InWithout(q, x, y);
    }
  }

  lemma CancelMoves(s: State, l: nat)
    requires Tracked(s) && Enabled(s, CancelTest(l))
    requires s.loops[l].cancel.w in Apply(s, CancelTest(l)).works && Apply(s, CancelTest(l)).loops[l].cancel.Reinsert?
    ensures Moves(s, Apply(s, CancelTest(l)), s.loops[l].cancel.w)
  {
    CancelStays(s, l);
    CancelLands(s, l);
  }

  lemma CancelStays(s: State, l: nat)
    requires Tracked(s) && Enabled(s, CancelTest(l))
    requires s.loops[l].cancel.w in Apply(s, CancelTest(l)).works && Apply(s, CancelTest(l)).loops[l].cancel.Reinsert?
    ensures Stays(s, Apply(s, CancelTest(l)), s.loops[l].cancel.w)
  {
    var w := s.loops[l].cancel.w;
    assert LoopOk(s, l);
    LoopsStay(s, w);
    Unlinked(s.wq, Work(w));
    Unlinked(s.loops[l].wq, w);
    Unlinked(s.loops[l].local, w);
  }

  lemma CancelLands(s: State, l: nat)
    requires Tracked(s) && Enabled(s, CancelTest(l))
    requires s.loops[l].cancel.w in Apply(s, CancelTest(l)).works && Apply(s, CancelTest(l)).loops[l].cancel.Reinsert?
    ensures Lands(Apply(s, CancelTest(l)), s.loops[l].cancel.w)
  {
    var w := s.loops[l].cancel.w;
    PlacedIsOnlyIn(s, w);
    assert HistoryOk(s, w) && LoopOk(s, l);
    Unlinked(s.wq, Work(w));
    Unlinked(s.loops[l].wq, w);
    Unlinked(s.loops[l].local, w);
  }

  lemma ReinsertKeepsTracked(s: State, l: nat)
    requires Tracked(s) && Enabled(s, CancelInsert(l))
    ensures Tracked(Apply(s, CancelInsert(l)))
  {
    ReinsertMoves(s, l);
    Moved(s, Apply(s, CancelInsert(l)), s.loops[l].cancel.w);
  }

  lemma ReinsertMoves(s: State, l: nat)
    requires Tracked(s) && Enabled(s, CancelInsert(l))
    ensures Moves(s, Apply(s, CancelInsert(l)), s.loops[l].cancel.w)
  {
    ReinsertStays(s, l);
    ReinsertLands(s, l);
  }

  lemma ReinsertStays(s: State, l: nat)
    requires Tracked(s) && Enabled(s, CancelInsert(l))
    ensures Stays(s, Apply(s, CancelInsert(l)), s.loops[l].cancel.w)
  {
    var w := s.loops[l].cancel.w;
    assert LoopOk(s, l);
    LoopsStay(s, w);
    PlacedIsOnlyIn(s, w);
    NoDupSnoc(s.loops[l].wq, w);
  }

  lemma ReinsertLands(s: State, l: nat)
    requires Tracked(s) && Enabled(s, CancelInsert(l))
    ensures Lands(Apply(s, CancelInsert(l)), s.loops[l].cancel.w)
  {
    var w := s.loops[l].cancel.w;
    assert LoopOk(s, l);
    PlacedIsOnlyIn(s, w);
    assert HistoryOk(s, w);
  }

  // ---------- steps that move none, or a whole queue ----------

  ghost predicate SameNodes(v: Loop, v': Loop) {
    && v'.wq == v.wq && v'.local == v.local
    && (v'.cancel.Reinsert? || v.cancel.Reinsert? ==> v'.cancel == v.cancel)
    && (v'.cancel.HasGlobal? ==> v'.cancel == v.cancel)
  }

  /** No node has moved. */
  lemma Unmoved(s: State, s': State)
    requires Tracked(s) && s'.works == s.works && QueueOk(s')
    requires forall w :: Work(w) in s.wq <==> Work(w) in s'.wq
    requires |s'.loops| == |s.loops| && forall l :: 0 <= l < |s.loops| ==> SameNodes(s.loops[l], s'.loops[l])
    requires |s'.workers| == |s.workers|
    requires forall i :: 0 <= i < |s.workers| ==>
      s'.workers[i] == s.workers[i] ||
      !(s.workers[i].Running? || s.workers[i].Ran? || s'.workers[i].Running? || s'.workers[i].Ran?)
    ensures Tracked(s')
  {
    forall w | w in s'.works ensures PlaceOk(s', w) && HistoryOk(s', w) {
      assert PlaceOk(s, w) && HistoryOk(s, w);
      assert SameNodes(s.loops[s.works[w].loop], s'.loops[s.works[w].loop]);
    }
    forall l | 0 <= l < |s'.loops| ensures LoopOk(s', l) {
      assert LoopOk(s, l) && SameNodes(s.loops[l], s'.loops[l]);
    }
    forall i | 0 <= i < |s'.workers| ensures WorkerOk(s', i) {
      assert WorkerOk(s, i);
    }
  }

  lemma ExitKeepsTracked(s: State, j: nat)
    requires Tracked(s) && Enabled(s, PostExit(j)) && Exit !in s.wq
    ensures Tracked(Apply(s, PostExit(j)))
  {
    NoDupSnoc(s.wq, Exit);
    Unmoved(s, Apply(s, PostExit(j)));
  }

  /** A cancel that comes too late leaves everything where it is. */
  lemma LateCancelKeepsTracked(s: State, l: nat)
    requires Tracked(s) && Enabled(s, CancelTest(l)) && Apply(s, CancelTest(l)).loops[l].cancel.Idle?
    ensures Tracked(Apply(s, CancelTest(l)))
  {
    Unmoved(s, Apply(s, CancelTest(l)));
  }

  ghost predicate MovesNone(s: State, step: Step) {
    match step
    case Spurious(_) => true
    case WorkerSend(_) => true
    case DrainFd(_) => true
    case VisitHandle(_) => true
    case CancelSendStep(_) => true
    case Take(_, _) => s.wq == [] || s.wq[0].Exit?
    case NextCallback(l) => l < |s.loops| && s.loops[l].local == []
    case _ => false
  }

  lemma QuietPoolStep(s: State, step: Step)
    requires Tracked(s) && Enabled(s, step) && MovesNone(s, step) && (step.Spurious? || step.Take?)
    ensures Tracked(Apply(s, step))
  {
    Unmoved(s, Apply(s, step));
  }

  lemma QuietSendStep(s: State, step: Step)
    requires Tracked(s) && Enabled(s, step) && (step.WorkerSend? || step.CancelSendStep?)
    ensures Tracked(Apply(s, step))
  {
    Unmoved(s, Apply(s, step));
  }

  lemma QuietLoopStep(s: State, step: Step)
    requires Tracked(s) && Enabled(s, step) && MovesNone(s, step)
    requires step.DrainFd? || step.VisitHandle? || step.NextCallback?
    ensures Tracked(Apply(s, step))
  {
    Unmoved(s, Apply(s, step));
  }

  lemma QuietStepKeepsTracked(s: State, step: Step)
    requires Tracked(s) && Enabled(s, step) && MovesNone(s, step)
    ensures Tracked(Apply(s, step))
  {
    if step.Spurious? || step.Take? {
      QuietPoolStep(s, step);
    } else if step.WorkerSend? || step.CancelSendStep? {
      QuietSendStep(s, step);
    } else {
      QuietLoopStep(s, step);
    }
  }

  lemma LockKeepsTracked(s: State, l: nat, w: nat)
    requires Tracked(s) && Enabled(s, CancelLock(l, w))
    ensures Tracked(Apply(s, CancelLock(l, w)))
  {
    var s' := Apply(s, CancelLock(l, w));
    var s1 := SetLoop(s, l, s.loops[l].(cancel := Idle));
    Unmoved(s, s1);
    forall k | k in s'.works ensures PlaceOk(s', k) && HistoryOk(s', k) {
      assert PlaceOk(s1, k) && HistoryOk(s1, k);
    }
    forall k | 0 <= k < |s'.loops| ensures LoopOk(s', k) {
      assert LoopOk(s1, k);
    }
    forall i | 0 <= i < |s'.workers| ensures WorkerOk(s', i) {
      assert WorkerOk(s1, i);
    }
  }

  /** The whole queue of a loop is moved aside. */
  lemma MoveAsideKeepsTracked(s: State, l: nat)
    requires Tracked(s) && Enabled(s, MoveAside(l)) && s.loops[l].local == []
    ensures Tracked(Apply(s, MoveAside(l)))
  {
    var s' := Apply(s, MoveAside(l));
    AsideWorks(s, l);
    forall k | 0 <= k < |s'.loops| ensures LoopOk(s', k) {
      assert LoopOk(s, k) && LoopOk(s, l);
    }
    AsideWorkers(s, l);
  }

  lemma AsideWorks(s: State, l: nat)
    requires Tracked(s) && Enabled(s, MoveAside(l)) && s.loops[l].local == []
    ensures var s' := Apply(s, MoveAside(l)); forall w :: w in s'.works ==> PlaceOk(s', w) && HistoryOk(s', w)
  {
    var s' := Apply(s, MoveAside(l));
    forall w | w in s'.works ensures PlaceOk(s', w) && HistoryOk(s', w) {
      assert PlaceOk(s, w) && HistoryOk(s, w) && LoopOk(s, l);
    }
  }

  lemma AsideWorkers(s: State, l: nat)
    requires Tracked(s) && Enabled(s, MoveAside(l)) && s.loops[l].local == []
    ensures var s' := Apply(s, MoveAside(l)); forall i :: 0 <= i < |s'.workers| ==> WorkerOk(s', i)
    ensures QueueOk(Apply(s, MoveAside(l)))
  {
    var s' := Apply(s, MoveAside(l));
    assert LoopOk(s, l);
    forall i | 0 <= i < |s'.workers| ensures WorkerOk(s', i) {
      assert WorkerOk(s, i);
    }
  }
}
