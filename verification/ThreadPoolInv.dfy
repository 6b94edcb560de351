/** What every step of the thread pool keeps. */
module ThreadPoolInv {
  import opened Basics
  import opened ThreadPool

  // ---------- every work hangs in the one place its node is in ----------

  ghost predicate HasWork(pc: WorkerPc, w: nat) {
    pc == Running(w) || pc == Ran(w)
  }

  ghost predicate PlaceOk(s: State, w: nat)
    requires w in s.works
  {
    var v := s.works[w];
    && v.loop < |s.loops|
    && match v.place
       case Queued => Work(w) in s.wq
       case Held(i) => i < |s.workers| && HasWork(s.workers[i], w)
       case InLoop => w in s.loops[v.loop].wq
       case InLocal => w in s.loops[v.loop].local
       case Between => s.loops[v.loop].cancel == Reinsert(w)
       case Finished => true
  }

  ghost predicate LoopHolds(s: State, l: nat, place: Place, q: seq<nat>) {
    NoDup(q) && forall w :: w in q ==> w in s.works && s.works[w].place == place && s.works[w].loop == l
  }

  ghost predicate LoopOk(s: State, l: nat)
    requires l < |s.loops|
  {
    var v := s.loops[l];
    && LoopHolds(s, l, InLoop, v.wq) && LoopHolds(s, l, InLocal, v.local)
    && (v.cancel.Reinsert? ==> v.cancel.w in s.works && s.works[v.cancel.w].place == Between && s.works[v.cancel.w].loop == l)
    && (v.cancel.HasGlobal? ==>
          v.cancel.w in s.works && !s.works[v.cancel.w].place.Finished? && s.works[v.cancel.w].loop == l)
  }

  ghost predicate WorkerOk(s: State, i: nat)
    requires i < |s.workers|
  {
    s.workers[i].Running? || s.workers[i].Ran? ==>
      s.workers[i].w in s.works && s.works[s.workers[i].w].place == Held(i)
  }

  ghost predicate QueueOk(s: State) {
    NoDup(s.wq) && forall w :: Work(w) in s.wq ==> w in s.works && s.works[w].place == Queued
  }

  ghost predicate Placed(s: State) {
    && (forall w :: w in s.works ==> PlaceOk(s, w))
    && (forall l :: 0 <= l < |s.loops| ==> LoopOk(s, l))
    && (forall i :: 0 <= i < |s.workers| ==> WorkerOk(s, i))
    && QueueOk(s)
  }

  // ---------- what has happened to a work ----------

  /** Either the user's function ran once and no cancel succeeded, or a cancel succeeded and it never ran. */
  ghost predicate Outcome(v: WorkState) {
    (v.fn == Null && v.ran == 1 && !v.cancelReturnedZero) || (v.fn == Cancelled && v.ran == 0 && v.cancelReturnedZero)
  }

  ghost predicate HistoryOk(s: State, w: nat)
    requires w in s.works
  {
    var v := s.works[w];
    match v.place
    case Queued => v.fn == User && v.ran == 0 && v.done == 0 && !v.cancelReturnedZero
    case Held(i) =>
      v.fn == User && v.done == 0 && !v.cancelReturnedZero && i < |s.workers| &&
      v.ran == if s.workers[i].Ran? then 1 else 0
    case InLoop => v.done == 0 && Outcome(v)
    case InLocal => v.done == 0 && Outcome(v)
    case Between => v.fn == Cancelled && v.ran == 0 && v.done == 0 && v.cancelReturnedZero
    case Finished => v.done == 1 && v.status == v.cancelReturnedZero && Outcome(v)
  }

  ghost predicate Histories(s: State) {
    forall w :: w in s.works ==> HistoryOk(s, w)
  }

  // ---------- mutexes ----------

  ghost predicate MutexOk(s: State, l: nat)
    requires l < |s.loops|
  {
    && (s.loops[l].mutex.ByWorker? ==>
          s.loops[l].mutex.i < |s.workers| && s.workers[s.loops[l].mutex.i].Sending? &&
          s.workers[s.loops[l].mutex.i].loop == l)
    && (s.loops[l].mutex == ByLoop <==> s.loops[l].cancel.CancelSend?)
    && (s.global == HeldBy(l) <==> s.loops[l].cancel.HasGlobal?)
  }

  ghost predicate Mutexes(s: State) {
    && (forall l :: 0 <= l < |s.loops| ==> MutexOk(s, l))
    && (forall i :: 0 <= i < |s.workers| && s.workers[i].Sending? ==>
          s.workers[i].loop < |s.loops| && s.loops[s.workers[i].loop].mutex == ByWorker(i))
    && (s.global.HeldBy? ==> s.global.l < |s.loops|)
  }

  // ---------- condition variable and exit message ----------

  ghost predicate IsIdle(pc: WorkerPc) {
    pc.Waiting? || pc.Woken?
  }

  ghost function CountIdle(ws: seq<WorkerPc>): nat {
    if ws == [] then 0 else (if IsIdle(ws[0]) then 1 else 0) + CountIdle(ws[1..])
  }

  /** A worker that will look at the queue again without another signal. */
  ghost predicate Alert(pc: WorkerPc) {
    !pc.Waiting? && !pc.Exited?
  }

  ghost predicate AllExited(s: State) {
    forall i :: 0 <= i < |s.workers| ==> s.workers[i].Exited?
  }

  ghost predicate Wakeups(s: State) {
    && s.idle == CountIdle(s.workers)
    && (s.wq != [] ==> AllExited(s) || exists i :: 0 <= i < |s.workers| && Alert(s.workers[i]))
    && (forall i :: 0 <= i < |s.workers| && s.workers[i].Exited? ==> s.wq != [] && s.wq[0] == Exit)
    && (s.exitPosted <==> Exit in s.wq)
  }

  // ---------- async sends and the loop thread's pass ----------

  /** How far the send is that runs under the loop's mutex, if there is one. */
  ghost predicate SendAt(s: State, l: nat, stage: Stage)
    requires l < |s.loops|
  {
    match s.loops[l].mutex
    case Free => false
    case ByWorker(i) => i < |s.workers| && s.workers[i] == Sending(l, stage)
    case ByLoop => s.loops[l].cancel == CancelSend(stage)
  }

  ghost predicate SendOk(s: State, l: nat)
    requires l < |s.loops|
  {
    var v := s.loops[l];
    && (v.wq != [] ==> v.pending || v.pc == Collect || SendAt(s, l, Read) || SendAt(s, l, Swap))
    && (v.pending ==> v.readable || v.pc == Visit || SendAt(s, l, Write))
    && (v.pc != Callbacks ==> v.local == [])
  }

  ghost predicate Sends(s: State) {
    forall l :: 0 <= l < |s.loops| ==> SendOk(s, l)
  }

  ghost predicate Inv(s: State) {
    |s.workers| > 0 && Placed(s) && Histories(s) && Mutexes(s) && Wakeups(s) && Sends(s)
  }
}
