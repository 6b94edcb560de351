/** The thread pool as a system of atomic steps: the workers, any number of submitters, and loop
    threads that collect finished work and may cancel work of their own loop. Each step is one
    critical section or one atomic operation; every interleaving is a sequence of steps. */
module ThreadPool {

  /** What hangs in the global queue: a piece of work or the exit message. */
  datatype Item = Exit | Work(id: nat)

  /** The three values of a work's function pointer: the user's function, NULL once it has run,
      and the function that marks a cancelled work. */
  datatype Fn = User | Null | Cancelled

  /** Where the queue node of a work is linked. `Held` and `Between` nodes are in no queue. */
  datatype Place = Queued | Held(worker: nat) | InLoop | InLocal | Between | Finished

  datatype WorkState = WorkState(
    loop: nat,
    fn: Fn,
    place: Place,
    ran: nat,               // how often the user's function ran
    done: nat,              // how often the completion callback ran
    status: bool,           // the callback's last status was UV_ECANCELED
    cancelReturnedZero: bool)

  /** The three instructions of an async send: the cheap read, the compare-and-swap, the write. */
  datatype Stage = Read | Swap | Write

  datatype WorkerPc =
    | Start                               // about to lock the global mutex
    | Waiting                             // in the condition wait, not signalled
    | Woken                               // signalled, about to relock the global mutex
    | Running(w: nat)                     // about to call the user's function
    | Ran(w: nat)                         // about to lock the loop's mutex
    | Sending(loop: nat, stage: Stage)    // holds the loop's mutex
    | Exited

  datatype LoopPc =
    | Poll        // blocked in the poll, or running user code between polls
    | Visit       // has drained the descriptor, about to visit the loop's async handle
    | Collect     // in the async callback, about to lock the mutex and move the queue aside
    | Callbacks   // running completion callbacks for the queue moved aside

  datatype CancelPc =
    | Idle
    | HasGlobal(w: nat)        // holds the global mutex, about to lock the loop's mutex
    | Reinsert(w: nat)         // unlinked the work, about to lock the loop's mutex again
    | CancelSend(stage: Stage) // holds the loop's mutex

  datatype Holder = Free | ByWorker(i: nat) | ByLoop

  /** The global mutex between steps: only a cancelling loop thread keeps it across two of them. */
  datatype Global = NotHeld | HeldBy(l: nat)

  datatype Loop = Loop(
    wq: seq<nat>,       // finished or cancelled works, guarded by `mutex`
    local: seq<nat>,    // the queue moved aside by the callback, seen by the loop thread alone
    mutex: Holder,
    pending: bool,      // the async handle's flag
    readable: bool,     // the descriptor has something to read
    pc: LoopPc,
    cancel: CancelPc)

  datatype State = State(
    wq: seq<Item>,
    idle: int,
    global: Global,
    workers: seq<WorkerPc>,
    loops: seq<Loop>,
    works: map<nat, WorkState>,
    exitPosted: bool)

  ghost predicate Init(s: State) {
    && s.wq == [] && s.idle == 0 && s.global == NotHeld && s.works == map[] && !s.exitPosted
    && |s.workers| > 0 && (forall i :: 0 <= i < |s.workers| ==> s.workers[i] == Start)
    && (forall l :: 0 <= l < |s.loops| ==> s.loops[l] == Loop([], [], Free, false, false, Poll, Idle))
  }

  /** `j` names the waiting worker that a signal wakes, should there be one. */
  datatype Step =
    | Submit(w: nat, l: nat, j: nat)
    | PostExit(j: nat)
    | Spurious(i: nat)
    | Take(i: nat, j: nat)
    | Call(i: nat)
    | Complete(i: nat)
    | WorkerSend(i: nat)
    | DrainFd(l: nat)
    | VisitHandle(l: nat)
    | MoveAside(l: nat)
    | NextCallback(l: nat)
    | CancelLock(l: nat, w: nat)
    | CancelTest(l: nat)
    | CancelInsert(l: nat)
    | CancelSendStep(l: nat)

  // ---------- condition variable ----------

  ghost predicate IsWaiting(s: State, j: nat) {
    j < |s.workers| && s.workers[j].Waiting?
  }

  /** A signal wakes one waiting worker if there is one; the choice is free. */
  ghost predicate CanSignal(s: State, j: nat) {
    IsWaiting(s, j) || forall k :: 0 <= k < |s.workers| ==> !s.workers[k].Waiting?
  }

  ghost function Signal(s: State, j: nat): State {
    if IsWaiting(s, j) then s.(workers := s.workers[j := Woken]) else s
  }

  // ---------- queues ----------

  ghost function Without<X>(q: seq<X>, x: X): seq<X> {
    if q == [] then [] else if q[0] == x then q[1..] else [q[0]] + Without(q[1..], x)
  }

  ghost function Post(s: State, item: Item, j: nat): State {
    var s1 := s.(wq := s.wq + [item]);
    if s.idle > 0 then Signal(s1, j) else s1
  }

  ghost function SetLoop(s: State, l: nat, v: Loop): State
    requires l < |s.loops|
  {
    s.(loops := s.loops[l := v])
  }

  ghost function SetWorker(s: State, i: nat, pc: WorkerPc): State
    requires i < |s.workers|
  {
    s.(workers := s.workers[i := pc])
  }

  // ---------- enabledness ----------

  ghost predicate Enabled(s: State, step: Step) {
    match step
    case Submit(w, l, j) => s.global == NotHeld && w !in s.works && l < |s.loops| && CanSignal(s, j)
    case PostExit(j) => s.global == NotHeld && !s.exitPosted && CanSignal(s, j)
    case Spurious(i) => IsWaiting(s, i)
    case Take(i, j) =>
      i < |s.workers| && (s.workers[i].Start? || s.workers[i].Woken?) && s.global == NotHeld && CanSignal(s, j)
    case Call(i) => i < |s.workers| && s.workers[i].Running? && s.workers[i].w in s.works
    case Complete(i) =>
      i < |s.workers| && s.workers[i].Ran? && s.workers[i].w in s.works &&
      s.works[s.workers[i].w].loop < |s.loops| && s.loops[s.works[s.workers[i].w].loop].mutex == Free
    case WorkerSend(i) => i < |s.workers| && s.workers[i].Sending? && s.workers[i].loop < |s.loops|
    case DrainFd(l) => l < |s.loops| && s.loops[l].cancel.Idle? && s.loops[l].pc == Poll && s.loops[l].readable
    case VisitHandle(l) => l < |s.loops| && s.loops[l].cancel.Idle? && s.loops[l].pc == Visit
    case MoveAside(l) => l < |s.loops| && s.loops[l].pc == Collect && s.loops[l].mutex == Free
    case NextCallback(l) =>
      l < |s.loops| && s.loops[l].cancel.Idle? && s.loops[l].pc == Callbacks &&
      (s.loops[l].local != [] ==> s.loops[l].local[0] in s.works)
    case CancelLock(l, w) =>
      // user code on the loop thread, for a work of this loop whose callback has not run yet
      l < |s.loops| && s.loops[l].cancel.Idle? && s.loops[l].pc != Collect &&
      s.global == NotHeld && w in s.works && s.works[w].loop == l && !s.works[w].place.Finished?
    case CancelTest(l) =>
      l < |s.loops| && s.loops[l].cancel.HasGlobal? && s.loops[l].mutex == Free && s.loops[l].cancel.w in s.works
    case CancelInsert(l) =>
      l < |s.loops| && s.loops[l].cancel.Reinsert? && s.loops[l].mutex == Free && s.loops[l].cancel.w in s.works
    case CancelSendStep(l) => l < |s.loops| && s.loops[l].cancel.CancelSend?
  }

  // ---------- effects ----------

  ghost function Apply(s: State, step: Step): State
    requires Enabled(s, step)
  {
    match step
    case Submit(w, l, j) =>
      Post(s.(works := s.works[w := WorkState(l, User, Queued, 0, 0, false, false)]), Work(w), j)
    case PostExit(j) => Post(s.(exitPosted := true), Exit, j)
    case Spurious(i) => SetWorker(s, i, Woken)
    case Take(i, j) => ApplyTake(s, i, j)
    case Call(i) =>
      var w := s.workers[i].w;
      SetWorker(s, i, Ran(w)).(works := s.works[w := s.works[w].(ran := s.works[w].ran + 1)])
    case Complete(i) =>
      var w := s.workers[i].w;
      var l := s.works[w].loop;
      var s1 := SetWorker(s, i, Sending(l, Read)).(works := s.works[w := s.works[w].(fn := Null, place := InLoop)]);
      SetLoop(s1, l, s.loops[l].(wq := s.loops[l].wq + [w], mutex := ByWorker(i)))
    case WorkerSend(i) => ApplyWorkerSend(s, i)
    case DrainFd(l) => SetLoop(s, l, s.loops[l].(readable := false, pc := Visit))
    case VisitHandle(l) =>
      SetLoop(s, l, if s.loops[l].pending then s.loops[l].(pending := false, pc := Collect)
                    else s.loops[l].(pc := Poll))
    case MoveAside(l) =>
      SetLoop(s, l, s.loops[l].(local := s.loops[l].wq, wq := [], pc := Callbacks))
        .(works := Moved(s.works, s.loops[l].wq))
    case NextCallback(l) => ApplyCallback(s, l)
    case CancelLock(l, w) => SetLoop(s, l, s.loops[l].(cancel := HasGlobal(w))).(global := HeldBy(l))
    case CancelTest(l) => ApplyCancelTest(s, l)
    case CancelInsert(l) =>
      var w := s.loops[l].cancel.w;
      SetLoop(s, l, s.loops[l].(wq := s.loops[l].wq + [w], mutex := ByLoop, cancel := CancelSend(Read)))
        .(works := s.works[w := s.works[w].(place := InLoop)])
    case CancelSendStep(l) => ApplyCancelSend(s, l)
  }

  /** The critical section at the top of the worker's loop. */
  ghost function ApplyTake(s: State, i: nat, j: nat): State
    requires i < |s.workers|
  {
    var s1 := if s.workers[i].Woken? then s.(idle := s.idle - 1) else s;
    if s.wq == [] then SetWorker(s1.(idle := s1.idle + 1), i, Waiting)
    else if s.wq[0].Exit? then Signal(SetWorker(s1, i, Exited), j)
    else
      var w := s.wq[0].id;
      SetWorker(s1, i, Running(w)).(wq := s.wq[1..],
        works := if w in s.works then s.works[w := s.works[w].(place := Held(i))] else s.works)
  }

  /** One instruction of the async send; the last one releases the loop's mutex. */
  ghost function AfterSend(v: Loop, stage: Stage): (r: (Loop, bool)) {
    match stage
    case Read => (v, v.pending)
    case Swap => if v.pending then (v, true) else (v.(pending := true), false)
    case Write => (v.(readable := true), true)
  }

  ghost function NextStage(stage: Stage): Stage {
    if stage.Read? then Swap else Write
  }

  ghost function ApplyWorkerSend(s: State, i: nat): State
    requires i < |s.workers| && s.workers[i].Sending? && s.workers[i].loop < |s.loops|
  {
    var l, stage := s.workers[i].loop, s.workers[i].stage;
    var (v, finished) := AfterSend(s.loops[l], stage);
    if finished then SetWorker(SetLoop(s, l, v.(mutex := Free)), i, Start)
    else SetWorker(SetLoop(s, l, v), i, Sending(l, NextStage(stage)))
  }

  ghost function ApplyCancelSend(s: State, l: nat): State
    requires l < |s.loops| && s.loops[l].cancel.CancelSend?
  {
    var stage := s.loops[l].cancel.stage;
    var (v, finished) := AfterSend(s.loops[l], stage);
    if finished then SetLoop(s, l, v.(mutex := Free, cancel := Idle))
    else SetLoop(s, l, v.(cancel := CancelSend(NextStage(stage))))
  }

  /** The works of `q` are now in the queue that the callback moved aside. */
  ghost function Moved(works: map<nat, WorkState>, q: seq<nat>): map<nat, WorkState> {
    map w | w in works :: if w in q then works[w].(place := InLocal) else works[w]
  }

  ghost function ApplyCallback(s: State, l: nat): State
    requires l < |s.loops| && (s.loops[l].local != [] ==> s.loops[l].local[0] in s.works)
  {
    var v := s.loops[l];
    if v.local == [] then SetLoop(s, l, v.(pc := Poll))
    else
      var w := v.local[0];
      SetLoop(s, l, v.(local := v.local[1..])).(works := s.works[w :=
        s.works[w].(place := Finished, done := s.works[w].done + 1, status := s.works[w].fn.Cancelled?)])
  }

  /** Under both mutexes: a work that is linked in some queue and has not run is unlinked. */
  ghost function ApplyCancelTest(s: State, l: nat): State
    requires l < |s.loops| && s.loops[l].cancel.HasGlobal? && s.loops[l].cancel.w in s.works
  {
    var v, w := s.loops[l], s.loops[l].cancel.w;
    var linked := Work(w) in s.wq || w in v.wq || w in v.local;
    if linked && !s.works[w].fn.Null? then
      SetLoop(s, l, v.(wq := Without(v.wq, w), local := Without(v.local, w), cancel := Reinsert(w)))
        .(global := NotHeld, wq := Without(s.wq, Work(w)),
          works := s.works[w := s.works[w].(fn := Cancelled, place := Between, cancelReturnedZero := true)])
    else SetLoop(s, l, v.(cancel := Idle)).(global := NotHeld)
  }

  // ---------- runs ----------

  ghost predicate IsRun(s: State, steps: seq<Step>)
    decreases |steps|
  {
    steps == [] || (Enabled(s, steps[0]) && IsRun(Apply(s, steps[0]), steps[1..]))
  }

  ghost function After(s: State, steps: seq<Step>): State
    requires IsRun(s, steps)
    decreases |steps|
  {
    if steps == [] then s else After(Apply(s, steps[0]), steps[1..])
  }
}
