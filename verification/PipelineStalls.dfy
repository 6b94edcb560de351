/** When the sending side comes to rest: only if every packet fits into the ring has everything been
    delivered by then. Send wakes the loop once before its first write and once after its last. In between
    it only sleeps and retries, so a packet longer than the ring can fill it with nobody left to drain it. */
module PipelineStalls {
  import opened NetPacket
  import opened FrameScan
  import opened Pipeline

  /** Steps that the sending side takes by itself. A write into a full ring, after which the caller sleeps
      again, is not one of them, nor is data from the peer, which happens to make the loop look at the ring. */
  ghost predicate Internal(u: Setup, s: State, step: Step) {
    !step.Incoming? && (step.TryWrite? ==> |s.ring| < u.size)
  }

  /** No such step is possible. */
  ghost predicate Rest(u: Setup, s: State) {
    && !s.signalled && s.loop.Polling? && s.done == [] && s.queue == [] && s.wire == []
    && !s.sender.Ending? && (s.sender.Between? ==> s.k >= |u.ps|) && (s.sender.Writing? ==> |s.ring| >= u.size)
  }

  lemma RestIsRest(u: Setup, s: State)
    requires SetupOk(u) && Inv(u, s)
    ensures Rest(u, s) <==> forall step :: Enabled(u, s, step) ==> !Internal(u, s, step)
  {
    if !Rest(u, s) {
      var step :=
        if s.signalled && s.loop.Polling? then AsyncCallback
        else if s.loop.Draining? then TakeOut
        else if s.loop.Holding? then Submit
        else if s.done != [] then WriteCallback
        else if s.queue != [] then Transmit(1)
        else if s.wire != [] then Deliver(1)
        else if s.sender.Ending? then End
        else if s.sender.Between? then Begin
        else TryWrite;
      assert s.queue != [] ==> InUse(s)[0] == s.queue[0];
      assert Enabled(u, s, step) && Internal(u, s, step);
    }
  }

  ghost predicate Fits(u: Setup)
    requires SetupOk(u)
  {
    forall i :: 0 <= i < |u.ps| ==> |PacketBytes(u.c.little, u.ps[i].header, u.ps[i].data)| <= u.size
  }

  /** What is in the ring will be looked at. */
  ghost predicate Awake(s: State) {
    s.ring != [] ==> s.signalled || !s.loop.Polling? || s.done != [] || s.queue != [] || s.sender.Ending?
  }

  lemma TryWriteKeepsAwake(u: Setup, s: State)
    requires SetupOk(u) && Fits(u) && Inv(u, s) && Awake(s) && Enabled(u, s, TryWrite)
    ensures Awake(Apply(u, s, TryWrite))
  {
    assert |Current(u, s)| <= u.size;
  }

  lemma StepKeepsAwake(u: Setup, s: State, step: Step)
    requires SetupOk(u) && Fits(u) && Inv(u, s) && Awake(s) && Enabled(u, s, step)
    ensures Awake(Apply(u, s, step))
  {
    if step.TryWrite? {
      TryWriteKeepsAwake(u, s);
    }
  }

  lemma {:induction false} RunKeepsAwake(u: Setup, s: State, steps: seq<Step>)
    requires SetupOk(u) && Fits(u) && Inv(u, s) && Awake(s) && IsRun(u, s, steps)
    ensures Awake(After(u, s, steps))
    decreases |steps|
  {
    if steps != [] {
      StepKeepsInv(u, s, steps[0]);
      StepKeepsAwake(u, s, steps[0]);
      RunKeepsAwake(u, Apply(u, s, steps[0]), steps[1..]);
    }
  }

  // ---------- reachable states ----------

  ghost predicate Reaches(u: Setup, s: State, t: State)
    requires SetupOk(u)
  {
    exists steps :: IsRun(u, s, steps) && After(u, s, steps) == t
  }

  lemma ReachesItself(u: Setup, s: State)
    requires SetupOk(u)
    ensures Reaches(u, s, s)
  {
    assert IsRun(u, s, []) && After(u, s, []) == s;
  }

  lemma {:induction false} RunOnwards(u: Setup, s: State, steps: seq<Step>, step: Step)
    requires SetupOk(u) && IsRun(u, s, steps) && Enabled(u, After(u, s, steps), step)
    ensures IsRun(u, s, steps + [step]) && After(u, s, steps + [step]) == Apply(u, After(u, s, steps), step)
    decreases |steps|
  {
    var more := steps + [step];
    if steps == [] {
      assert more[1..] == [];
      assert IsRun(u, Apply(u, s, step), []);
    } else {
      RunOnwards(u, Apply(u, s, steps[0]), steps[1..], step);
      assert more[1..] == steps[1..] + [step] && more[0] == steps[0];
    }
  }

  lemma ReachesNext(u: Setup, s: State, t: State, step: Step)
    requires SetupOk(u) && Reaches(u, s, t) && Enabled(u, t, step)
    ensures Reaches(u, s, Apply(u, t, step))
  {
    var steps :| IsRun(u, s, steps) && After(u, s, steps) == t;
    RunOnwards(u, s, steps, step);
  }

  lemma ReachedInv(u: Setup, s: State, t: State)
    requires SetupOk(u) && Init(s) && Reaches(u, s, t)
    ensures Inv(u, t) && (Fits(u) ==> Awake(t))
  {
    var steps :| IsRun(u, s, steps) && After(u, s, steps) == t;
    InitInv(u, s);
    RunKeepsInv(u, s, steps);
    if Fits(u) {
      RunKeepsAwake(u, s, steps);
    }
  }

  // ---------- packets that fit are delivered ----------

  lemma RestIsComplete(u: Setup, t: State)
    requires SetupOk(u) && Inv(u, t) && Fits(u) && Awake(t) && Rest(u, t)
    ensures t.k == |u.ps| && Drained(t) && t.received == Wire(u.c, u.ps)
  {
    AllReceived(u, t);
  }

  // ---------- a packet that does not fit can get stuck ----------

  /** Between two calls of Send, with everything delivered. */
  ghost predicate Clean(s: State, k: nat) {
    && s.k == k && s.sender.Between? && s.ring == [] && !s.signalled && s.loop.Polling?
    && s.queue == [] && s.off == 0 && s.done == [] && s.wire == []
  }

  /** The packet goes through the ring in one piece and one write request. */
  lemma IntoRing(u: Setup, s: State, t: State) returns (t': State)
    requires SetupOk(u) && Reaches(u, s, t) && t.k < |u.ps| && Clean(t, t.k) && |Current(u, t)| <= u.size
    ensures Reaches(u, s, t')
    ensures t' == t.(k := t.k + 1, ring := Current(u, t), loop := Draining)
  {
    var b := Current(u, t);
    ReachesNext(u, s, t, Begin);
    var t1 := t.(sender := Writing(0), signalled := true);
    assert Current(u, t1) == b && [] + b[0..0 + |b|] == b;
    ReachesNext(u, s, t1, TryWrite);
    var t2 := t1.(ring := b, sender := Ending);
    assert Apply(u, t1, TryWrite) == t2;
    ReachesNext(u, s, t2, End);
    var t3 := t2.(sender := Between, k := t.k + 1);
    ReachesNext(u, s, t3, AsyncCallback);
    t' := t3.(signalled := false, loop := Draining);
  }

  lemma ThroughNet(u: Setup, s: State, t: State) returns (t': State)
    requires SetupOk(u) && Reaches(u, s, t) && 0 < |t.ring| <= u.size && t.loop.Draining?
    requires t.sender.Between? && !t.signalled && t.queue == [] && t.off == 0 && t.done == [] && t.wire == []
    ensures Reaches(u, s, t') && Clean(t', t.k)
  {
    ReachesNext(u, s, t, TakeOut);
    var t1 := ApplyTakeOut(u, t);
    var id, b := t1.loop.id, t.ring;
    assert t1.ring == [] && t1.bufs[id] == b;
    t' := Written(u, s, t1);
  }

  lemma Written(u: Setup, s: State, t: State) returns (t': State)
    requires SetupOk(u) && Reaches(u, s, t) && t.ring == []
    requires t.loop.Holding? && t.loop.id in t.bufs && t.bufs[t.loop.id] != []
    requires t.sender.Between? && !t.signalled && t.queue == [] && t.off == 0 && t.done == [] && t.wire == []
    ensures Reaches(u, s, t') && Clean(t', t.k)
  {
    var id := t.loop.id;
    var b := t.bufs[id];
    ReachesNext(u, s, t, Submit);
    var t1 := t.(queue := [id], loop := Draining);
    assert Apply(u, t, Submit) == t1;
    ReachesNext(u, s, t1, TakeOut);
    var t2 := t1.(loop := Polling);
    ReachesNext(u, s, t2, Transmit(|b|));
    var t3 := t2.(queue := [], done := [id], wire := b);
    assert Apply(u, t2, Transmit(|b|)) == t3;
    t' := Home(u, s, t3);
  }

  lemma Home(u: Setup, s: State, t: State) returns (t': State)
    requires SetupOk(u) && Reaches(u, s, t) && t.ring == [] && t.loop.Polling? && t.wire != []
    requires t.sender.Between? && !t.signalled && t.queue == [] && t.off == 0 && |t.done| == 1
    ensures Reaches(u, s, t') && Clean(t', t.k)
  {
    ReachesNext(u, s, t, WriteCallback);
    var t1 := Apply(u, t, WriteCallback);
    ReachesNext(u, s, t1, TakeOut);
    var t2 := t1.(loop := Polling);
    ReachesNext(u, s, t2, Deliver(|t.wire|));
    t' := Apply(u, t2, Deliver(|t.wire|));
  }

  lemma {:induction false} ReachesClean(u: Setup, s: State, k: nat) returns (t: State)
    requires SetupOk(u) && Init(s) && k <= |u.ps|
    requires forall i :: 0 <= i < k ==> |PacketBytes(u.c.little, u.ps[i].header, u.ps[i].data)| <= u.size
    ensures Reaches(u, s, t) && Clean(t, k)
  {
    if k == 0 {
      t := s;
      ReachesItself(u, s);
    } else {
      t := ReachesClean(u, s, k - 1);
      t := IntoRing(u, s, t);
      t := ThroughNet(u, s, t);
    }
  }

  /** The loop looks at the ring before the first write, and nobody looks at it after. */
  lemma GetsStuck(u: Setup, s: State, t: State) returns (t': State)
    requires SetupOk(u) && Reaches(u, s, t) && t.k < |u.ps| && Clean(t, t.k) && |Current(u, t)| > u.size
    ensures Reaches(u, s, t') && Rest(u, t') && t'.ring != []
  {
    ReachesNext(u, s, t, Begin);
    var t1 := t.(sender := Writing(0), signalled := true);
    ReachesNext(u, s, t1, AsyncCallback);
    var t2 := t1.(signalled := false, loop := Draining);
    ReachesNext(u, s, t2, TakeOut);
    var t3 := t2.(loop := Polling);
    assert Current(u, t3) == Current(u, t);
    ReachesNext(u, s, t3, TryWrite);
    t' := Apply(u, t3, TryWrite);
  }

  lemma {:induction false} FirstTooLong(u: Setup, k: nat) returns (i: nat)
    requires SetupOk(u) && k <= |u.ps| && !Fits(u)
    requires forall j :: 0 <= j < k ==> |PacketBytes(u.c.little, u.ps[j].header, u.ps[j].data)| <= u.size
    ensures i < |u.ps| && |PacketBytes(u.c.little, u.ps[i].header, u.ps[i].data)| > u.size
    ensures forall j :: 0 <= j < i ==> |PacketBytes(u.c.little, u.ps[j].header, u.ps[j].data)| <= u.size
    decreases |u.ps| - k
  {
    if k < |u.ps| && |PacketBytes(u.c.little, u.ps[k].header, u.ps[k].data)| <= u.size {
      i := FirstTooLong(u, k + 1);
    } else {
      i := k;
    }
  }

  lemma StuckIsShort(u: Setup, t: State)
    requires SetupOk(u) && Inv(u, t) && t.ring != []
    ensures |t.received| < |Wire(u.c, u.ps)|
  {
    IssuedPrefix(u, t);
  }

  /** The sending side always comes to rest with everything delivered exactly when every packet fits into
      the ring, whatever the interleaving. */
  lemma RestDeliversIffFits(u: Setup, s: State)
    requires SetupOk(u) && Init(s)
    ensures (forall t :: Reaches(u, s, t) && Rest(u, t) ==> t.received == Wire(u.c, u.ps)) <==> Fits(u)
  {
    if Fits(u) {
      forall t | Reaches(u, s, t) && Rest(u, t) ensures t.received == Wire(u.c, u.ps) {
        ReachedInv(u, s, t);
        RestIsComplete(u, t);
      }
    } else {
      var k := FirstTooLong(u, 0);
      var t := ReachesClean(u, s, k);
      t := GetsStuck(u, s, t);
      ReachedInv(u, s, t);
      StuckIsShort(u, t);
    }
  }

  // ---------- rest is reached ----------

  ghost function StageWork(sender: Sender): int {
    match sender case Between => 0 case Writing(_) => 3 case Ending => 6
  }

  ghost function LoopWork(loop: Loop): int {
    match loop case Polling => 0 case Draining => 1 case Holding(_) => 4
  }

  /** How much there is left to do for the sending thread, and beyond the ring. */
  ghost function Ahead(u: Setup, s: State): int
    requires SetupOk(u) && SenderOk(u, s)
  {
    11 * (|Wire(u.c, u.ps)| - |Issued(u, s)|) + 10 * (|u.ps| - s.k) - StageWork(s.sender)
  }

  ghost function Beyond(s: State): int
    requires Owned(s)
  {
    10 * |s.ring| + 3 * |InFlight(s)| + |s.wire| + (if s.signalled then 2 else 0) +
    2 * |s.queue| + 2 * |s.done| + LoopWork(s.loop)
  }

  ghost function Work(u: Setup, s: State): int
    requires SetupOk(u) && Inv(u, s)
  {
    Ahead(u, s) + Beyond(s)
  }

  lemma WorkIsNat(u: Setup, s: State)
    requires SetupOk(u) && Inv(u, s)
    ensures Work(u, s) >= 0
  {
    IssuedPrefix(u, s);
  }

  lemma SameAhead(u: Setup, s: State, s': State)
    requires SetupOk(u) && SenderOk(u, s) && SenderOk(u, s') && s'.k == s.k && s'.sender == s.sender
    ensures Ahead(u, s') == Ahead(u, s)
  {
  }

  lemma BeginWorks(u: Setup, s: State)
    requires SetupOk(u) && Inv(u, s) && Enabled(u, s, Begin)
    ensures Inv(u, Apply(u, s, Begin)) && Work(u, Apply(u, s, Begin)) < Work(u, s)
  {
    BeginKeepsInv(u, s);
    SameRequests(s, Apply(u, s, Begin));
  }

  lemma TryWriteWorks(u: Setup, s: State)
    requires SetupOk(u) && Inv(u, s) && Enabled(u, s, TryWrite) && |s.ring| < u.size
    ensures Inv(u, ApplyTryWrite(u, s)) && Work(u, ApplyTryWrite(u, s)) < Work(u, s)
  {
    TryWriteKeepsInv(u, s);
    SameRequests(s, ApplyTryWrite(u, s));
  }

  lemma EndWorks(u: Setup, s: State)
    requires SetupOk(u) && Inv(u, s) && Enabled(u, s, End)
    ensures Inv(u, Apply(u, s, End)) && Work(u, Apply(u, s, End)) < Work(u, s)
  {
    EndKeepsInv(u, s);
    SameRequests(s, Apply(u, s, End));
    WireSnoc(u.c, u.ps, s.k);
  }

  /** The requests in use are the same before and after. */
  lemma MoveWorks(s: State, s': State)
    requires Owned(s) && Owned(s') && InUse(s') == InUse(s) && s'.bufs == s.bufs && s'.off == s.off && s'.ring == s.ring
    requires |s'.wire| + (if s'.signalled then 2 else 0) + 2 * |s'.queue| + 2 * |s'.done| + LoopWork(s'.loop)
             < |s.wire| + (if s.signalled then 2 else 0) + 2 * |s.queue| + 2 * |s.done| + LoopWork(s.loop)
    ensures Beyond(s') < Beyond(s)
  {
    assert InFlight(s') == InFlight(s);
  }

  lemma TakeOutWorks(s: State, size: nat, s': State, id: nat)
    requires Owned(s) && s.loop.Draining? && s'.loop == Holding(id) && id in s'.bufs && s'.bufs[id] != []
    requires s'.bufs == s.bufs[id := s'.bufs[id]]
    requires s'.queue == s.queue && s'.off == s.off && s'.done == s.done
    requires if s.idle == [] then s'.idle == [] && id == s.made && s'.made == s.made + 1
             else s.idle == [id] + s'.idle && s'.made == s.made
    requires s'.wire == s.wire && s'.signalled == s.signalled && |s'.ring| + |s'.bufs[id]| == |s.ring|
    ensures Owned(s') && Beyond(s') < Beyond(s)
  {
    TakeOutKeepsOwned(s, size, s', id);
  }

  lemma TransmitWorks(s: State, n: nat)
    requires Owned(s) && s.queue != [] && 0 < n && s.queue[0] in s.bufs && s.off + n <= |s.bufs[s.queue[0]]|
    ensures Owned(ApplyTransmit(s, n)) && Beyond(ApplyTransmit(s, n)) < Beyond(s)
  {
    TransmitKeepsOwned(s, n);
  }

  lemma SubmitWorks(u: Setup, s: State, s': State)
    requires SetupOk(u) && Enabled(u, s, Submit) && s' == Apply(u, s, Submit) && Owned(s) && Owned(s')
    ensures Beyond(s') < Beyond(s)
  {
    MoveWorks(s, s');
  }

  lemma EasyWorks(u: Setup, s: State, step: Step, s': State)
    requires SetupOk(u) && Enabled(u, s, step) && s' == Apply(u, s, step) && Owned(s) && Owned(s')
    requires step.AsyncCallback? || step.WriteCallback? || step.Deliver? || (step.TakeOut? && s.ring == [])
    ensures Beyond(s') < Beyond(s)
  {
    MoveWorks(s, s');
  }

  lemma BeyondWorks(u: Setup, s: State, step: Step)
    requires SetupOk(u) && Owned(s) && Enabled(u, s, step) && Owned(Apply(u, s, step)) && u.size > 0
    requires !step.Begin? && !step.TryWrite? && !step.End? && !step.Incoming?
    ensures Beyond(Apply(u, s, step)) < Beyond(s)
  {
    var s' := Apply(u, s, step);
    if step.Transmit? {
      TransmitWorks(s, step.n);
    } else if step.TakeOut? && s.ring != [] {
      TakeOutWorks(s, u.size, s', s'.loop.id);
    } else if step.Submit? {
      SubmitWorks(u, s, s');
    } else {
      EasyWorks(u, s, step, s');
    }
  }

  lemma StepWorks(u: Setup, s: State, step: Step)
    requires SetupOk(u) && Inv(u, s) && Enabled(u, s, step) && Internal(u, s, step)
    ensures Inv(u, Apply(u, s, step)) && Work(u, Apply(u, s, step)) < Work(u, s)
  {
    StepKeepsInv(u, s, step);
    if step.Begin? {
      BeginWorks(u, s);
    } else if step.TryWrite? {
      TryWriteWorks(u, s);
    } else if step.End? {
      EndWorks(u, s);
    } else {
      SameAhead(u, s, Apply(u, s, step));
      BeyondWorks(u, s, step);
    }
  }

  ghost predicate AllInternal(u: Setup, s: State, steps: seq<Step>)
    requires SetupOk(u) && IsRun(u, s, steps)
    decreases |steps|
  {
    steps == [] || (Internal(u, s, steps[0]) && AllInternal(u, Apply(u, s, steps[0]), steps[1..]))
  }

  /** No run of internal steps is longer than the work left: rest is reached. */
  lemma {:induction false} InternalRunsAreBounded(u: Setup, s: State, steps: seq<Step>)
    requires SetupOk(u) && Inv(u, s) && IsRun(u, s, steps) && AllInternal(u, s, steps)
    ensures |steps| <= Work(u, s)
    decreases |steps|
  {
    if steps == [] {
      WorkIsNat(u, s);
    } else {
      StepWorks(u, s, steps[0]);
      InternalRunsAreBounded(u, Apply(u, s, steps[0]), steps[1..]);
    }
  }
}
