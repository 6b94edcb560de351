/** One client's sending side as a system of atomic steps: the thread that calls Send, the loop thread that
    drains the ring buffer into write requests, the kernel that transmits them, and the peer's receive calls. */
module Pipeline {
  import opened Basics
  import opened NetPacket
  import opened FrameScan

  const MAXLISTSIZE := 20

  /** What the sending thread wants delivered, and the size shared by the ring and the write requests. */
  datatype Setup = Setup(c: Config, ps: seq<Packet>, size: nat)

  ghost predicate SetupOk(u: Setup) {
    AllSendable(u.c, u.ps) && u.size > 0
  }

  datatype Sender =
    | Between             // not in Send
    | Writing(iret: nat)  // about to lock the ring and write to it
    | Ending              // has written everything, about to wake the loop once more

  datatype Loop =
    | Polling
    | Draining            // in send_inl, about to lock the ring
    | Holding(id: nat)    // has filled the request, about to call uv_write

  datatype State = State(
    k: nat,                        // calls to Send that have returned
    sender: Sender,
    ring: seq<byte>,
    signalled: bool,               // an async callback is due
    loop: Loop,
    idle: seq<nat>,                // writeparam_list_
    bufs: map<nat, seq<byte>>,     // the bytes of each write request
    made: nat,                     // requests allocated so far
    queue: seq<nat>,               // requests given to uv_write, not fully transmitted
    off: nat,                      // bytes of the first of them that have been
    done: seq<nat>,                // transmitted requests whose callback is due
    wire: seq<byte>,
    received: seq<byte>)

  ghost predicate Init(s: State) {
    s == State(0, Between, [], false, Polling, [], map[], 0, [], 0, [], [], [])
  }

  datatype Step =
    | Begin | TryWrite | End                                       // the thread in Send
    | AsyncCallback | WriteCallback | Incoming | TakeOut | Submit  // the loop thread
    | Transmit(n: nat) | Deliver(n: nat)                           // the network

  /** The bytes of the packet that Send is working on. */
  ghost function Current(u: Setup, s: State): (b: seq<byte>)
    requires AllSendable(u.c, u.ps) && s.k < |u.ps|
    ensures b != []
  {
    PacketBytes(u.c.little, u.ps[s.k].header, u.ps[s.k].data)
  }

  ghost predicate Enabled(u: Setup, s: State, step: Step)
    requires SetupOk(u)
  {
    match step
    case Begin => s.sender.Between? && s.k < |u.ps|
    case TryWrite => s.sender.Writing? && s.k < |u.ps| && s.sender.iret <= |Current(u, s)| && |s.ring| <= u.size
    case End => s.sender.Ending?
    case AsyncCallback => s.loop.Polling? && s.signalled
    case WriteCallback => s.loop.Polling? && s.done != []
    case Incoming => s.loop.Polling?
    case TakeOut => s.loop.Draining?
    case Submit => s.loop.Holding?
    case Transmit(n) => s.queue != [] && s.queue[0] in s.bufs && 0 < n <= |s.bufs[s.queue[0]]| - s.off
    case Deliver(n) => 0 < n <= |s.wire|
  }

  ghost function Apply(u: Setup, s: State, step: Step): State
    requires SetupOk(u) && Enabled(u, s, step)
  {
    match step
    case Begin => s.(sender := Writing(0), signalled := true)
    case TryWrite => ApplyTryWrite(u, s)
    case End => s.(sender := Between, k := s.k + 1, signalled := true)
    case AsyncCallback => s.(signalled := false, loop := Draining)
    case WriteCallback =>
      s.(done := s.done[1..], loop := Draining,
         idle := if |s.idle| > MAXLISTSIZE then s.idle else s.idle + [s.done[0]])
    case Incoming => s.(loop := Draining)
    case TakeOut => ApplyTakeOut(u, s)
    case Submit => s.(queue := s.queue + [s.loop.id], loop := Draining)
    case Transmit(n) => ApplyTransmit(s, n)
    case Deliver(n) => s.(received := s.received + s.wire[..n], wire := s.wire[n..])
  }

  /** The ring takes as much as it has room for; the caller sleeps and comes back unless that was all. */
  ghost function ApplyTryWrite(u: Setup, s: State): State
    requires SetupOk(u) && Enabled(u, s, TryWrite)
  {
    var b, iret := Current(u, s), s.sender.iret;
    var n := if |b| - iret < u.size - |s.ring| then |b| - iret else u.size - |s.ring|;
    s.(ring := s.ring + b[iret..iret + n], sender := if iret + n < |b| then Writing(iret + n) else Ending)
  }

  /** Leaves the loop on an empty ring, else fills a recycled or a new request from it. */
  ghost function ApplyTakeOut(u: Setup, s: State): State {
    if s.ring == [] then s.(loop := Polling)
    else
      var id := if s.idle == [] then s.made else s.idle[0];
      var n := if |s.ring| < u.size then |s.ring| else u.size;
      s.(idle := if s.idle == [] then [] else s.idle[1..], made := if s.idle == [] then s.made + 1 else s.made,
         bufs := s.bufs[id := s.ring[..n]], ring := s.ring[n..], loop := Holding(id))
  }

  ghost function ApplyTransmit(s: State, n: nat): State
    requires s.queue != [] && s.queue[0] in s.bufs && s.off + n <= |s.bufs[s.queue[0]]|
  {
    var id := s.queue[0];
    var s1 := s.(wire := s.wire + s.bufs[id][s.off..s.off + n]);
    if s.off + n < |s.bufs[id]| then s1.(off := s.off + n)
    else s1.(off := 0, queue := s.queue[1..], done := s.done + [id])
  }

  ghost predicate IsRun(u: Setup, s: State, steps: seq<Step>)
    requires SetupOk(u)
    decreases |steps|
  {
    steps == [] || (Enabled(u, s, steps[0]) && IsRun(u, Apply(u, s, steps[0]), steps[1..]))
  }

  ghost function After(u: Setup, s: State, steps: seq<Step>): State
    requires SetupOk(u) && IsRun(u, s, steps)
    decreases |steps|
  {
    if steps == [] then s else After(u, Apply(u, s, steps[0]), steps[1..])
  }

  // ---------- where the bytes are ----------

  /** The bytes of a queue of requests. */
  ghost function Bytes(bufs: map<nat, seq<byte>>, q: seq<nat>): (b: seq<byte>)
    requires forall i :: 0 <= i < |q| ==> q[i] in bufs
  {
    if q == [] then [] else bufs[q[0]] + Bytes(bufs, q[1..])
  }

  /** The requests in use, in no list twice. */
  ghost function InUse(s: State): seq<nat> {
    s.queue + (if s.loop.Holding? then [s.loop.id] else [])
  }

  ghost predicate Below(q: seq<nat>, n: nat) {
    forall i :: 0 <= i < |q| ==> q[i] < n
  }

  /** No request is recycled while libuv still reads its buffer. */
  ghost predicate Owned(s: State) {
    && NoDup(s.idle + s.done + InUse(s)) && Below(s.idle + s.done + InUse(s), s.made)
    && (forall i :: 0 <= i < |InUse(s)| ==> InUse(s)[i] in s.bufs && s.bufs[InUse(s)[i]] != [])
    && (if s.queue == [] then s.off == 0 else s.off < |s.bufs[InUse(s)[0]]|)
  }

  /** The bytes that have left the ring but not the machine. */
  ghost function InFlight(s: State): seq<byte>
    requires Owned(s)
  {
    OffWithin(s);
    Bytes(s.bufs, InUse(s))[s.off..]
  }

  lemma OffWithin(s: State)
    requires Owned(s)
    ensures s.off <= |Bytes(s.bufs, InUse(s))|
  {
  }

  /** All bytes that have been put into the ring so far. */
  ghost function Issued(u: Setup, s: State): seq<byte>
    requires SetupOk(u) && SenderOk(u, s)
  {
    Wire(u.c, u.ps[..s.k]) +
    match s.sender
    case Between => []
    case Writing(iret) => Current(u, s)[..iret]
    case Ending => Current(u, s)
  }

  ghost predicate SenderOk(u: Setup, s: State)
    requires SetupOk(u)
  {
    && |s.ring| <= u.size && s.k <= |u.ps| && (!s.sender.Between? ==> s.k < |u.ps|)
    && (s.sender.Writing? ==> s.sender.iret < |Current(u, s)|)
  }

  /** No byte is lost, doubled or reordered between Send and the peer. */
  ghost predicate Inv(u: Setup, s: State)
    requires SetupOk(u)
  {
    && SenderOk(u, s) && Owned(s)
    && s.received + (s.wire + (InFlight(s) + s.ring)) == Issued(u, s)
  }

  // ---------- every step keeps it ----------

  lemma WireSnoc(c: Config, ps: seq<Packet>, k: nat)
    requires AllSendable(c, ps) && k < |ps|
    ensures Wire(c, ps[..k + 1]) == Wire(c, ps[..k]) + PacketBytes(c.little, ps[k].header, ps[k].data)
  {
    assert ps[..k + 1][..k] == ps[..k];
  }

  lemma {:induction false} BytesSnoc(bufs: map<nat, seq<byte>>, q: seq<nat>, id: nat)
    requires id in bufs && forall i :: 0 <= i < |q| ==> q[i] in bufs
    ensures Bytes(bufs, q + [id]) == Bytes(bufs, q) + bufs[id]
  {
    if q == [] {
    } else {
      assert (q + [id])[1..] == q[1..] + [id];
      BytesSnoc(bufs, q[1..], id);
    }
  }

  lemma {:induction false} BytesElsewhere(bufs: map<nat, seq<byte>>, q: seq<nat>, id: nat, b: seq<byte>)
    requires id !in q && forall i :: 0 <= i < |q| ==> q[i] in bufs
    ensures Bytes(bufs[id := b], q) == Bytes(bufs, q)
  {
    if q == [] {
    } else {
      BytesElsewhere(bufs, q[1..], id, b);
    }
  }

  lemma SameRequests(s: State, s': State)
    requires Owned(s)
    requires s'.idle == s.idle && s'.done == s.done && s'.queue == s.queue && s'.loop == s.loop
    requires s'.bufs == s.bufs && s'.off == s.off && s'.made == s.made
    ensures Owned(s') && InFlight(s') == InFlight(s)
  {
    assert InUse(s') == InUse(s);
  }

  lemma OneMorePiece<T>(r: seq<T>, w: seq<T>, f: seq<T>, g: seq<T>, x: seq<T>)
    ensures r + (w + (f + (g + x))) == (r + (w + (f + g))) + x
  {
  }

  lemma SentOn<T>(w: seq<T>, b: seq<T>, i: int, j: int)
    requires 0 <= i <= j <= |b|
    ensures (w + b[..i]) + b[i..j] == w + b[..j]
  {
    assert b[..j] == b[..i] + b[i..j];
  }

  lemma BeginKeepsInv(u: Setup, s: State)
    requires SetupOk(u) && Inv(u, s) && Enabled(u, s, Begin)
    ensures Inv(u, Apply(u, s, Begin))
  {
    SameRequests(s, Apply(u, s, Begin));
    assert Current(u, s)[..0] == [];
  }

  lemma TryWriteKeepsInv(u: Setup, s: State)
    requires SetupOk(u) && Inv(u, s) && Enabled(u, s, TryWrite)
    ensures Inv(u, Apply(u, s, TryWrite))
  {
    var s' := ApplyTryWrite(u, s);
    SameRequests(s, s');
    var b, iret := Current(u, s), s.sender.iret;
    var n := |s'.ring| - |s.ring|;
    OneMorePiece(s.received, s.wire, InFlight(s), s.ring, b[iret..iret + n]);
    SentOn(Wire(u.c, u.ps[..s.k]), b, iret, iret + n);
    assert b[..|b|] == b;
  }

  lemma EndKeepsInv(u: Setup, s: State)
    requires SetupOk(u) && Inv(u, s) && Enabled(u, s, End)
    ensures Inv(u, Apply(u, s, End))
  {
    SameRequests(s, Apply(u, s, End));
    WireSnoc(u.c, u.ps, s.k);
  }

  /** The loop thread goes from one place to another that holds no request. */
  lemma MoveKeepsInv(u: Setup, s: State, s': State)
    requires SetupOk(u) && Inv(u, s) && !s.loop.Holding? && !s'.loop.Holding?
    requires s' == s.(loop := s'.loop, signalled := s'.signalled)
    ensures Inv(u, s')
  {
    assert InUse(s') == InUse(s) && InFlight(s') == InFlight(s);
  }

  lemma WriteCallbackKeepsInv(u: Setup, s: State)
    requires SetupOk(u) && Inv(u, s) && Enabled(u, s, WriteCallback)
    ensures Inv(u, Apply(u, s, WriteCallback))
  {
    var s' := Apply(u, s, WriteCallback);
    assert InUse(s') == InUse(s);
    NoDupMove(s.idle, s.done, InUse(s), s'.idle == s.idle, s.made);
    assert InFlight(s') == InFlight(s);
  }

  /** The head of the second list goes to the end of the first, or away. */
  lemma NoDupMove(a: seq<nat>, b: seq<nat>, c: seq<nat>, away: bool, made: nat)
    requires NoDup(a + b + c) && Below(a + b + c, made) && b != []
    ensures var a' := if away then a else a + [b[0]];
            NoDup(a' + b[1..] + c) && Below(a' + b[1..] + c, made)
  {
    var a' := if away then a else a + [b[0]];
    if away {
      var t, t' := a + b + c, a' + b[1..] + c;
      assert forall i :: 0 <= i < |t'| ==> t'[i] == t[if i < |a| then i else i + 1];
    } else {
      assert a' + b[1..] + c == a + b + c;
    }
  }

  lemma SubmitKeepsInv(u: Setup, s: State)
    requires SetupOk(u) && Inv(u, s) && Enabled(u, s, Submit)
    ensures Inv(u, Apply(u, s, Submit))
  {
    var s' := Apply(u, s, Submit);
    assert InUse(s') == InUse(s);
    assert InFlight(s') == InFlight(s);
  }

  lemma DeliverKeepsInv(u: Setup, s: State, n: nat)
    requires SetupOk(u) && Inv(u, s) && Enabled(u, s, Deliver(n))
    ensures Inv(u, Apply(u, s, Deliver(n)))
  {
    var s' := Apply(u, s, Deliver(n));
    SameRequests(s, s');
    CutMoves(s.received, s.wire, InFlight(s) + s.ring, n);
  }

  lemma CutMoves<T>(r: seq<T>, w: seq<T>, x: seq<T>, n: nat)
    requires n <= |w|
    ensures (r + w[..n]) + (w[n..] + x) == r + (w + x)
  {
  }

  /** A fresh or recycled request takes over the front of the ring. */
  lemma TakeOutKeepsOwned(s: State, size: nat, s': State, id: nat)
    requires Owned(s) && s.loop.Draining? && s'.loop == Holding(id) && id in s'.bufs && s'.bufs[id] != []
    requires s'.bufs == s.bufs[id := s'.bufs[id]]
    requires s'.queue == s.queue && s'.off == s.off && s'.done == s.done
    requires if s.idle == [] then s'.idle == [] && id == s.made && s'.made == s.made + 1
             else s.idle == [id] + s'.idle && s'.made == s.made
    ensures Owned(s') && InFlight(s') == InFlight(s) + s'.bufs[id]
  {
    assert InUse(s) == s.queue && InUse(s') == s.queue + [id];
    assert s.idle + s.done + InUse(s) == s.idle + s.done + s.queue;
    TakeId(s.idle, s.done, s.queue, id, s'.idle, s.made);
    assert s'.idle + s'.done + InUse(s') == s'.idle + s.done + (s.queue + [id]);
    BytesElsewhere(s.bufs, s.queue, id, s'.bufs[id]);
    BytesSnoc(s'.bufs, s.queue, id);
    DropFront(Bytes(s.bufs, s.queue), s'.bufs[id], s.off);
  }

  lemma DropFront<T>(a: seq<T>, b: seq<T>, n: nat)
    requires n <= |a|
    ensures (a + b)[n..] == a[n..] + b
  {
  }

  lemma TakeId(idle: seq<nat>, done: seq<nat>, queue: seq<nat>, id: nat, idle': seq<nat>, made: nat)
    requires NoDup(idle + done + queue) && Below(idle + done + queue, made)
    requires if idle == [] then idle' == [] && id == made else idle == [id] + idle'
    ensures NoDup(idle' + done + (queue + [id])) && id !in queue
    ensures Below(idle' + done + (queue + [id]), if idle == [] then made + 1 else made)
  {
    var t, t' := idle + done + queue, idle' + done + (queue + [id]);
    assert forall i :: 0 <= i < |queue| ==> queue[i] == t[|idle| + |done| + i];
    if idle == [] {
      assert t' == t + [id];
    } else {
      assert forall i :: 0 <= i < |t'| - 1 ==> t'[i] == t[i + 1];
      assert t[0] == id && t'[|t'| - 1] == id;
    }
  }

  lemma TakeOutKeepsInv(u: Setup, s: State)
    requires SetupOk(u) && Inv(u, s) && Enabled(u, s, TakeOut)
    ensures Inv(u, Apply(u, s, TakeOut))
  {
    var s' := ApplyTakeOut(u, s);
    if s.ring == [] {
      MoveKeepsInv(u, s, s');
    } else {
      var id := s'.loop.id;
      TakeOutKeepsOwned(s, u.size, s', id);
      TakenFromRing(s.received, s.wire, InFlight(s), s.ring, |s'.bufs[id]|);
    }
  }

  lemma TakenFromRing<T>(r: seq<T>, w: seq<T>, f: seq<T>, g: seq<T>, n: nat)
    requires n <= |g|
    ensures r + (w + ((f + g[..n]) + g[n..])) == r + (w + (f + g))
  {
    assert (f + g[..n]) + g[n..] == f + g;
  }

  lemma TransmitKeepsOwned(s: State, n: nat)
    requires Owned(s) && s.queue != [] && 0 < n && s.queue[0] in s.bufs && s.off + n <= |s.bufs[s.queue[0]]|
    ensures Owned(ApplyTransmit(s, n))
    ensures InFlight(s) == s.bufs[s.queue[0]][s.off..s.off + n] + InFlight(ApplyTransmit(s, n))
  {
    var s', id := ApplyTransmit(s, n), s.queue[0];
    var b, q := s.bufs[id], InUse(s);
    assert q[0] == id && Bytes(s.bufs, q) == b + Bytes(s.bufs, q[1..]);
    Sent(b, Bytes(s.bufs, q[1..]), s.off, s.off + n);
    if s.off + n < |b| {
      assert InUse(s') == q;
    } else {
      assert InUse(s') == q[1..];
      assert s'.idle + s'.done + InUse(s') == s.idle + (s.done + [id]) + q[1..];
      NoDupNext(s.idle, s.done, q);
      assert forall i :: 0 <= i < |q[1..]| ==> q[1..][i] == q[i + 1];
    }
  }

  lemma NoDupNext(a: seq<nat>, b: seq<nat>, c: seq<nat>)
    requires c != []
    ensures a + (b + [c[0]]) + c[1..] == a + b + c
  {
  }

  lemma Sent<T>(b: seq<T>, x: seq<T>, i: int, j: int)
    requires 0 <= i <= j <= |b|
    ensures (b + x)[i..] == b[i..j] + (if j < |b| then (b + x)[j..] else x)
  {
  }

  lemma TransmitKeepsInv(u: Setup, s: State, n: nat)
    requires SetupOk(u) && Inv(u, s) && Enabled(u, s, Transmit(n))
    ensures Inv(u, Apply(u, s, Transmit(n)))
  {
    var s' := ApplyTransmit(s, n);
    TransmitKeepsOwned(s, n);
    var x, f := s.bufs[s.queue[0]][s.off..s.off + n], InFlight(s');
    assert s'.wire == s.wire + x;
    Moved(s.received, s.wire, x, f, s.ring);
  }

  lemma Moved<T>(r: seq<T>, w: seq<T>, x: seq<T>, f: seq<T>, g: seq<T>)
    ensures r + ((w + x) + (f + g)) == r + (w + ((x + f) + g))
  {
    assert (w + x) + (f + g) == w + ((x + f) + g);
  }

  lemma StepKeepsInv(u: Setup, s: State, step: Step)
    requires SetupOk(u) && Inv(u, s) && Enabled(u, s, step)
    ensures Inv(u, Apply(u, s, step))
  {
    match step
    case Begin => BeginKeepsInv(u, s);
    case TryWrite => TryWriteKeepsInv(u, s);
    case End => EndKeepsInv(u, s);
    case AsyncCallback => MoveKeepsInv(u, s, Apply(u, s, step));
    case WriteCallback => WriteCallbackKeepsInv(u, s);
    case Incoming => MoveKeepsInv(u, s, Apply(u, s, step));
    case TakeOut => TakeOutKeepsInv(u, s);
    case Submit => SubmitKeepsInv(u, s);
    case Transmit(n) => TransmitKeepsInv(u, s, n);
    case Deliver(n) => DeliverKeepsInv(u, s, n);
  }

  lemma {:induction false} RunKeepsInv(u: Setup, s: State, steps: seq<Step>)
    requires SetupOk(u) && Inv(u, s) && IsRun(u, s, steps)
    ensures Inv(u, After(u, s, steps))
    decreases |steps|
  {
    if steps != [] {
      StepKeepsInv(u, s, steps[0]);
      RunKeepsInv(u, Apply(u, s, steps[0]), steps[1..]);
    }
  }

  // ---------- end to end ----------

  /** Nothing is on its way between the ring and the peer. */
  ghost predicate Drained(s: State) {
    s.ring == [] && s.queue == [] && !s.loop.Holding? && s.wire == []
  }

  lemma {:induction false} WirePrefix(c: Config, ps: seq<Packet>, k: nat)
    requires AllSendable(c, ps) && k <= |ps|
    ensures Wire(c, ps[..k]) <= Wire(c, ps)
    decreases |ps| - k
  {
    if k == |ps| {
      assert ps[..k] == ps;
    } else {
      WireSnoc(c, ps, k);
      WirePrefix(c, ps, k + 1);
    }
  }

  lemma PartPrefix<T>(w: seq<T>, b: seq<T>, whole: seq<T>, i: int)
    requires w + b <= whole && 0 <= i <= |b|
    ensures w + b[..i] <= whole && b[..|b|] == b && b[..0] == []
  {
    assert (w + b)[..|w| + i] == w + b[..i];
  }

  lemma IssuedPrefix(u: Setup, s: State)
    requires SetupOk(u) && SenderOk(u, s)
    ensures Issued(u, s) <= Wire(u.c, u.ps)
  {
    if s.k < |u.ps| {
      WireSnoc(u.c, u.ps, s.k);
      WirePrefix(u.c, u.ps, s.k + 1);
      var w, b := Wire(u.c, u.ps[..s.k]), Current(u, s);
      PartPrefix(w, b, Wire(u.c, u.ps), if s.sender.Writing? then s.sender.iret else if s.sender.Ending? then |b| else 0);
    } else {
      WirePrefix(u.c, u.ps, s.k);
    }
  }

  /** In every state of every run the peer has received a prefix of the packets' bytes, and its decoder has
      handed out a prefix of the packets sent; once Send has returned for all of them and nothing is under way,
      it has handed out exactly the packets sent. */
  lemma EveryRunDelivers(u: Setup, s: State, steps: seq<Step>)
    requires SetupOk(u) && u.c.tail < 128 && Init(s) && IsRun(u, s, steps)
    ensures var t := After(u, s, steps);
            && t.received <= Wire(u.c, u.ps)
            && Scan(u.c, t.received).frames <= Frames(u.ps)
            && (t.k == |u.ps| && Drained(t) ==> Scan(u.c, t.received) == Scanned(Frames(u.ps), []))
  {
    InitInv(u, s);
    RunKeepsInv(u, s, steps);
    Delivered(u, After(u, s, steps));
  }

  lemma Delivered(u: Setup, t: State)
    requires SetupOk(u) && u.c.tail < 128 && Inv(u, t)
    ensures t.received <= Wire(u.c, u.ps)
    ensures Scan(u.c, t.received).frames <= Frames(u.ps)
    ensures t.k == |u.ps| && Drained(t) ==> Scan(u.c, t.received) == Scanned(Frames(u.ps), [])
  {
    IssuedPrefix(u, t);
    PrefixScans(u.c, u.ps, t.received);
    if t.k == |u.ps| && Drained(t) {
      AllReceived(u, t);
      ScanWire(u.c, u.ps);
    }
  }

  lemma PrefixScans(c: Config, ps: seq<Packet>, received: seq<byte>)
    requires AllSendable(c, ps) && c.tail < 128 && received <= Wire(c, ps)
    ensures Scan(c, received).frames <= Frames(ps)
  {
    var rest := Wire(c, ps)[|received|..];
    assert Wire(c, ps) == received + rest;
    ScanGrows(c, received, rest);
    ScanWire(c, ps);
  }

  lemma InitInv(u: Setup, s: State)
    requires SetupOk(u) && Init(s)
    ensures Inv(u, s)
  {
    assert u.ps[..0] == [] && InUse(s) == [] && InFlight(s) == [];
  }

  lemma AllReceived(u: Setup, t: State)
    requires SetupOk(u) && Inv(u, t) && t.k == |u.ps| && Drained(t)
    ensures t.received == Wire(u.c, u.ps)
  {
    assert InUse(t) == [] && InFlight(t) == [];
    assert u.ps[..t.k] == u.ps;
    assert t.received + ([] + ([] + [])) == t.received && Issued(u, t) == Wire(u.c, u.ps) + [];
  }
}
