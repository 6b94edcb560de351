/** A SOCKS session as a value: what the event loop owes it, what its callbacks do, and what holds of all its runs. */
module SocksRuns {
  import opened Basics
  import opened S5State

  const BUFSIZE := 2048
  const UV_ECANCELED := -125

  datatype SessState =
    | Handshake | ReqStart | ReqParse | ReqLookup | ReqConnect | ProxyStart | Proxy | Kill
    | AlmostDead(k: nat)      // 0 to 4: finalizers completed, counted so that 5 of them are dead
    | Dead

  /** What one connection is owed: a read, the completion of a write of some bytes, the close callbacks of its stream
      and of its timer. And its past: the bytes read from it while relaying, and the bytes that have left to it. */
  datatype Line = Line(
    reading: bool, out: Option<seq<byte>>, stream: bool, timer: bool, received: seq<byte>, wire: seq<byte>)

  /** `lookup` and `connect`: the callback of the host lookup or of the connect is due. `leaks`: a connect that failed
      at once after a host lookup has started the teardown. */
  datatype View = View(
    state: SessState, parser: Ctx, incoming: Line, outgoing: Line, lookup: bool, connect: bool, leaks: bool)

  /** What the surroundings decide: the server's rules, the outcome of starting to connect, the local address and
      port, of either family, for the reply to the client. */
  datatype Env = Env(authNone: bool, access: bool, connectErr: int, local: seq<byte>)

  predicate EnvOk(env: Env) {
    |env.local| == 6 || |env.local| == 18
  }

  /** A callback of the event loop. `client` says for which of the two connections. */
  datatype Callback =
    | ReadDone(client: bool, n: int, data: seq<byte>)
    | WriteDone(client: bool, status: int)
    | LookupDone(status: int)
    | ConnectDone(status: int)
    | TimerExpire(client: bool)
    | CloseDone(client: bool, ofStream: bool)

  datatype Step = Step(cb: Callback, env: Env)

  const IDLE := Line(false, None, false, false, [], [])

  ghost predicate IsInit(v: View) {
    && v.state.Handshake? && CtxOk(v.parser) && v.incoming == IDLE.(reading := true) && v.outgoing == IDLE
    && !v.lookup && !v.connect && !v.leaks
  }

  /** A parser that has read nothing. */
  ghost predicate Fresh(x: Ctx) {
    CtxOk(x) && x.state.Version? && x.methods == 0
  }

  function Of(v: View, client: bool): Line {
    if client then v.incoming else v.outgoing
  }

  function With(v: View, client: bool, l: Line): View {
    if client then v.(incoming := l) else v.(outgoing := l)
  }

  // ---------- what is allowed ----------

  /** Closing a stream reports its unfinished write as cancelled, and before the close callback. Idle timers expire
      only while relaying. */
  predicate Enabled(v: View, cb: Callback) {
    match cb
    case ReadDone(client, n, data) =>
      Of(v, client).reading && n <= BUFSIZE && |data| == if n < 0 then 0 else n
    case WriteDone(client, status) =>
      Of(v, client).out.Some? && status <= 0 && (Of(v, client).stream <==> status == UV_ECANCELED)
    case LookupDone(status) => v.lookup
    case ConnectDone(status) => v.connect && status != UV_ECANCELED
    case TimerExpire(client) => v.state.Proxy?
    case CloseDone(client, ofStream) =>
      if ofStream then Of(v, client).stream && Of(v, client).out.None? else Of(v, client).timer
  }

  // ---------- what the callbacks do ----------

  /** Nothing has been read or written in between. */
  predicate SamePast(v: View, t: View) {
    && t.incoming.received == v.incoming.received && t.incoming.wire == v.incoming.wire
    && t.outgoing.received == v.outgoing.received && t.outgoing.wire == v.outgoing.wire
  }

  function Closed(l: Line): Line {
    l.(reading := false, stream := true, timer := true)
  }

  /** do_kill. Should the state still be that of a host lookup, one more callback is expected than the four that the
      closing brings. */
  function Killed(v: View): (t: View)
    ensures SamePast(v, t)
  {
    v.(state := if v.state.ReqLookup? then AlmostDead(0) else AlmostDead(1),
       leaks := v.state.ReqLookup?, incoming := Closed(v.incoming), outgoing := Closed(v.outgoing))
  }

  function Listening(v: View, state: SessState): (t: View)
    ensures SamePast(v, t)
  {
    v.(state := state, incoming := v.incoming.(reading := true))
  }

  function Replying(v: View, state: SessState, reply: seq<byte>): (t: View)
    ensures SamePast(v, t)
  {
    v.(state := state, incoming := v.incoming.(out := Some(reply)))
  }

  const NO_AUTH: seq<byte> := [5, 0]
  const NO_METHOD: seq<byte> := [5, 255]
  const UNREACHABLE: seq<byte> := [5, 4, 0, 1, 0, 0, 0, 0, 0, 0]
  const NOT_ALLOWED: seq<byte> := [5, 2, 0, 1, 0, 0, 0, 0, 0, 0]
  const REFUSED: seq<byte> := [5, 5, 0, 1, 0, 0, 0, 0, 0, 0]

  function Success(env: Env): seq<byte> {
    [5, 0, 0, if |env.local| == 6 then 1 else 4] + env.local
  }

  /** The greeting, or a part of it. */
  function OnHandshake(v: View, data: seq<byte>, env: Env): (t: View)
    requires CtxOk(v.parser)
    ensures CtxOk(t.parser) && SamePast(v, t)
  {
    var r := Parse(v.parser, data);
    var u := v.(parser := r.ctx);
    if r.event == Ok then Listening(u, Handshake)
    else if r.used != |data| || r.event != AuthSelect then Killed(u)
    else if HasBit(r.ctx.methods, AUTH_NONE) && env.authNone then
      Replying(v.(parser := r.ctx.(state := ReqVersion)), ReqStart, NO_AUTH)
    else Replying(u, Kill, NO_METHOD)
  }

  /** The request, or a part of it. */
  function OnRequest(v: View, data: seq<byte>, env: Env): (t: View)
    requires CtxOk(v.parser)
    ensures CtxOk(t.parser) && SamePast(v, t)
  {
    var r := Parse(v.parser, data);
    var u := v.(parser := r.ctx);
    if r.event == Ok then Listening(u, ReqParse)
    else if r.used != |data| || r.event != ExecCmd || r.ctx.cmd != TcpConnect then Killed(u)
    else if r.ctx.atyp == Host then u.(state := ReqLookup, lookup := true)
    else Connecting(u, env)
  }

  function Connecting(v: View, env: Env): (t: View)
    ensures SamePast(v, t)
  {
    if !env.access then Replying(v, Kill, NOT_ALLOWED)
    else if env.connectErr != 0 then Killed(v)
    else v.(state := ReqConnect, connect := true)
  }

  function Proxying(v: View): (t: View)
    ensures SamePast(v, t)
  {
    v.(state := Proxy, incoming := v.incoming.(reading := true), outgoing := v.outgoing.(reading := true))
  }

  /** One direction of the relay, from `b` to `a`: what has been read is written, and what has been written makes room
      to read. */
  function Cycled(v: View, toClient: bool, got: Option<seq<byte>>): (t: View)
    ensures SamePast(v, t)
  {
    var a, b := Of(v, toClient), Of(v, !toClient);
    if a.out.Some? || b.reading then v
    else if got.Some? then With(v, toClient, a.(out := got))
    else With(v, !toClient, b.(reading := true))
  }

  function Counted(v: View): (t: View)
    ensures SamePast(v, t)
  {
    match v.state
    case AlmostDead(k) => v.(state := if k == 4 then SessState.Dead else AlmostDead(k + 1))
    case _ => v
  }

  function OnFailure(v: View): (t: View)
    ensures SamePast(v, t)
  {
    if v.state.ReqLookup? then Replying(v, Kill, UNREACHABLE)
    else if v.state.ReqConnect? then Replying(v, Kill, REFUSED)
    else Killed(v)
  }

  function OnData(v: View, data: seq<byte>, env: Env): (t: View)
    requires CtxOk(v.parser)
    ensures CtxOk(t.parser) && SamePast(v, t)
  {
    match v.state
    case Handshake => OnHandshake(v, data, env)
    case ReqParse => OnRequest(v, data, env)
    case _ => v
  }

  function OnDone(v: View, env: Env): (t: View)
    ensures SamePast(v, t)
  {
    match v.state
    case ReqStart => Listening(v, ReqParse)
    case ReqLookup => Connecting(v, env)
    case ReqConnect => Replying(v, ProxyStart, Success(env))
    case ProxyStart => Proxying(v)
    case Kill => Killed(v)
    case _ => v
  }

  /** do_next: `failed` says whether the callback has reported an error, and `got` what has been read. */
  function Proceed(v: View, failed: bool, got: Option<seq<byte>>, env: Env): (t: View)
    requires CtxOk(v.parser)
    ensures CtxOk(t.parser) && SamePast(v, t)
  {
    if v.state.AlmostDead? || v.state.Dead? then Counted(v)
    else if failed then OnFailure(v)
    else if v.state.Proxy? then Cycled(Cycled(v, true, got), false, got)
    else if got.Some? then OnData(v, got.value, env)
    else OnDone(v, env)
  }

  /** What a callback notes down before do_next. */
  function Noted(v: View, cb: Callback): View
    requires Enabled(v, cb)
  {
    match cb
    case ReadDone(client, n, data) =>
      var l := Of(v, client);
      With(v, client, l.(reading := false, received := if v.state.Proxy? then l.received + data else l.received))
    case WriteDone(client, status) =>
      var l := Of(v, client);
      With(v, client, l.(out := None, wire := if v.state.Proxy? && status == 0 then l.wire + l.out.value else l.wire))
    case LookupDone(status) => v.(lookup := false)
    case ConnectDone(status) => v.(connect := false)
    case TimerExpire(client) => v
    case CloseDone(client, ofStream) =>
      var l := Of(v, client);
      With(v, client, if ofStream then l.(stream := false) else l.(timer := false))
  }

  predicate Failed(cb: Callback) {
    match cb
    case ReadDone(client, n, data) => n < 0
    case WriteDone(client, status) => status < 0
    case LookupDone(status) => status < 0
    case ConnectDone(status) => status != 0
    case TimerExpire(client) => true
    case CloseDone(client, ofStream) => false
  }

  function Got(cb: Callback): Option<seq<byte>> {
    if cb.ReadDone? && cb.n >= 0 then Some(cb.data) else None
  }

  /** A cancelled write is not passed on to do_next. */
  function Apply(v: View, step: Step): (t: View)
    requires CtxOk(v.parser) && Enabled(v, step.cb)
    ensures CtxOk(t.parser)
  {
    var u := Noted(v, step.cb);
    if step.cb.WriteDone? && step.cb.status == UV_ECANCELED then u
    else Proceed(u, Failed(step.cb), Got(step.cb), step.env)
  }

  // ---------- the invariant ----------

  function Due(v: View): nat {
    (if v.incoming.stream then 1 else 0) + (if v.incoming.timer then 1 else 0) +
    (if v.outgoing.stream then 1 else 0) + if v.outgoing.timer then 1 else 0
  }

  function Pending(l: Line): seq<byte> {
    if l.out.Some? then l.out.value else []
  }

  /** Data goes from `b` to `a`: either `b` is being read or `a` is being written, never both, and what has been read
      from `b` is what has left to `a` and what is being written to it. */
  ghost predicate Relaying(a: Line, b: Line) {
    && b.received == a.wire + Pending(a) && (b.reading <==> a.out.None?) && !a.stream && !a.timer
  }

  /** Closed, and a write that is under way is reported before the close callback of the stream. What has left is
      still what has been read on the other side, from the start. */
  ghost predicate TearingDown(a: Line, b: Line) {
    !a.reading && (a.out.Some? ==> a.stream) && a.wire <= b.received
  }

  ghost predicate Inv(v: View) {
    && CtxOk(v.parser) && (v.lookup <==> v.state.ReqLookup?) && (v.connect <==> v.state.ReqConnect?)
    && match v.state
       case Handshake => v.incoming == IDLE.(reading := true) && v.outgoing == IDLE && !v.leaks
       case ReqParse => v.incoming == IDLE.(reading := true) && v.outgoing == IDLE && !v.leaks
       case ReqStart => Writing(v)
       case ProxyStart => Writing(v)
       case Kill => Writing(v)
       case ReqLookup => v.incoming == v.outgoing == IDLE && !v.leaks
       case ReqConnect => v.incoming == v.outgoing == IDLE && !v.leaks
       case Proxy => Relaying(v.incoming, v.outgoing) && Relaying(v.outgoing, v.incoming) && !v.leaks
       case AlmostDead(k) => TornDown(v) && k + Due(v) == (if v.leaks then 4 else 5) && k <= 4
       case Dead => TornDown(v) && Due(v) == 0 && !v.leaks
  }

  ghost predicate Writing(v: View) {
    v.incoming.out.Some? && v.incoming == IDLE.(out := v.incoming.out) && v.outgoing == IDLE && !v.leaks
  }

  ghost predicate TornDown(v: View) {
    TearingDown(v.incoming, v.outgoing) && TearingDown(v.outgoing, v.incoming)
  }

  lemma KilledInv(v: View)
    requires CtxOk(v.parser) && !v.state.ReqLookup? && !v.lookup && !v.connect && Due(v) == 0
    requires v.incoming.wire <= v.outgoing.received && v.outgoing.wire <= v.incoming.received
    ensures Inv(Killed(v)) && Killed(v).state == AlmostDead(1)
  {
  }

  lemma RelayReads(v: View, client: bool, n: int, data: seq<byte>, env: Env)
    requires Inv(v) && v.state.Proxy? && Enabled(v, ReadDone(client, n, data))
    ensures Inv(Apply(v, Step(ReadDone(client, n, data), env)))
    ensures var t, a, b := Apply(v, Step(ReadDone(client, n, data), env)), Of(v, !client), Of(v, client);
            t == if n < 0 then Killed(With(v, client, b.(reading := false)))
                 else With(With(v, client, b.(reading := false, received := b.received + data)), !client,
                           a.(out := Some(data)))
  {
    var a, b := Of(v, !client), Of(v, client);
    assert Relaying(a, b) && a.wire + [] == a.wire;
    if n < 0 {
      assert b.received + data == b.received;
      KilledInv(With(v, client, b.(reading := false)));
    }
  }

  lemma RelayWrites(v: View, client: bool, status: int, env: Env)
    requires Inv(v) && v.state.Proxy? && Enabled(v, WriteDone(client, status))
    ensures Inv(Apply(v, Step(WriteDone(client, status), env)))
    ensures var t, a, b := Apply(v, Step(WriteDone(client, status), env)), Of(v, client), Of(v, !client);
            t == if status < 0 then Killed(With(v, client, a.(out := None)))
                 else With(With(v, client, a.(out := None, wire := a.wire + a.out.value)), !client, b.(reading := true))
  {
    var a, b := Of(v, client), Of(v, !client);
    assert Relaying(a, b) && a.wire + a.out.value + [] == a.wire + a.out.value;
    if status < 0 {
      KilledInv(With(v, client, a.(out := None)));
    }
  }

  lemma RelayKeepsInv(v: View, step: Step)
    requires Inv(v) && v.state.Proxy? && Enabled(v, step.cb)
    ensures Inv(Apply(v, step))
  {
    match step.cb
    case ReadDone(client, n, data) => RelayReads(v, client, n, data, step.env);
    case WriteDone(client, status) => RelayWrites(v, client, status, step.env);
    case TimerExpire(client) => KilledInv(v);
    case _ =>
  }

  ghost predicate Ending(v: View) {
    v.state.AlmostDead? || v.state.Dead?
  }

  /** A close callback is counted. */
  lemma CloseCounts(v: View, client: bool, ofStream: bool, env: Env)
    requires Inv(v) && Ending(v) && Enabled(v, CloseDone(client, ofStream))
    ensures var t := Apply(v, Step(CloseDone(client, ofStream), env));
            && Inv(t) && t.leaks == v.leaks && v.state.AlmostDead?
            && t.state == if v.state.k == 4 then SessState.Dead else AlmostDead(v.state.k + 1)
  {
    var l := Of(v, client);
    var u := With(v, client, if ofStream then l.(stream := false) else l.(timer := false));
    assert Due(u) == Due(v) - 1;
  }

  /** A cancelled write changes nothing else. */
  lemma CancelIsQuiet(v: View, client: bool, status: int, env: Env)
    requires Inv(v) && Ending(v) && Enabled(v, WriteDone(client, status))
    ensures var t := Apply(v, Step(WriteDone(client, status), env));
            Inv(t) && t.leaks == v.leaks && t.state == v.state && !v.state.Dead?
  {
    var u := With(v, client, Of(v, client).(out := None));
    assert Due(u) == Due(v);
  }

  /** In a teardown nothing else can come, and at its end nothing at all. */
  lemma TeardownStep(v: View, step: Step)
    requires Inv(v) && Ending(v) && Enabled(v, step.cb)
    ensures Inv(Apply(v, step)) && Apply(v, step).leaks == v.leaks && v.state.AlmostDead?
    ensures Apply(v, step).state ==
            if !step.cb.CloseDone? then v.state
            else if v.state.k == 4 then SessState.Dead else AlmostDead(v.state.k + 1)
  {
    match step.cb
    case CloseDone(client, ofStream) => CloseCounts(v, client, ofStream, step.env);
    case WriteDone(client, status) => CancelIsQuiet(v, client, status, step.env);
    case _ =>
  }

  lemma SetupKeepsInv(v: View, step: Step)
    requires Inv(v) && !v.state.Proxy? && !Ending(v) && Enabled(v, step.cb)
    ensures Inv(Apply(v, step))
  {
    match step.cb
    case ReadDone(client, n, data) => SetupReads(v, n, data, step.env);
    case WriteDone(client, status) =>
      assert Writing(v) && client;
      KilledInv(v.(incoming := IDLE));
    case LookupDone(status) =>
    case ConnectDone(status) =>
    case _ =>
  }

  lemma SetupReads(v: View, n: int, data: seq<byte>, env: Env)
    requires Inv(v) && (v.state.Handshake? || v.state.ReqParse?) && Enabled(v, ReadDone(true, n, data))
    ensures Inv(Apply(v, Step(ReadDone(true, n, data), env)))
  {
    var u := v.(incoming := IDLE);
    KilledInv(u);
    if n >= 0 {
      var w := u.(parser := Parse(u.parser, data).ctx);
      KilledInv(w);
    }
  }

  lemma StepKeepsInv(v: View, step: Step)
    requires Inv(v) && Enabled(v, step.cb)
    ensures Inv(Apply(v, step))
  {
    if v.state.Proxy? {
      RelayKeepsInv(v, step);
    } else if Ending(v) {
      TeardownStep(v, step);
    } else {
      SetupKeepsInv(v, step);
    }
  }

  // ---------- what a callback finds ----------

  /** Both directions of the relay are under way. */
  ghost predicate Flowing(v: View) {
    (v.outgoing.reading || v.incoming.out.Some?) && (v.incoming.reading || v.outgoing.out.Some?)
  }

  ghost predicate ReadFinds(v: View, client: bool) {
    && Of(v, client).reading && Of(v, !client).out.None?
    && if v.state.Proxy? then Flowing(v)
       else client && (v.state.Handshake? || v.state.ReqParse?) && v.incoming.out.None? && !v.outgoing.reading
  }

  ghost predicate WriteFinds(v: View, client: bool) {
    && Of(v, client).out.Some? && !Of(v, !client).reading
    && if v.state.Proxy? then Flowing(v)
       else client && (v.state.ReqStart? || v.state.ProxyStart? || v.state.Kill?) && v.outgoing.out.None?
            && !v.incoming.reading
  }

  lemma Finds(v: View, cb: Callback)
    requires Inv(v) && Enabled(v, cb)
    ensures cb.ReadDone? ==> ReadFinds(v, cb.client)
    ensures cb.WriteDone? && cb.status != UV_ECANCELED ==> WriteFinds(v, cb.client)
    ensures cb.LookupDone? ==> v.state.ReqLookup? && v.incoming == v.outgoing == IDLE
    ensures cb.ConnectDone? ==> v.state.ReqConnect? && v.incoming == v.outgoing == IDLE
    ensures cb.WriteDone? && cb.status == UV_ECANCELED ==> Ending(v)
    ensures cb.CloseDone? ==> v.state.AlmostDead?
  {
  }

  // ---------- runs ----------

  ghost predicate IsRun(v: View, steps: seq<Step>)
    requires CtxOk(v.parser)
    decreases |steps|
  {
    steps == [] || (Enabled(v, steps[0].cb) && IsRun(Apply(v, steps[0]), steps[1..]))
  }

  ghost function After(v: View, steps: seq<Step>): (t: View)
    requires CtxOk(v.parser) && IsRun(v, steps)
    ensures CtxOk(t.parser)
    decreases |steps|
  {
    if steps == [] then v else After(Apply(v, steps[0]), steps[1..])
  }

  lemma {:induction false} RunKeepsInv(v: View, steps: seq<Step>)
    requires Inv(v) && IsRun(v, steps)
    ensures Inv(After(v, steps))
    decreases |steps|
  {
    if steps != [] {
      StepKeepsInv(v, steps[0]);
      RunKeepsInv(Apply(v, steps[0]), steps[1..]);
    }
  }

  // ---------- the relay ----------

  /** What a callback hands over from one connection while relaying. */
  ghost function Heard(v: View, cb: Callback, client: bool): seq<byte> {
    if v.state.Proxy? && cb.ReadDone? && cb.client == client then cb.data else []
  }

  /** What a callback reports as written to one connection while relaying. */
  ghost function Left(v: View, cb: Callback, client: bool): seq<byte> {
    if v.state.Proxy? && cb.WriteDone? && cb.client == client && cb.status == 0 then Pending(Of(v, client)) else []
  }

  /** All that has been read from one connection since the relay began. */
  ghost function Delivered(v: View, steps: seq<Step>, client: bool): seq<byte>
    requires CtxOk(v.parser) && IsRun(v, steps)
    decreases |steps|
  {
    if steps == [] then []
    else Heard(v, steps[0].cb, client) + Delivered(Apply(v, steps[0]), steps[1..], client)
  }

  /** All that has been written to one connection since the relay began. */
  ghost function Sent(v: View, steps: seq<Step>, client: bool): seq<byte>
    requires CtxOk(v.parser) && IsRun(v, steps)
    decreases |steps|
  {
    if steps == [] then []
    else Left(v, steps[0].cb, client) + Sent(Apply(v, steps[0]), steps[1..], client)
  }

  lemma NotedPast(v: View, cb: Callback, client: bool)
    requires Enabled(v, cb)
    ensures Of(Noted(v, cb), client).received == Of(v, client).received + Heard(v, cb, client)
    ensures Of(Noted(v, cb), client).wire == Of(v, client).wire + Left(v, cb, client)
  {
    assert Of(v, client).received + [] == Of(v, client).received;
    assert Of(v, client).wire + [] == Of(v, client).wire;
  }

  lemma StepPast(v: View, step: Step, client: bool)
    requires CtxOk(v.parser) && Enabled(v, step.cb)
    ensures Of(Apply(v, step), client).received == Of(v, client).received + Heard(v, step.cb, client)
    ensures Of(Apply(v, step), client).wire == Of(v, client).wire + Left(v, step.cb, client)
  {
    NotedPast(v, step.cb, client);
  }

  lemma {:induction false} RunPast(v: View, steps: seq<Step>, client: bool)
    requires CtxOk(v.parser) && IsRun(v, steps)
    ensures Of(After(v, steps), client).received == Of(v, client).received + Delivered(v, steps, client)
    ensures Of(After(v, steps), client).wire == Of(v, client).wire + Sent(v, steps, client)
    decreases |steps|
  {
    var l := Of(v, client);
    if steps == [] {
      assert l.received + [] == l.received && l.wire + [] == l.wire;
    } else {
      var u := Apply(v, steps[0]);
      StepPast(v, steps[0], client);
      RunPast(u, steps[1..], client);
      Associates(l.received, Heard(v, steps[0].cb, client), Delivered(u, steps[1..], client));
      Associates(l.wire, Left(v, steps[0].cb, client), Sent(u, steps[1..], client));
    }
  }

  /** In every run, whatever the callbacks and the surroundings: what has been written to one side is what has been
      read from the other, in order and from the start of the relay. While relaying all of it has been written but for
      the one write under way, and a connection is read exactly when nothing is being written from its buffer. */
  lemma EveryRunRelays(v: View, steps: seq<Step>, client: bool)
    requires IsInit(v) && IsRun(v, steps)
    ensures Sent(v, steps, client) <= Delivered(v, steps, !client)
    ensures var t := After(v, steps);
            t.state.Proxy? ==>
              && Delivered(v, steps, !client) == Sent(v, steps, client) + Pending(Of(t, client))
              && (Of(t, !client).reading <==> Of(t, client).out.None?)
  {
    RunKeepsInv(v, steps);
    RunPast(v, steps, client);
    RunPast(v, steps, !client);
    FromNothing(Sent(v, steps, client));
    FromNothing(Delivered(v, steps, !client));
    if After(v, steps).state.Proxy? || Ending(After(v, steps)) {
    } else {
      assert Of(After(v, steps), client).wire == [];
    }
  }

  lemma FromNothing(q: seq<byte>)
    ensures [] + q == q
  {
  }

  // ---------- the teardown ----------

  ghost function Closes(steps: seq<Step>): nat {
    if steps == [] then 0 else (if steps[0].cb.CloseDone? then 1 else 0) + Closes(steps[1..])
  }

  lemma {:induction false} TeardownRun(v: View, steps: seq<Step>)
    requires Inv(v) && v.state.AlmostDead? && IsRun(v, steps)
    ensures v.state.k + Closes(steps) <= 5 && After(v, steps).leaks == v.leaks
    ensures After(v, steps).state ==
            if v.state.k + Closes(steps) == 5 then SessState.Dead else AlmostDead(v.state.k + Closes(steps))
    decreases |steps|
  {
    if steps != [] {
      var u := Apply(v, steps[0]);
      TeardownStep(v, steps[0]);
      if u.state.AlmostDead? {
        TeardownRun(u, steps[1..]);
      } else if steps[1..] != [] {
        TeardownStep(u, steps[1]);
      }
    }
  }

  /** Whenever the teardown has begun, exactly four close callbacks lead to the dead session, in any order and among
      any cancelled writes; then no callback is left that could touch it, and it cannot rest before. */
  lemma FourClosesToDead(v: View, steps: seq<Step>, more: seq<Step>)
    requires IsInit(v) && IsRun(v, steps) && After(v, steps).state == AlmostDead(1) && !After(v, steps).leaks
    requires IsRun(After(v, steps), more)
    ensures var t := After(After(v, steps), more);
            && Closes(more) <= 4 && (t.state.Dead? <==> Closes(more) == 4)
            && (t.state.Dead? <==> forall cb :: !Enabled(t, cb))
  {
    RunKeepsInv(v, steps);
    RunKeepsInv(After(v, steps), more);
    TeardownRun(After(v, steps), more);
    Rests(After(After(v, steps), more));
  }

  lemma Rests(v: View)
    requires Inv(v) && Ending(v) && !v.leaks
    ensures v.state.Dead? <==> forall cb :: !Enabled(v, cb)
  {
    if v.state.AlmostDead? {
      var client := v.incoming.stream || v.incoming.timer;
      var l := Of(v, client);
      assert l.stream || l.timer;
      assert if l.timer then Enabled(v, CloseDone(client, false))
             else if l.out.Some? then Enabled(v, WriteDone(client, UV_ECANCELED))
             else Enabled(v, CloseDone(client, true));
    }
  }

  /** A session leaks exactly when a connect fails at once after a host lookup: then no run gets it to be dead. */
  lemma LeakIsForGood(v: View, steps: seq<Step>)
    requires Inv(v) && v.leaks && IsRun(v, steps)
    ensures After(v, steps).state.AlmostDead? && After(v, steps).leaks
  {
    RunKeepsInv(v, steps);
    TeardownRun(v, steps);
  }

  lemma LeaksExactly(v: View, step: Step)
    requires Inv(v) && !v.leaks && Enabled(v, step.cb)
    ensures Apply(v, step).leaks <==>
            step.cb.LookupDone? && step.cb.status >= 0 && step.env.access && step.env.connectErr != 0
  {
    StepKeepsInv(v, step);
    if Ending(v) {
      TeardownStep(v, step);
    }
  }

  /** Where a host lookup leads. */
  lemma LookupLeads(v: View, status: int, env: Env)
    requires Inv(v) && v.lookup
    ensures var t := Apply(v, Step(LookupDone(status), env));
            && !t.lookup && (t.connect <==> t.state.ReqConnect?)
            && if status < 0 then t.state.Kill? && t.incoming.out == Some(UNREACHABLE)
               else if !env.access then t.state.Kill? && t.incoming.out == Some(NOT_ALLOWED)
               else if env.connectErr == 0 then t.state.ReqConnect?
               else t.state == AlmostDead(0) && t.leaks && Due(t) == 4
  {
    StepKeepsInv(v, Step(LookupDone(status), env));
  }
}
