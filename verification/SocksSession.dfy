/** A SOCKS session: two connections, the steps that set them up, the relay between them, and the tearing down.
    Each method named `...Done` or `...Expire` is a callback of the event loop. */
module SocksSession {
  import opened Basics
  import opened S5State
  import opened SocksRuns

  const UV_ETIMEDOUT := -110

  datatype ConnState = CBusy | CDone | CStop | CDead

  /** What a write request reads its bytes from until it completes. */
  datatype Write = NoWrite | FromText(text: seq<byte>) | FromBuf(conn: Conn, len: nat)

  class Conn {
    var rdstate: ConnState
    var wrstate: ConnState
    var result: int
    var buf: seq<byte>
    var reading: bool         // uv_read_start is in effect
    var write: Write          // the write request under way
    var streamClosing: bool   // the stream's close callback is due
    var timerClosing: bool    // the timer's close callback is due
    /** Bytes read while relaying, and bytes that have left since then. */
    ghost var received: seq<byte>
    ghost var wire: seq<byte>

    constructor ()
      ensures write.NoWrite? && Settled() && Line() == IDLE && |buf| == BUFSIZE
    {
      rdstate, wrstate, result, buf := CStop, CStop, 0, seq(BUFSIZE, _ => 0);
      reading, write, streamClosing, timerClosing := false, NoWrite, false, false;
      received, wire := [], [];
    }

    ghost predicate WriteOk()
      reads this, Source()
    {
      write.FromBuf? ==> write.len <= |write.conn.buf|
    }

    /** The connection whose buffer is being written. */
    ghost function Source(): set<Conn>
      reads this
    {
      if write.FromBuf? then {write.conn} else {}
    }

    /** The bytes of the write under way, as they stand in memory. */
    ghost function Out(): Option<seq<byte>>
      requires WriteOk()
      reads this, Source()
    {
      match write
      case NoWrite => None
      case FromText(text) => Some(text)
      case FromBuf(conn, len) => Some(conn.buf[..len])
    }

    ghost function Line(): Line
      requires WriteOk()
      reads this, Source()
    {
      SocksRuns.Line(reading, Out(), streamClosing, timerClosing, received, wire)
    }

    /** Between callbacks, before the teardown. */
    ghost predicate Settled()
      reads this
    {
      rdstate == (if reading then CBusy else CStop) && wrstate == if write.NoWrite? then CStop else CBusy
    }

    /** conn_read */
    method Read()
      requires rdstate == CStop && !reading
      modifies this`rdstate, this`reading
      ensures rdstate == CBusy && reading
    {
      reading := true;
      rdstate := CBusy;
    }

    /** conn_write */
    method Put(w: Write)
      requires (wrstate == CStop || wrstate == CDone) && write.NoWrite? && !w.NoWrite?
      modifies this`wrstate, this`write
      ensures wrstate == CBusy && write == w
    {
      wrstate := CBusy;
      write := w;
    }

    /** A completed read: what conn_read_done sets. */
    method Take(n: int, data: seq<byte>, relaying: bool)
      requires n <= BUFSIZE && |data| == (if n < 0 then 0 else n) && |buf| == BUFSIZE
      modifies this`rdstate, this`result, this`buf, this`received, this`reading
      ensures rdstate == CDone && result == n && !reading && |buf| == BUFSIZE && (n >= 0 ==> buf[..n] == data)
      ensures received == old(if relaying then received + data else received)
    {
      rdstate := CDone;
      result := n;
      buf := data + buf[|data|..];
      if relaying {
        received := received + data;
      }
      reading := false;
      assert buf[..|data|] == data;
    }

    /** A completed write: what conn_write_done sets. */
    method Give(status: int, relaying: bool)
      requires WriteOk() && !write.NoWrite?
      modifies this`wrstate, this`result, this`write, this`wire
      ensures wrstate == CDone && result == status && write.NoWrite?
      ensures wire == old(if relaying && status == 0 then wire + Out().value else wire)
    {
      if relaying && status == 0 {
        wire := wire + Out().value;
      }
      wrstate := CDone;
      result := status;
      write := NoWrite;
    }

    /** One of the two handles is closed. */
    method Finalize(ofStream: bool)
      modifies this`streamClosing, this`timerClosing
      ensures streamClosing == (if ofStream then false else old(streamClosing))
      ensures timerClosing == (if ofStream then old(timerClosing) else false)
    {
      if ofStream {
        streamClosing := false;
      } else {
        timerClosing := false;
      }
    }

    /** conn_close: two handles are closed, the stream and the timer. */
    method Close()
      requires rdstate != CDead && wrstate != CDead
      modifies this`rdstate, this`wrstate, this`reading, this`streamClosing, this`timerClosing
      ensures rdstate == CDead && wrstate == CDead && !reading && streamClosing && timerClosing
    {
      rdstate, wrstate, reading, streamClosing, timerClosing := CDead, CDead, false, true, true;
    }
  }

  class Session {
    var state: SessState
    var parser: Ctx
    const incoming: Conn
    const outgoing: Conn
    var lookup: bool          // the getaddrinfo callback is due
    var connect: bool         // the connect callback is due
    /** A connect that failed at once after a host lookup has started the teardown. */
    ghost var leaks: bool

    /** Each connection writes from a constant text or from one of the two buffers. */
    ghost predicate Buffers()
      reads this, incoming, outgoing
    {
      && incoming != outgoing && |incoming.buf| == BUFSIZE && |outgoing.buf| == BUFSIZE && CtxOk(parser)
      && incoming.Source() <= {incoming, outgoing} && outgoing.Source() <= {incoming}
      && incoming.WriteOk() && outgoing.WriteOk()
    }

    ghost function View(): View
      requires Buffers()
      reads this, incoming, outgoing
    {
      SocksRuns.View(state, parser, incoming.Line(), outgoing.Line(), lookup, connect, leaks)
    }

    /** The connections' states are those of the work under way. */
    ghost predicate InStep()
      reads this, incoming, outgoing
    {
      && Buffers()
      && if Ending(View())
         then incoming.rdstate == incoming.wrstate == outgoing.rdstate == outgoing.wrstate == CDead
         else
           && incoming.Settled() && outgoing.Settled()
           && (state.ProxyStart? ==> outgoing.result >= 0)
           && (state.Proxy? ==>
                 incoming.result >= 0 && outgoing.result >= 0 && incoming.Source() <= {outgoing})
    }

    /** Between callbacks. */
    ghost predicate Valid()
      reads this, incoming, outgoing
    {
      InStep() && Inv(View())
    }

    /** client_finish_init */
    constructor ()
      ensures Valid() && IsInit(View()) && Fresh(parser) && fresh(incoming) && fresh(outgoing)
    {
      incoming := new Conn();
      outgoing := new Conn();
      state, lookup, connect, leaks := Handshake, false, false, false;
      parser := Ctx(Version, 0, 0, 0, TcpConnect, Ipv4, 0, 0, 0, seq(BUFLEN, _ => 0), seq(BUFLEN, _ => 0),
                    seq(BUFLEN, _ => 0));
      new;
      incoming.Read();
    }

    // ---------- the steps ----------

    /** Neither reading nor writing, and nothing done. */
    ghost predicate Idle(c: Conn)
      reads c
    {
      c.rdstate == CStop && c.wrstate == CStop && !c.reading && c.write.NoWrite?
    }

    /** On entry to a step that follows a read: `failed` or `got` is its outcome. */
    ghost predicate HasRead(failed: bool, got: Option<seq<byte>>)
      reads this, incoming, outgoing
    {
      && incoming.rdstate == CDone && incoming.wrstate == CStop && !incoming.reading && incoming.write.NoWrite?
      && Idle(outgoing) && incoming.result <= BUFSIZE && |incoming.buf| == BUFSIZE && (failed <==> incoming.result < 0)
      && (!failed ==> got == Some(incoming.buf[..incoming.result]))
    }

    ghost predicate HasWritten(failed: bool, got: Option<seq<byte>>)
      reads this, incoming, outgoing
    {
      && incoming.rdstate == CStop && incoming.wrstate == CDone && !incoming.reading && incoming.write.NoWrite?
      && Idle(outgoing) && (failed <==> incoming.result < 0) && got.None?
    }

    ghost predicate Alive()
      reads this, incoming, outgoing
    {
      && Buffers() && !state.AlmostDead? && !state.Dead? && !incoming.rdstate.CDead?
      && !incoming.wrstate.CDead? && !outgoing.rdstate.CDead? && !outgoing.wrstate.CDead?
    }

    /** On entry to `do_next`. */
    ghost predicate Called(failed: bool, got: Option<seq<byte>>)
      reads this, incoming, outgoing
    {
      && Buffers()
      && match state
         case Handshake => HasRead(failed, got)
         case ReqParse => HasRead(failed, got)
         case ReqStart => HasWritten(failed, got)
         case ProxyStart => HasWritten(failed, got) && outgoing.result >= 0
         case Kill => HasWritten(failed, got)
         case ReqLookup => Idle(incoming) && Idle(outgoing) && (failed <==> outgoing.result < 0) && got.None?
         case ReqConnect => Idle(incoming) && Idle(outgoing) && (failed <==> outgoing.result != 0) && got.None?
         case Proxy =>
           && Alive() && (failed <==> incoming.result < 0 || outgoing.result < 0)
           && incoming.Source() <= {outgoing}
           && (!failed ==> RelayCalled(incoming, outgoing, got) && RelayCalled(outgoing, incoming, got))
         case AlmostDead(k) => incoming.rdstate == incoming.wrstate == outgoing.rdstate == outgoing.wrstate == CDead
         case Dead => false
    }

    method DoNext(ghost failed: bool, ghost got: Option<seq<byte>>, env: Env)
      requires Called(failed, got) && EnvOk(env)
      modifies this, incoming, outgoing
      ensures InStep() && View() == Proceed(old(View()), failed, got, env)
    {
      match state
      case Handshake => DoHandshake(failed, got, env);
      case ReqStart => DoReqStart(failed, got, env);
      case ReqParse => DoReqParse(failed, got, env);
      case ReqLookup => DoReqLookup(failed, got, env);
      case ReqConnect => DoReqConnect(failed, got, env);
      case ProxyStart => DoProxyStart(failed, got, env);
      case Proxy => DoProxy(failed, got, env);
      case Kill => DoKill();
      case AlmostDead(k) => DoAlmostDead();
    }

    method DoAlmostDead()
      requires Buffers() && state.AlmostDead?
      requires incoming.rdstate == incoming.wrstate == outgoing.rdstate == outgoing.wrstate == CDead
      modifies this`state
      ensures InStep() && View() == Counted(old(View()))
    {
      state := if state.k == 4 then SessState.Dead else AlmostDead(state.k + 1);
    }

    /** do_kill. Should the state still be that of a host lookup, one more callback is expected than the four
        that the closing brings. */
    method DoKill()
      requires Alive()
      modifies this`state, this`leaks, incoming, outgoing
      ensures InStep() && View() == Killed(old(View()))
    {
      var newState := AlmostDead(1);
      leaks := state == ReqLookup;
      if state == ReqLookup {
        newState := AlmostDead(0);
      }
      incoming.Close();
      outgoing.Close();
      state := newState;
    }

    ghost predicate Quiet()
      reads this, incoming, outgoing
    {
      Buffers() && Idle(incoming) && Idle(outgoing) && !state.AlmostDead? && !state.Dead?
    }

    /** The next bytes from the client are waited for. */
    method Listen(st: SessState)
      requires Quiet() && (st.Handshake? || st.ReqParse?)
      modifies this`state, incoming`rdstate, incoming`reading
      ensures InStep() && View() == Listening(old(View()), st)
    {
      incoming.Read();
      state := st;
    }

    /** A reply to the client. */
    method Reply(st: SessState, text: seq<byte>)
      requires Quiet() && (st.ReqStart? || st.Kill?)
      modifies this`state, incoming`wrstate, incoming`write
      ensures InStep() && View() == Replying(old(View()), st, text)
    {
      incoming.Put(FromText(text));
      state := st;
    }

    method DoHandshake(ghost failed: bool, ghost got: Option<seq<byte>>, env: Env)
      requires Called(failed, got) && state.Handshake?
      modifies this, incoming, outgoing
      ensures InStep() && View() == Proceed(old(View()), failed, got, env)
    {
      assert incoming.rdstate == CDone && incoming.wrstate == CStop;
      incoming.rdstate := CStop;
      if incoming.result < 0 {
        DoKill();
        return;
      }
      Greeted(incoming.buf[..incoming.result], env);
    }

    method Greeted(data: seq<byte>, env: Env)
      requires Quiet()
      modifies this, incoming, outgoing
      ensures InStep() && View() == OnHandshake(old(View()), data, env)
    {
      var r := S5State.Parse(parser, data);
      parser := r.ctx;
      if r.event == Ok {
        Listen(Handshake);
        return;
      }
      if r.used != |data| || r.event != AuthSelect {
        DoKill();
        return;
      }
      if HasBit(parser.methods, AUTH_NONE) && env.authNone {
        parser := parser.(state := ReqVersion);
        Reply(ReqStart, [5, 0]);
        return;
      }
      Reply(Kill, [5, 255]);
    }

    method DoReqStart(ghost failed: bool, ghost got: Option<seq<byte>>, env: Env)
      requires Called(failed, got) && state.ReqStart?
      modifies this, incoming, outgoing
      ensures InStep() && View() == Proceed(old(View()), failed, got, env)
    {
      assert incoming.rdstate == CStop && incoming.wrstate == CDone;
      incoming.wrstate := CStop;
      if incoming.result < 0 {
        DoKill();
        return;
      }
      Listen(ReqParse);
    }

    method DoReqParse(ghost failed: bool, ghost got: Option<seq<byte>>, env: Env)
      requires Called(failed, got) && state.ReqParse?
      modifies this, incoming, outgoing
      ensures InStep() && View() == Proceed(old(View()), failed, got, env)
    {
      assert incoming.rdstate == CDone && incoming.wrstate == CStop;
      assert outgoing.rdstate == CStop && outgoing.wrstate == CStop;
      incoming.rdstate := CStop;
      if incoming.result < 0 {
        DoKill();
        return;
      }
      Requested(incoming.buf[..incoming.result], env);
    }

    method Requested(data: seq<byte>, env: Env)
      requires Quiet()
      modifies this, incoming, outgoing
      ensures InStep() && View() == OnRequest(old(View()), data, env)
    {
      var r := S5State.Parse(parser, data);
      parser := r.ctx;
      if r.event == Ok {
        Listen(ReqParse);
        return;
      }
      if r.used != |data| || r.event != ExecCmd || parser.cmd != TcpConnect {
        DoKill();
        return;
      }
      if parser.atyp == Host {
        lookup := true;
        state := ReqLookup;
        return;
      }
      DoReqConnectStart(env);
    }

    method DoReqLookup(ghost failed: bool, ghost got: Option<seq<byte>>, env: Env)
      requires Called(failed, got) && state.ReqLookup?
      modifies this, incoming, outgoing
      ensures InStep() && View() == Proceed(old(View()), failed, got, env)
    {
      assert Idle(incoming) && Idle(outgoing);
      if outgoing.result < 0 {
        Reply(Kill, [5, 4, 0, 1, 0, 0, 0, 0, 0, 0]);
        return;
      }
      DoReqConnectStart(env);
    }

    method DoReqConnectStart(env: Env)
      requires Quiet()
      modifies this, incoming, outgoing
      ensures InStep() && View() == Connecting(old(View()), env)
    {
      assert Idle(incoming) && Idle(outgoing);
      if !env.access {
        Reply(Kill, [5, 2, 0, 1, 0, 0, 0, 0, 0, 0]);
        return;
      }
      if env.connectErr != 0 {
        DoKill();
        return;
      }
      connect := true;
      state := ReqConnect;
    }

    method DoReqConnect(ghost failed: bool, ghost got: Option<seq<byte>>, env: Env)
      requires Called(failed, got) && state.ReqConnect? && EnvOk(env)
      modifies this, incoming, outgoing
      ensures InStep() && View() == Proceed(old(View()), failed, got, env)
    {
      assert Idle(incoming) && Idle(outgoing);
      if outgoing.result == 0 {
        var n := 4 + |env.local|;
        incoming.buf := [5, 0, 0, if |env.local| == 6 then 1 else 4] + env.local + incoming.buf[n..];
        assert incoming.buf[..n] == Success(env);
        incoming.Put(FromBuf(incoming, n));
        state := ProxyStart;
      } else {
        Reply(Kill, [5, 5, 0, 1, 0, 0, 0, 0, 0, 0]);
      }
    }

    method DoProxyStart(ghost failed: bool, ghost got: Option<seq<byte>>, env: Env)
      requires Called(failed, got) && state.ProxyStart?
      modifies this, incoming, outgoing
      ensures InStep() && View() == Proceed(old(View()), failed, got, env)
    {
      assert incoming.rdstate == CStop && incoming.wrstate == CDone;
      assert Idle(outgoing);
      incoming.wrstate := CStop;
      if incoming.result < 0 {
        DoKill();
        return;
      }
      StartRelay();
    }

    method StartRelay()
      requires Quiet() && incoming.result >= 0 && outgoing.result >= 0
      modifies this`state, incoming`rdstate, incoming`reading, outgoing`rdstate, outgoing`reading
      ensures InStep() && View() == Proxying(old(View()))
    {
      incoming.Read();
      outgoing.Read();
      state := Proxy;
    }

    method DoProxy(ghost failed: bool, ghost got: Option<seq<byte>>, env: Env)
      requires Called(failed, got) && state.Proxy?
      modifies this, incoming, outgoing
      ensures InStep() && View() == Proceed(old(View()), failed, got, env)
    {
      var stop := Turn(true, incoming, outgoing, failed, got);
      if stop {
        DoKill();
        return;
      }
      // the source tests this result too, but both connections have just been found in order
      stop := Turn(false, outgoing, incoming, failed, got);
      assert !stop;
    }

    /** One direction of the relay. */
    method Turn(ghost toClient: bool, a: Conn, b: Conn, ghost failed: bool, ghost got: Option<seq<byte>>) returns (stop: bool)
      requires Buffers() && state.Proxy? && incoming.Source() <= {outgoing}
      requires (if toClient then a == incoming && b == outgoing else a == outgoing && b == incoming)
      requires (failed <==> a.result < 0 || b.result < 0) && (!failed ==> RelayCalled(a, b, got))
      modifies a`wrstate, a`write, b`rdstate, b`reading
      ensures Buffers() && incoming.Source() <= {outgoing} && stop == failed
      ensures failed ==> a.wrstate == old(a.wrstate) && b.rdstate == old(b.rdstate) && View() == old(View())
      ensures !failed ==> Moving(a, b) && View() == Cycled(old(View()), toClient, got)
    {
      stop := Cycle(a, b, failed, got);
    }

    // ---------- the callbacks ----------

    ghost predicate Mine(c: Conn) {
      c == incoming || c == outgoing
    }

    /** conn_read_done: `n` bytes, or an error below zero. */
    method ReadDone(c: Conn, n: int, data: seq<byte>, env: Env)
      requires Valid() && Mine(c) && Enabled(View(), Callback.ReadDone(c == incoming, n, data)) && EnvOk(env)
      modifies this, incoming, outgoing
      ensures Valid() && View() == Apply(old(View()), Step(Callback.ReadDone(c == incoming, n, data), env))
    {
      ghost var cb := Callback.ReadDone(c == incoming, n, data);
      StepKeepsInv(View(), Step(cb, env));
      Finds(View(), cb);
      TakeIn(c, n, data);
      DoNext(Failed(cb), Got(cb), env);
    }

    method TakeIn(c: Conn, n: int, data: seq<byte>)
      requires InStep() && Mine(c) && ReadFinds(View(), c == incoming)
      requires Enabled(View(), Callback.ReadDone(c == incoming, n, data))
      modifies c`rdstate, c`result, c`buf, c`received, c`reading
      ensures var cb := Callback.ReadDone(c == incoming, n, data);
              Called(Failed(cb), Got(cb)) && View() == Noted(old(View()), cb)
    {
      assert c.rdstate == CBusy;
      c.Take(n, data, state == Proxy);
    }

    /** conn_write_done. A write of a closed connection is reported as cancelled, and the session not touched. */
    method WriteDone(c: Conn, status: int, env: Env)
      requires Valid() && Mine(c) && Enabled(View(), Callback.WriteDone(c == incoming, status)) && EnvOk(env)
      modifies this, incoming, outgoing
      ensures Valid() && View() == Apply(old(View()), Step(Callback.WriteDone(c == incoming, status), env))
    {
      ghost var cb := Callback.WriteDone(c == incoming, status);
      StepKeepsInv(View(), Step(cb, env));
      Finds(View(), cb);
      if status == UV_ECANCELED {
        Cancelled(c);
        return;
      }
      GiveOut(c, status);
      DoNext(Failed(cb), Got(cb), env);
    }

    method Cancelled(c: Conn)
      requires InStep() && Mine(c) && Ending(View()) && Enabled(View(), Callback.WriteDone(c == incoming, UV_ECANCELED))
      modifies c`write
      ensures InStep() && View() == Noted(old(View()), Callback.WriteDone(c == incoming, UV_ECANCELED))
    {
      c.write := NoWrite;
    }

    method GiveOut(c: Conn, status: int)
      requires InStep() && Mine(c) && WriteFinds(View(), c == incoming)
      requires status != UV_ECANCELED && Enabled(View(), Callback.WriteDone(c == incoming, status))
      modifies c`wrstate, c`result, c`write, c`wire
      ensures var cb := Callback.WriteDone(c == incoming, status);
              Called(Failed(cb), Got(cb)) && View() == Noted(old(View()), cb)
    {
      assert c.wrstate == CBusy;
      c.Give(status, state == Proxy);
    }

    /** conn_getaddrinfo_done */
    method LookupDone(status: int, env: Env)
      requires Valid() && Enabled(View(), Callback.LookupDone(status)) && EnvOk(env)
      modifies this, incoming, outgoing
      ensures Valid() && View() == Apply(old(View()), Step(Callback.LookupDone(status), env))
    {
      StepKeepsInv(View(), Step(Callback.LookupDone(status), env));
      Finds(View(), Callback.LookupDone(status));
      lookup := false;
      outgoing.result := status;
      DoNext(status < 0, None, env);
    }

    /** conn_connect_done */
    method ConnectDone(status: int, env: Env)
      requires Valid() && Enabled(View(), Callback.ConnectDone(status)) && EnvOk(env)
      modifies this, incoming, outgoing
      ensures Valid() && View() == Apply(old(View()), Step(Callback.ConnectDone(status), env))
    {
      StepKeepsInv(View(), Step(Callback.ConnectDone(status), env));
      Finds(View(), Callback.ConnectDone(status));
      connect := false;
      outgoing.result := status;
      DoNext(status != 0, None, env);
    }

    /** conn_timer_expire, while relaying. */
    method TimerExpire(c: Conn, env: Env)
      requires Valid() && Mine(c) && Enabled(View(), Callback.TimerExpire(c == incoming)) && EnvOk(env)
      modifies this, incoming, outgoing
      ensures Valid() && View() == Apply(old(View()), Step(Callback.TimerExpire(c == incoming), env))
    {
      StepKeepsInv(View(), Step(Callback.TimerExpire(c == incoming), env));
      Expired(c);
      DoNext(true, None, env);
    }

    method Expired(c: Conn)
      requires InStep() && Mine(c) && state.Proxy?
      modifies c`result
      ensures Called(true, None) && View() == old(View())
    {
      c.result := UV_ETIMEDOUT;
    }

    /** conn_close_done for one of the two handles of a connection. */
    method CloseDone(c: Conn, ofStream: bool, env: Env)
      requires Valid() && Mine(c) && Enabled(View(), Callback.CloseDone(c == incoming, ofStream)) && EnvOk(env)
      modifies this, incoming, outgoing
      ensures Valid() && View() == Apply(old(View()), Step(Callback.CloseDone(c == incoming, ofStream), env))
    {
      ghost var cb := Callback.CloseDone(c == incoming, ofStream);
      StepKeepsInv(View(), Step(cb, env));
      Finds(View(), cb);
      Finalized(c, ofStream);
      DoNext(false, None, env);
    }

    method Finalized(c: Conn, ofStream: bool)
      requires InStep() && Mine(c) && Ending(View()) && Enabled(View(), Callback.CloseDone(c == incoming, ofStream))
      modifies c`streamClosing, c`timerClosing
      ensures InStep() && View() == Noted(old(View()), Callback.CloseDone(c == incoming, ofStream))
    {
      c.Finalize(ofStream);
    }
  }

  /** One direction of the relay is under way again. */
  ghost predicate Moving(a: Conn, b: Conn)
    reads a, b
  {
    && b.rdstate == (if b.reading then CBusy else CStop) && a.wrstate == (if a.write.NoWrite? then CStop else CBusy)
    && (b.reading || !a.write.NoWrite?)
  }

  /** One direction of the relay, on entry: under way, or `b` has just been read, or `a` just written. */
  ghost predicate RelayCalled(a: Conn, b: Conn, got: Option<seq<byte>>)
    reads a, b
  {
    || Moving(a, b)
    || (a.write.NoWrite? && !b.reading && |b.buf| == BUFSIZE &&
        (|| (b.rdstate == CDone && a.wrstate == CStop && 0 <= b.result <= BUFSIZE && got == Some(b.buf[..b.result]))
         || (b.rdstate == CStop && a.wrstate == CDone && got.None?)))
  }

  /** conn_cycle: what has been read from `b` is written to `a`, and what has been written makes room to read. */
  method Cycle(a: Conn, b: Conn, ghost failed: bool, ghost got: Option<seq<byte>>) returns (stop: bool)
    requires a != b && (failed <==> a.result < 0 || b.result < 0) && (!failed ==> RelayCalled(a, b, got))
    modifies a`wrstate, a`write, b`rdstate, b`reading
    ensures stop == failed
    ensures failed ==> a.wrstate == old(a.wrstate) && a.write == old(a.write) && b.rdstate == old(b.rdstate)
                       && b.reading == old(b.reading)
    ensures !failed ==>
              var idle := old(a.write.NoWrite? && !b.reading);
              && Moving(a, b)
              && a.write == (if idle && got.Some? then FromBuf(b, b.result) else old(a.write))
              && b.reading == (if idle && got.None? then true else old(b.reading))
  {
    if a.result < 0 {
      return true;
    }
    if b.result < 0 {
      return true;
    }
    if a.wrstate == CDone {
      a.wrstate := CStop;
    }
    if a.wrstate == CStop {
      if b.rdstate == CStop {
        b.Read();
      } else if b.rdstate == CDone {
        a.Put(FromBuf(b, b.result));
        b.rdstate := CStop;
      }
    }
    return false;
  }
}
