/** The setting up of a SOCKS session, on the bytes that the client sends: what is answered to a greeting, to a request
    and after a connect, for any input and however it is cut. */
module SocksSetup {
  import opened Basics
  import opened S5State
  import opened S5Messages
  import opened SocksRuns

  /** From `x0` on the parser has read `got`, and needs more. */
  ghost predicate HasRead(x0: Ctx, got: seq<byte>, x: Ctx) {
    CtxOk(x0) && Parse(x0, got) == Parsed(x, Ok, |got|)
  }

  /** The teardown with all four handles closing. */
  ghost predicate Ended(t: View) {
    t.state == AlmostDead(1) && Due(t) == 4 && !t.leaks && !t.lookup && !t.connect
  }

  /** Nothing but the next bytes from the client is waited for. */
  ghost predicate Listens(t: View, state: SessState) {
    t.state == state && t.incoming == IDLE.(reading := true) && t.outgoing == IDLE && !t.lookup && !t.connect
  }

  /** Nothing but the completion of a reply is waited for. */
  ghost predicate Replies(t: View, state: SessState, reply: seq<byte>) {
    t.state == state && t.incoming == IDLE.(out := Some(reply)) && t.outgoing == IDLE && !t.lookup && !t.connect
  }

  function Received(data: seq<byte>): Callback {
    ReadDone(true, |data|, data)
  }

  /** Going on where `got` has ended is reading both. */
  lemma GoesOn(x0: Ctx, got: seq<byte>, x: Ctx, data: seq<byte>)
    requires HasRead(x0, got, x)
    ensures CtxOk(x)
    ensures var r, s := Parse(x0, got + data), Parse(x, data);
            r.event == s.event && r.ctx == s.ctx && r.used == |got| + s.used
  {
    SplitAnywhere(x0, got, data);
  }

  /** No event comes before the byte that raises it. */
  lemma NotYet(x0: Ctx, a: seq<byte>, b: seq<byte>)
    requires CtxOk(x0) && Parse(x0, a + b).used > |a|
    ensures Parse(x0, a).event == Ok
  {
    SplitAnywhere(x0, a, b);
  }

  // ---------- the greeting ----------

  /** How many methods the client says that it offers. */
  function Offers(all: seq<byte>): nat
    requires |all| >= 2
  {
    all[1]
  }

  /** The number of bytes up to the question for a method. A greeting that offers none takes one byte more. */
  function GreetingSize(all: seq<byte>): nat
    requires |all| >= 2
  {
    2 + if Offers(all) == 0 then 1 else Offers(all)
  }

  predicate GreetingIsOpen(all: seq<byte>) {
    all == [] || (all[0] == 5 && (|all| == 1 || |all| < GreetingSize(all)))
  }

  /** Among them is that of no authentication. */
  predicate NeedsNone(all: seq<byte>)
    requires |all| >= 2
  {
    exists k :: 2 <= k < |all| && k < 2 + Offers(all) && all[k] == 0
  }

  lemma GreetingWhole(x0: Ctx, all: seq<byte>)
    requires Fresh(x0) && |all| >= 2 && all[0] == 5 && |all| >= GreetingSize(all)
    ensures var r := Parse(x0, all);
            && r.event == AuthSelect && r.used == GreetingSize(all)
            && (HasBit(r.ctx.methods, AUTH_NONE) <==> NeedsNone(all))
  {
    if Offers(all) == 0 {
      EmptyGreeting(x0, all[2], all[3..]);
      assert all == [5] + ([0] + ([all[2]] + all[3..]));
    } else {
      var ms, rest := all[2..2 + Offers(all)], all[2 + Offers(all)..];
      assert all == Greeting(ms) + rest;
      ReadGreeting(x0, ms, rest);
      BitsMean(x0.methods, ms, 0);
      Listed(all, ms);
    }
  }

  lemma Listed(all: seq<byte>, ms: seq<byte>)
    requires |all| >= 2 && |all| >= 2 + Offers(all) && ms == all[2..2 + Offers(all)]
    ensures 0 in ms <==> NeedsNone(all)
  {
    if 0 in ms {
      var k :| 0 <= k < |ms| && ms[k] == 0;
      assert all[2 + k] == 0;
    }
    if NeedsNone(all) {
      var k :| 2 <= k < |all| && k < 2 + Offers(all) && all[k] == 0;
      assert ms[k - 2] == 0;
    }
  }

  lemma EmptyGreeting(x0: Ctx, c: byte, rest: seq<byte>)
    requires Fresh(x0)
    ensures var r := Parse(x0, [5] + ([0] + ([c] + rest)));
            r.event == AuthSelect && r.used == 3 && !HasBit(r.ctx.methods, AUTH_NONE)
  {
    OneByte(x0, 5, [0] + ([c] + rest));
    var x1 := S5State.Step(x0, 5).0;
    OneByte(x1, 0, [c] + rest);
    OneByte(S5State.Step(x1, 0).0, c, rest);
  }

  lemma GreetingPart(x0: Ctx, all: seq<byte>)
    requires Fresh(x0) && GreetingIsOpen(all)
    ensures Parse(x0, all).event == Ok
  {
    if all != [] {
      var n: byte := if |all| == 1 then 1 else all[1];
      var more: seq<byte> := seq(300, _ => n);
      GreetingWhole(x0, all + more);
      NotYet(x0, all, more);
    }
  }

  /** Whatever the client sends, in whatever pieces. Until the greeting is complete, more is waited for. A greeting of
      another version, and one with bytes after it, end the session. To any other the answer is that no authentication
      is needed, exactly when the client offers this and the server allows it, and otherwise that no method will do. */
  lemma GreetingLeads(v: View, x0: Ctx, got: seq<byte>, data: seq<byte>, env: Env)
    requires Inv(v) && v.state.Handshake? && |data| <= BUFSIZE && Fresh(x0) && HasRead(x0, got, v.parser)
    ensures var all, t := got + data, Apply(v, Step(Received(data), env));
            if GreetingIsOpen(all) then Listens(t, Handshake) && HasRead(x0, all, t.parser)
            else if all[0] != 5 || |all| > GreetingSize(all) then Ended(t)
            else if NeedsNone(all) && env.authNone then Replies(t, ReqStart, [5, 0]) && t.parser.state.ReqVersion?
            else Replies(t, Kill, [5, 255])
  {
    var all := got + data;
    StepKeepsInv(v, Step(Received(data), env));
    GoesOn(x0, got, v.parser, data);
    if GreetingIsOpen(all) {
      GreetingPart(x0, all);
    } else if all[0] != 5 {
      RefusesVersion(x0, all);
    } else {
      GreetingWhole(x0, all);
    }
  }

  /** The greeting as one piece. */
  lemma GreetingAnswered(v: View, ms: seq<byte>, env: Env)
    requires Inv(v) && v.state.Handshake? && Fresh(v.parser) && 0 < |ms| < 256
    ensures var t := Apply(v, Step(Received([5, |ms|] + ms), env));
            if 0 in ms && env.authNone then Replies(t, ReqStart, [5, 0]) && t.parser.state.ReqVersion?
            else Replies(t, Kill, [5, 255])
  {
    var data: seq<byte> := [5, |ms|] + ms;
    assert [] + data == data && data[2..2 + Offers(data)] == ms;
    GreetingLeads(v, v.parser, [], data, env);
    Listed(data, ms);
  }

  // ---------- the request ----------

  /** Version, command and address type, as far as they have come. */
  predicate HeadOk(all: seq<byte>) {
    && (|all| >= 1 ==> all[0] == 5) && (|all| >= 2 ==> all[1] == 1 || all[1] == 3)
    && (|all| >= 4 ==> all[3] == 1 || all[3] == 3 || all[3] == 4)
  }

  /** Where the address begins and where it ends. */
  function AddrStart(all: seq<byte>): nat
    requires |all| >= 4
  {
    if all[3] == 3 then 5 else 4
  }

  function AddrLength(all: seq<byte>): nat
    requires |all| >= 5
  {
    if all[3] == 1 then 4 else if all[3] == 4 then 16 else all[4]
  }

  /** The number of bytes of a request. One with an empty host name takes one byte more. */
  function RequestSize(all: seq<byte>): nat
    requires |all| >= 5
  {
    AddrStart(all) + (if AddrLength(all) == 0 then 1 else AddrLength(all)) + 2
  }

  /** A port in network byte order. */
  function Port(high: nat, low: nat): nat {
    256 * high + low
  }

  /** The address of the request, and the port that its last two bytes hold, are those that the parser holds. */
  ghost predicate TargetHeld(all: seq<byte>, x: Ctx)
    requires |all| >= 5 && |all| >= RequestSize(all)
  {
    && |x.daddr| == BUFLEN && Holds(x.daddr, all[AddrStart(all)..AddrStart(all) + AddrLength(all)])
    && x.dport == Port(all[RequestSize(all) - 2], all[RequestSize(all) - 1])
  }

  predicate RequestIsOpen(all: seq<byte>) {
    HeadOk(all) && (|all| < 5 || |all| < RequestSize(all))
  }

  /** The request is taken whole, and with its fields. */
  ghost predicate Taken(all: seq<byte>, r: Parsed)
    requires |all| >= 5 && |all| >= RequestSize(all)
  {
    && r.event == ExecCmd && r.used == RequestSize(all) && TargetHeld(all, r.ctx)
    && (r.ctx.cmd == TcpConnect <==> all[1] == 1) && (r.ctx.atyp == Host <==> all[3] == 3)
  }

  lemma RequestWhole(x0: Ctx, all: seq<byte>)
    requires CtxOk(x0) && x0.state.ReqVersion? && HeadOk(all) && |all| >= 5 && |all| >= RequestSize(all)
    ensures Taken(all, Parse(x0, all))
  {
    var cmd := if all[1] == 1 then TcpConnect else UdpAssoc;
    if AddrLength(all) == 0 {
      NamelessWhole(x0, cmd, all);
    } else {
      var atyp := if all[3] == 1 then Ipv4 else if all[3] == 3 then Host else Ipv6;
      var a, n, z := AddrStart(all), AddrLength(all), RequestSize(all);
      AddressedWhole(x0, cmd, atyp, all[a..a + n], Port(all[z - 2], all[z - 1]), all);
    }
  }

  lemma AddressedWhole(x0: Ctx, cmd: Cmd, atyp: Atyp, addr: seq<byte>, port: nat, all: seq<byte>)
    requires CtxOk(x0) && x0.state.ReqVersion? && HeadOk(all) && |all| >= 5 && |all| >= RequestSize(all)
    requires AddrLength(all) > 0 && all[1] == CmdByte(cmd) && all[3] == AtypByte(atyp) && !cmd.TcpBind?
    requires addr == all[AddrStart(all)..AddrStart(all) + AddrLength(all)]
    requires port == Port(all[RequestSize(all) - 2], all[RequestSize(all) - 1])
    ensures Taken(all, Parse(x0, all))
  {
    var rest := all[RequestSize(all)..];
    Joined(all, cmd, atyp, addr, port, rest);
    TargetRecovered(x0, cmd, all[2], atyp, addr, port, rest);
  }

  lemma NamelessWhole(x0: Ctx, cmd: Cmd, all: seq<byte>)
    requires CtxOk(x0) && x0.state.ReqVersion? && HeadOk(all) && |all| >= 5 && |all| >= RequestSize(all)
    requires AddrLength(all) == 0 && all[1] == CmdByte(cmd) && !cmd.TcpBind?
    ensures Taken(all, Parse(x0, all))
  {
    var port := Port(all[6], all[7]);
    Digits256(all[6], all[7]);
    NamelessRequest(x0, cmd, all[2], all[5], port, all[8..]);
    CutNameless(all);
  }

  lemma CutNameless(all: seq<byte>)
    requires |all| >= 8
    ensures all == [all[0]] + ([all[1]] + ([all[2]] + ([all[3]] + ([all[4]] + ([all[5]] +
                   (([all[6]] + [all[7]]) + all[8..]))))))
  {
  }

  lemma Joined(all: seq<byte>, cmd: Cmd, atyp: Atyp, addr: seq<byte>, port: nat, rest: seq<byte>)
    requires |all| >= 5 && HeadOk(all) && AddrLength(all) > 0 && |all| >= RequestSize(all)
    requires all[1] == CmdByte(cmd) && all[3] == AtypByte(atyp)
    requires addr == all[AddrStart(all)..AddrStart(all) + AddrLength(all)]
    requires port == Port(all[RequestSize(all) - 2], all[RequestSize(all) - 1]) && rest == all[RequestSize(all)..]
    ensures AddrOk(atyp, addr) && port < 0x1_0000
    ensures all == Request(cmd, all[2], atyp, addr, port) + rest
    ensures |Request(cmd, all[2], atyp, addr, port)| == RequestSize(all)
  {
    var z := RequestSize(all);
    Digits256(all[z - 2], all[z - 1]);
    Cut(all, z, AddrField(atyp, addr));
  }

  lemma Digits256(high: byte, low: byte)
    ensures Port(high, low) / 256 == high && Port(high, low) % 256 == low && Port(high, low) < 0x1_0000
  {
  }

  lemma Cut(all: seq<byte>, z: nat, field: seq<byte>)
    requires 6 <= z <= |all| && field == all[4..z - 2]
    ensures all == ([all[0]] + ([all[1]] + ([all[2]] + ([all[3]] + (field + ([all[z - 2]] + [all[z - 1]])))))) + all[z..]
  {
  }

  lemma NamelessRequest(x0: Ctx, cmd: Cmd, reserved: byte, c: byte, port: nat, rest: seq<byte>)
    requires CtxOk(x0) && x0.state.ReqVersion? && !cmd.TcpBind? && port < 0x1_0000
    ensures var r := Parse(x0, [5] + ([CmdByte(cmd)] + ([reserved] + ([3] + ([0] + ([c] +
                                (([port / 256] + [port % 256]) + rest)))))));
            && r.event == ExecCmd && r.used == 8 && Holds(r.ctx.daddr, []) && r.ctx.dport == port
            && r.ctx.cmd == cmd && r.ctx.atyp == Host
  {
    var p := ([port / 256] + [port % 256]) + rest;
    var x1 := ReadRequestHead(x0, cmd, reserved, Host, [0] + ([c] + p));
    OneByte(x1, 0, [c] + p);
    var x2 := S5State.Step(x1, 0).0;
    OneByte(x2, c, p);
    ReadPort(S5State.Step(x2, c).0, port, rest);
  }

  lemma RequestPart(x0: Ctx, all: seq<byte>)
    requires CtxOk(x0) && x0.state.ReqVersion? && RequestIsOpen(all)
    ensures Parse(x0, all).event == Ok
  {
    var head: seq<byte> := [5, 1, 0, 1];
    var more: seq<byte> := (if |all| < 4 then head[|all|..] else []) + seq(300, _ => 0);
    RequestWhole(x0, all + more);
    NotYet(x0, all, more);
  }

  /** Whatever the client sends next, in whatever pieces. Until the request is complete, more is waited for. One with
      a wrong version, command or address type, one with bytes after it, and one for UDP end the session. A host name
      is looked up. To an address the session connects if the rules allow it, and otherwise says that they do not. */
  lemma RequestLeads(v: View, x0: Ctx, got: seq<byte>, data: seq<byte>, env: Env)
    requires Inv(v) && v.state.ReqParse? && |data| <= BUFSIZE
    requires HasRead(x0, got, v.parser) && x0.state.ReqVersion?
    ensures var all, t := got + data, Apply(v, Step(Received(data), env));
            if RequestIsOpen(all) then Listens(t, ReqParse) && HasRead(x0, all, t.parser)
            else if !HeadOk(all) || |all| > RequestSize(all) || all[1] == 3 then Ended(t)
            else
              && TargetHeld(all, t.parser)
              && if all[3] == 3 then t.state.ReqLookup? && t.lookup && !t.connect && t.incoming == t.outgoing == IDLE
                 else if !env.access then Replies(t, Kill, [5, 2, 0, 1, 0, 0, 0, 0, 0, 0])
                 else if env.connectErr != 0 then Ended(t)
                 else t.state.ReqConnect? && t.connect && !t.lookup && t.incoming == t.outgoing == IDLE
  {
    var all := got + data;
    StepKeepsInv(v, Step(Received(data), env));
    GoesOn(x0, got, v.parser, data);
    if RequestIsOpen(all) {
      RequestPart(x0, all);
    } else if !HeadOk(all) {
      RefusesRequest(x0, all);
    } else {
      RequestWhole(x0, all);
    }
  }

  // ---------- the lookup and the connect ----------

  /** Where a host lookup leads. */
  lemma LookupAnswered(v: View, status: int, env: Env)
    requires Inv(v) && v.lookup
    ensures var t := Apply(v, Step(LookupDone(status), env));
            if status < 0 then Replies(t, Kill, [5, 4, 0, 1, 0, 0, 0, 0, 0, 0])
            else if !env.access then Replies(t, Kill, [5, 2, 0, 1, 0, 0, 0, 0, 0, 0])
            else if env.connectErr == 0 then
              t.state.ReqConnect? && t.connect && !t.lookup && t.incoming == t.outgoing == IDLE
            else t.state == AlmostDead(0) && t.leaks && Due(t) == 4 && !t.lookup && !t.connect
  {
    LookupLeads(v, status, env);
  }

  /** Where a connect leads: on success to a reply with the address and the port that the server connects from. */
  lemma ConnectLeads(v: View, status: int, env: Env)
    requires Inv(v) && v.connect && status != UV_ECANCELED
    ensures var t := Apply(v, Step(ConnectDone(status), env));
            if status != 0 then Replies(t, Kill, [5, 5, 0, 1, 0, 0, 0, 0, 0, 0])
            else if |env.local| == 6 then Replies(t, ProxyStart, [5, 0, 0, 1] + env.local)
            else Replies(t, ProxyStart, [5, 0, 0, 4] + env.local)
  {
    StepKeepsInv(v, Step(ConnectDone(status), env));
  }

  // ---------- replies, and failures ----------

  /** Where a written reply leads: the request is read, or the relay begins, or the session ends. */
  lemma WrittenLeads(v: View, status: int, env: Env)
    requires Inv(v) && !v.state.Proxy? && !Ending(v) && Enabled(v, WriteDone(true, status))
    ensures var t := Apply(v, Step(WriteDone(true, status), env));
            && t.parser == v.parser
            && if status < 0 || v.state.Kill? then Ended(t)
               else if v.state.ReqStart? then Listens(t, ReqParse)
               else
                 && v.state.ProxyStart? && t.state.Proxy? && t.incoming == IDLE.(reading := true)
                 && t.outgoing == IDLE.(reading := true) && !t.lookup && !t.connect
  {
    StepKeepsInv(v, Step(WriteDone(true, status), env));
  }

  /** A read error ends the session, during the setting up and while relaying, and so do there a write error and an
      idle timer. */
  lemma FailureEnds(v: View, cb: Callback, env: Env)
    requires Inv(v) && !Ending(v) && Enabled(v, cb)
    requires (cb.ReadDone? && cb.n < 0) || (cb.WriteDone? && cb.status < 0) || cb.TimerExpire?
    ensures Ended(Apply(v, Step(cb, env)))
  {
    StepKeepsInv(v, Step(cb, env));
  }
}
