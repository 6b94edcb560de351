/** The parser reads the messages of RFC 1928 (sections 3 and 4) and RFC 1929 (section 2): it gives back what
    was put into a message exactly when no counted field of the message is empty. */
module S5Messages {
  import opened Basics
  import opened S5State

  /** Any number of pieces, up to the first event. */
  function ParsePieces(x: Ctx, pieces: seq<seq<byte>>): (r: Parsed)
    requires CtxOk(x)
    decreases |pieces|
  {
    if pieces == [] then Parsed(x, Ok, 0)
    else
      var r := Parse(x, pieces[0]);
      if r.event != Ok then r
      else var s := ParsePieces(r.ctx, pieces[1..]); s.(used := r.used + s.used)
  }

  function Flatten(pieces: seq<seq<byte>>): seq<byte> {
    if pieces == [] then [] else pieces[0] + Flatten(pieces[1..])
  }

  /** However the input is cut, fields, event and number of bytes used up are the same. */
  lemma {:induction false} PiecesDoNotMatter(x: Ctx, pieces: seq<seq<byte>>)
    requires CtxOk(x)
    ensures ParsePieces(x, pieces) == Parse(x, Flatten(pieces))
    decreases |pieces|
  {
    if pieces != [] {
      SplitAnywhere(x, pieces[0], Flatten(pieces[1..]));
      PiecesDoNotMatter(Parse(x, pieces[0]).ctx, pieces[1..]);
    }
  }

  function After(n: nat, r: Parsed): Parsed {
    r.(used := r.used + n)
  }

  lemma OneByte(x: Ctx, c: byte, rest: seq<byte>)
    requires CtxOk(x)
    ensures var (y, e) := Step(x, c);
            Parse(x, [c] + rest) == if e != Ok then Parsed(y, e, 1) else After(1, Parse(y, rest))
  {
    assert ([c] + rest)[1..] == rest;
  }

  /** A field of the buffer, with its terminator. */
  predicate Holds(buf: seq<byte>, f: seq<byte>) {
    |f| < |buf| && buf[..|f|] == f && buf[|f|] == 0
  }

  // ---------- the greeting ----------

  function AddMethods(m: nat, ms: seq<byte>): nat
    decreases |ms|
  {
    if ms == [] then m else AddMethods(AddMethod(m, ms[0]), ms[1..])
  }

  /** The three methods that the parser knows. */
  function MethodBit(k: byte): nat
    requires k <= 2
    ensures MethodBit(k) > 0
  {
    if k == 0 then AUTH_NONE else if k == 1 then AUTH_GSSAPI else AUTH_PASSWD
  }

  lemma AddOne(m: nat, c: byte, k: byte)
    requires k <= 2
    ensures HasBit(AddMethod(m, c), MethodBit(k)) <==> HasBit(m, MethodBit(k)) || k == c
  {
    var q, b2, b1, b0 := m / 8, m / 4 % 2, m / 2 % 2, m % 2;
    Digits(m, q, b2, b1, b0);
    if c == 0 && b0 == 0 {
      Digits(m + 1, q, b2, b1, 1);
    } else if c == 1 && b1 == 0 {
      Digits(m + 2, q, b2, 1, b0);
    } else if c == 2 && b2 == 0 {
      Digits(m + 4, q, 1, b1, b0);
    }
  }

  lemma Digits(m: nat, q: nat, b2: nat, b1: nat, b0: nat)
    requires b2 < 2 && b1 < 2 && b0 < 2
    ensures m == 8 * q + 4 * b2 + 2 * b1 + b0 <==> m / 8 == q && m / 4 % 2 == b2 && m / 2 % 2 == b1 && m % 2 == b0
  {
    var h := m / 2;
    var f := h / 2;
    assert m == 2 * h + m % 2 && h == 2 * f + h % 2 && f == 2 * (f / 2) + f % 2;
    assert m / 4 == f && m / 8 == f / 2;
  }

  /** The bits say which of them are offered. */
  lemma {:induction false} BitsMean(m: nat, ms: seq<byte>, k: byte)
    requires k <= 2
    ensures HasBit(AddMethods(m, ms), MethodBit(k)) <==> HasBit(m, MethodBit(k)) || k in ms
    decreases |ms|
  {
    if ms != [] {
      BitsMean(AddMethod(m, ms[0]), ms[1..], k);
      AddOne(m, ms[0], k);
      assert k in ms <==> k == ms[0] || k in ms[1..];
    }
  }

  lemma {:induction false} ReadMethods(x: Ctx, ms: seq<byte>, rest: seq<byte>)
    requires CtxOk(x) && x.state.Methods? && x.arg0 + |ms| == x.arg1 && ms != []
    ensures Parse(x, ms + rest) == Parsed(x.(methods := AddMethods(x.methods, ms), arg0 := x.arg1), AuthSelect, |ms|)
    decreases |ms|
  {
    var more, m := ms[1..] + rest, AddMethod(x.methods, ms[0]);
    var y := x.(methods := m, arg0 := x.arg0 + 1);
    assert ms + rest == [ms[0]] + more;
    ReadMethod(x, ms[0], more, m);
    if |ms| == 1 {
      assert ms[1..] == [] && AddMethods(m, []) == m;
    } else {
      ReadMethods(y, ms[1..], rest);
    }
  }

  lemma ReadMethod(x: Ctx, c: byte, rest: seq<byte>, m: nat)
    requires CtxOk(x) && x.state.Methods? && x.arg0 < x.arg1 && m == AddMethod(x.methods, c)
    ensures var y := x.(methods := m, arg0 := x.arg0 + 1);
            Parse(x, [c] + rest) ==
            if y.arg0 == y.arg1 then Parsed(y, AuthSelect, 1) else After(1, Parse(y, rest))
  {
    OneByte(x, c, rest);
  }

  function Greeting(ms: seq<byte>): seq<byte>
    requires |ms| < 256
  {
    [5] + ([|ms|] + ms)
  }

  lemma GreetingText(ms: seq<byte>, rest: seq<byte>)
    requires |ms| < 256
    ensures Greeting(ms) + rest == [5] + ([|ms|] + (ms + rest))
  {
  }

  /** The greeting ends with the question for a method, after exactly its bytes, exactly when it offers one. */
  lemma ReadGreeting(x: Ctx, ms: seq<byte>, rest: seq<byte>)
    requires CtxOk(x) && x.state.Version? && |ms| < 256
    ensures var r := Parse(x, Greeting(ms) + rest);
            && (r.event == AuthSelect && r.used == |Greeting(ms)| <==> ms != [])
            && (ms != [] ==> r.ctx == x.(state := Methods, arg0 := |ms|, arg1 := |ms|, methods := AddMethods(x.methods, ms)))
  {
    GreetingText(ms, rest);
    OneByte(x, 5, [|ms|] + (ms + rest));
    var x1 := Step(x, 5).0;
    OneByte(x1, |ms|, ms + rest);
    var x2 := Step(x1, |ms|).0;
    if ms != [] {
      ReadMethods(x2, ms, rest);
    } else {
      assert ms + rest == rest;
    }
  }

  // ---------- user name and password ----------

  /** What `Fill` does, seen as a whole: the bytes go where they belong. */
  predicate Filled(buf: seq<byte>, at: nat, f: seq<byte>, buf': seq<byte>) {
    && |buf| == |buf'| == BUFLEN && at + |f| < BUFLEN
    && buf'[..at] == buf[..at] && buf'[at..at + |f|] == f && buf'[at + |f|] == 0
  }

  lemma FilledNext(buf: seq<byte>, at: nat, f: seq<byte>, buf': seq<byte>)
    requires |buf| == BUFLEN && f != [] && at < BUFLEN && Filled(buf[at := f[0]], at + 1, f[1..], buf')
    ensures Filled(buf, at, f, buf')
  {
    assert buf'[..at] == buf'[..at + 1][..at] == buf[at := f[0]][..at];
    assert buf'[at..at + |f|] == [buf'[..at + 1][at]] + buf'[at + 1..at + |f|];
    assert f == [f[0]] + f[1..];
  }

  lemma {:induction false} ReadUsername(x: Ctx, f: seq<byte>, rest: seq<byte>) returns (buf: seq<byte>)
    requires CtxOk(x) && x.state.AuthPwUsername? && x.arg0 + |f| == x.userlen && f != []
    ensures Filled(x.username, x.arg0, f, buf)
    ensures Parse(x, f + rest) ==
            After(|f|, Parse(x.(username := buf, arg0 := x.userlen, state := AuthPwPasslen), rest))
    decreases |f|
  {
    var more := f[1..] + rest;
    assert f + rest == [f[0]] + more;
    OneByte(x, f[0], more);
    if |f| == 1 {
      buf := x.username[x.arg0 := f[0]][x.userlen := 0];
      assert more == rest;
    } else {
      buf := ReadUsername(Step(x, f[0]).0, f[1..], rest);
      FilledNext(x.username, x.arg0, f, buf);
    }
  }

  lemma {:induction false} ReadPassword(x: Ctx, f: seq<byte>, rest: seq<byte>) returns (buf: seq<byte>)
    requires CtxOk(x) && x.state.AuthPwPassword? && x.arg0 + |f| == x.passlen && f != []
    ensures Filled(x.password, x.arg0, f, buf)
    ensures Parse(x, f + rest) == Parsed(x.(password := buf, arg0 := x.passlen, state := ReqVersion), AuthVerify, |f|)
    decreases |f|
  {
    var more := f[1..] + rest;
    assert f + rest == [f[0]] + more;
    OneByte(x, f[0], more);
    if |f| == 1 {
      buf := x.password[x.arg0 := f[0]][x.passlen := 0];
    } else {
      buf := ReadPassword(Step(x, f[0]).0, f[1..], rest);
      FilledNext(x.password, x.arg0, f, buf);
    }
  }

  function Auth(user: seq<byte>, pass: seq<byte>): seq<byte>
    requires |user| < 256 && |pass| < 256
  {
    [1] + ([|user|] + (user + ([|pass|] + pass)))
  }

  /** The request for verification comes after exactly the bytes of the message, with its fields. */
  predicate AuthRead(r: Parsed, user: seq<byte>, pass: seq<byte>)
    requires |user| < 256 && |pass| < 256
  {
    && r.event == AuthVerify && r.used == |Auth(user, pass)| && r.ctx.state == ReqVersion
    && r.ctx.userlen == |user| && Holds(r.ctx.username, user) && r.ctx.passlen == |pass| && Holds(r.ctx.password, pass)
  }

  lemma ReadAuth(x: Ctx, user: seq<byte>, pass: seq<byte>, rest: seq<byte>)
    requires CtxOk(x) && x.state.AuthPwVersion? && 0 < |user| < 256 && 0 < |pass| < 256
    ensures AuthRead(Parse(x, Auth(user, pass) + rest), user, pass)
  {
    var tail := [|pass|] + (pass + rest);
    assert Auth(user, pass) + rest == [1] + ([|user|] + (user + tail));
    OneByte(x, 1, [|user|] + (user + tail));
    var x1 := Step(x, 1).0;
    OneByte(x1, |user|, user + tail);
    var x2 := Step(x1, |user|).0;
    var name := ReadUsername(x2, user, tail);
    var x3 := x2.(username := name, arg0 := x2.userlen, state := AuthPwPasslen);
    OneByte(x3, |pass|, pass + rest);
    var word := ReadPassword(Step(x3, |pass|).0, pass, rest);
  }

  /** An empty user name swallows the length of the password, and an empty password a byte of what follows. */
  lemma EmptyUser(x: Ctx, pass: seq<byte>, rest: seq<byte>)
    requires CtxOk(x) && x.state.AuthPwVersion? && |pass| < 256
    ensures !AuthRead(Parse(x, Auth([], pass) + rest), [], pass)
  {
    var tail := pass + rest;
    assert Auth([], pass) + rest == [1] + ([0] + ([|pass|] + tail));
    OneByte(x, 1, [0] + ([|pass|] + tail));
    var x1 := Step(x, 1).0;
    OneByte(x1, 0, [|pass|] + tail);
    var x2 := Step(x1, 0).0;
    OneByte(x2, |pass|, tail);
    LengthThenPassword(Step(x2, |pass|).0, tail);
  }

  lemma LengthThenPassword(x: Ctx, data: seq<byte>)
    requires CtxOk(x) && x.state.AuthPwPasslen?
    ensures var r := Parse(x, data);
            r.event == Ok || (r.event == AuthVerify && r.used == 1 + if r.ctx.passlen == 0 then 1 else r.ctx.passlen)
  {
    if data != [] {
      assert data == [data[0]] + data[1..];
      OneByte(x, data[0], data[1..]);
      PasswordUses(Step(x, data[0]).0, data[1..]);
    }
  }

  /** A password, once its length is known, takes that many bytes, but at least one. */
  lemma {:induction false} PasswordUses(x: Ctx, data: seq<byte>)
    requires CtxOk(x) && x.state.AuthPwPassword?
    ensures var r := Parse(x, data);
            (r.event == Ok || r.event == AuthVerify) && r.ctx.passlen == x.passlen
            && (r.event == AuthVerify ==> r.used == if x.arg0 < x.passlen then x.passlen - x.arg0 else 1)
    decreases |data|
  {
    if data != [] {
      assert data == [data[0]] + data[1..];
      OneByte(x, data[0], data[1..]);
      var (y, e) := Step(x, data[0]);
      if e == Ok {
        PasswordUses(y, data[1..]);
      }
    }
  }

  lemma EmptyPassword(x: Ctx, user: seq<byte>, rest: seq<byte>)
    requires CtxOk(x) && x.state.AuthPwVersion? && 0 < |user| < 256
    ensures !AuthRead(Parse(x, Auth(user, []) + rest), user, [])
  {
    assert Auth(user, []) + rest == [1] + ([|user|] + (user + ([0] + rest)));
    OneByte(x, 1, [|user|] + (user + ([0] + rest)));
    var x1 := Step(x, 1).0;
    OneByte(x1, |user|, user + ([0] + rest));
    var x2 := Step(x1, |user|).0;
    var name := ReadUsername(x2, user, [0] + rest);
    var x3 := x2.(username := name, arg0 := x2.userlen, state := AuthPwPasslen);
    OneByte(x3, 0, rest);
    PasswordUses(Step(x3, 0).0, rest);
  }

  /** User name and password are recovered exactly when neither is empty. */
  lemma AuthRecovered(x: Ctx, user: seq<byte>, pass: seq<byte>, rest: seq<byte>)
    requires CtxOk(x) && x.state.AuthPwVersion? && |user| < 256 && |pass| < 256
    ensures AuthRead(Parse(x, Auth(user, pass) + rest), user, pass) <==> user != [] && pass != []
  {
    if user == [] {
      EmptyUser(x, pass, rest);
    } else if pass == [] {
      EmptyPassword(x, user, rest);
    } else {
      ReadAuth(x, user, pass, rest);
    }
  }

  // ---------- what is refused ----------

  /** The states in which any byte is taken. */
  predicate TakesAny(s: State) {
    !s.Version? && !s.AuthPwVersion? && !s.ReqVersion? && !s.ReqCmd? && !s.ReqReserved? && !s.ReqAtyp?
  }

  predicate Refusal(e: Event) {
    e == BadVersion || e == BadCmd || e == BadAtyp
  }

  lemma TakesByte(x: Ctx, c: byte)
    requires CtxOk(x) && TakesAny(x.state)
    ensures !Refusal(Step(x, c).1) && (Step(x, c).1 == Ok ==> TakesAny(Step(x, c).0.state))
  {
  }

  lemma {:induction false} NeverRefuses(x: Ctx, data: seq<byte>)
    requires CtxOk(x) && TakesAny(x.state)
    ensures !Refusal(Parse(x, data).event)
    decreases |data|
  {
    if data != [] {
      TakesByte(x, data[0]);
      if Step(x, data[0]).1 == Ok {
        NeverRefuses(Step(x, data[0]).0, data[1..]);
      }
    }
  }

  /** What follows the version byte of a message. */
  lemma AfterVersion(x: Ctx, data: seq<byte>, version: byte)
    requires CtxOk(x) && data != []
    requires (x.state.Version? && version == 5) || (x.state.AuthPwVersion? && version == 1)
    ensures var r := Parse(x, data);
            if data[0] != version then r.event == BadVersion && r.used == 1 else !Refusal(r.event)
  {
    if data[0] == version {
      NeverRefuses(Step(x, data[0]).0, data[1..]);
    }
  }

  /** A greeting is refused exactly when its first byte is not 5, and a message with user name and password exactly
      when that is not 1. */
  lemma RefusesVersion(x: Ctx, data: seq<byte>)
    requires CtxOk(x)
    ensures x.state.Version? ==>
              (Parse(x, data).event == BadVersion <==> data != [] && data[0] != 5)
              && Parse(x, data).event != BadCmd && Parse(x, data).event != BadAtyp
    ensures x.state.AuthPwVersion? ==>
              (Parse(x, data).event == BadVersion <==> data != [] && data[0] != 1)
              && Parse(x, data).event != BadCmd && Parse(x, data).event != BadAtyp
  {
    if data != [] && x.state.Version? {
      AfterVersion(x, data, 5);
    }
    if data != [] && x.state.AuthPwVersion? {
      AfterVersion(x, data, 1);
    }
  }

  lemma RefusesType(x: Ctx, data: seq<byte>)
    requires CtxOk(x) && x.state.ReqReserved?
    ensures var e := Parse(x, data).event;
            && e != BadVersion && e != BadCmd
            && (e == BadAtyp <==> |data| >= 2 && data[1] != 1 && data[1] != 3 && data[1] != 4)
  {
    if |data| >= 2 {
      var y := Step(x, data[0]).0;
      assert data[1..][0] == data[1];
      if data[1] == 1 || data[1] == 3 || data[1] == 4 {
        NeverRefuses(Step(y, data[1]).0, data[1..][1..]);
      }
    }
  }

  /** A request is refused for its version, its command or its address type, whichever is wrong first: the version
      is not 5, the command neither 1 nor 3, the address type none of 1, 3 and 4. */
  lemma RefusesRequest(x: Ctx, data: seq<byte>)
    requires CtxOk(x) && x.state.ReqVersion?
    ensures var e := Parse(x, data).event;
            && (e == BadVersion <==> |data| >= 1 && data[0] != 5)
            && (e == BadCmd <==> |data| >= 2 && data[0] == 5 && data[1] != 1 && data[1] != 3)
            && (e == BadAtyp <==> |data| >= 4 && data[0] == 5 && (data[1] == 1 || data[1] == 3)
                                  && data[3] != 1 && data[3] != 3 && data[3] != 4)
  {
    if |data| >= 1 && data[0] == 5 {
      RefusesCommand(Step(x, 5).0, data[1..]);
      assert |data| >= 4 ==> data[1..][2] == data[3];
    }
  }

  lemma RefusesCommand(x: Ctx, data: seq<byte>)
    requires CtxOk(x) && x.state.ReqCmd?
    ensures var e := Parse(x, data).event;
            && e != BadVersion
            && (e == BadCmd <==> |data| >= 1 && data[0] != 1 && data[0] != 3)
            && (e == BadAtyp <==> |data| >= 3 && (data[0] == 1 || data[0] == 3)
                                  && data[2] != 1 && data[2] != 3 && data[2] != 4)
  {
    if |data| >= 1 && (data[0] == 1 || data[0] == 3) {
      RefusesType(Step(x, data[0]).0, data[1..]);
      assert |data| >= 3 ==> data[1..][1] == data[2];
    }
  }

  // ---------- the request ----------

  function CmdByte(cmd: Cmd): byte {
    match cmd case TcpConnect => 1 case TcpBind => 2 case UdpAssoc => 3
  }

  function AtypByte(atyp: Atyp): byte {
    match atyp case Ipv4 => 1 case Host => 3 case Ipv6 => 4
  }

  predicate AddrOk(atyp: Atyp, addr: seq<byte>) {
    match atyp case Ipv4 => |addr| == 4 case Ipv6 => |addr| == 16 case Host => |addr| < 256
  }

  function AddrField(atyp: Atyp, addr: seq<byte>): seq<byte>
    requires AddrOk(atyp, addr)
  {
    if atyp.Host? then [|addr|] + addr else addr
  }

  function Request(cmd: Cmd, reserved: byte, atyp: Atyp, addr: seq<byte>, port: nat): seq<byte>
    requires AddrOk(atyp, addr) && port < 0x1_0000
  {
    [5] + ([CmdByte(cmd)] + ([reserved] + ([AtypByte(atyp)] + (AddrField(atyp, addr) + ([port / 256] + [port % 256])))))
  }

  /** The request to execute the command comes after exactly the bytes of the message, with its fields. */
  predicate RequestRead(r: Parsed, cmd: Cmd, reserved: byte, atyp: Atyp, addr: seq<byte>, port: nat)
    requires AddrOk(atyp, addr) && port < 0x1_0000
  {
    && r.event == ExecCmd && r.used == |Request(cmd, reserved, atyp, addr, port)| && r.ctx.state == Dead
    && r.ctx.cmd == cmd && r.ctx.atyp == atyp && Holds(r.ctx.daddr, addr) && r.ctx.dport == port
  }

  lemma {:induction false} ReadAddr(x: Ctx, f: seq<byte>, rest: seq<byte>) returns (buf: seq<byte>)
    requires CtxOk(x) && x.state.ReqDaddr? && x.arg0 + |f| == x.arg1 && f != []
    ensures Filled(x.daddr, x.arg0, f, buf)
    ensures Parse(x, f + rest) == After(|f|, Parse(x.(daddr := buf, arg0 := x.arg1, state := ReqDport0), rest))
    decreases |f|
  {
    var more := f[1..] + rest;
    assert f + rest == [f[0]] + more;
    OneByte(x, f[0], more);
    if |f| == 1 {
      buf := x.daddr[x.arg0 := f[0]][x.arg1 := 0];
      assert more == rest;
    } else {
      buf := ReadAddr(Step(x, f[0]).0, f[1..], rest);
      FilledNext(x.daddr, x.arg0, f, buf);
    }
  }

  lemma ReadPort(x: Ctx, port: nat, rest: seq<byte>)
    requires CtxOk(x) && x.state.ReqDport0? && port < 0x1_0000
    ensures Parse(x, ([port / 256] + [port % 256]) + rest) == Parsed(x.(dport := port, state := Dead), ExecCmd, 2)
  {
    assert ([port / 256] + [port % 256]) + rest == [port / 256] + ([port % 256] + rest);
    OneByte(x, port / 256, [port % 256] + rest);
    OneByte(Step(x, port / 256).0, port % 256, rest);
  }

  /** Up to the address. */
  lemma ReadRequestHead(x: Ctx, cmd: Cmd, reserved: byte, atyp: Atyp, tail: seq<byte>) returns (y: Ctx)
    requires CtxOk(x) && x.state.ReqVersion? && !cmd.TcpBind?
    ensures CtxOk(y) && y.cmd == cmd && y.atyp == atyp && y.arg0 == 0 && y.daddr == x.daddr
    ensures if atyp.Host? then y.state.ReqAtypHost? else y.state.ReqDaddr? && y.arg1 == if atyp.Ipv4? then 4 else 16
    ensures Parse(x, [5] + ([CmdByte(cmd)] + ([reserved] + ([AtypByte(atyp)] + tail)))) == After(4, Parse(y, tail))
  {
    var rest := [reserved] + ([AtypByte(atyp)] + tail);
    OneByte(x, 5, [CmdByte(cmd)] + rest);
    var x1 := Step(x, 5).0;
    OneByte(x1, CmdByte(cmd), rest);
    y := ReadRequestType(Step(x1, CmdByte(cmd)).0, reserved, atyp, tail);
  }

  lemma ReadRequestType(x: Ctx, reserved: byte, atyp: Atyp, tail: seq<byte>) returns (y: Ctx)
    requires CtxOk(x) && x.state.ReqReserved?
    ensures CtxOk(y) && y.cmd == x.cmd && y.atyp == atyp && y.arg0 == 0 && y.daddr == x.daddr
    ensures if atyp.Host? then y.state.ReqAtypHost? else y.state.ReqDaddr? && y.arg1 == if atyp.Ipv4? then 4 else 16
    ensures Parse(x, [reserved] + ([AtypByte(atyp)] + tail)) == After(2, Parse(y, tail))
  {
    OneByte(x, reserved, [AtypByte(atyp)] + tail);
    var x1 := Step(x, reserved).0;
    OneByte(x1, AtypByte(atyp), tail);
    y := Step(x1, AtypByte(atyp)).0;
  }

  /** The length of a host name. */
  lemma ReadAddrLength(x: Ctx, atyp: Atyp, addr: seq<byte>, tail: seq<byte>) returns (y: Ctx)
    requires CtxOk(x) && x.atyp == atyp && AddrOk(atyp, addr) && x.arg0 == 0
    requires if atyp.Host? then x.state.ReqAtypHost? else x.state.ReqDaddr? && x.arg1 == if atyp.Ipv4? then 4 else 16
    ensures CtxOk(y) && y == x.(arg1 := |addr|, state := ReqDaddr)
    ensures Parse(x, AddrField(atyp, addr) + tail) == After(|AddrField(atyp, addr)| - |addr|, Parse(y, addr + tail))
  {
    y := x.(arg1 := |addr|, state := ReqDaddr);
    if atyp.Host? {
      assert AddrField(atyp, addr) + tail == [|addr|] + (addr + tail);
      OneByte(x, |addr|, addr + tail);
    }
  }

  /** The address and the port. */
  lemma ReadTarget(x: Ctx, atyp: Atyp, addr: seq<byte>, port: nat, rest: seq<byte>)
    requires CtxOk(x) && x.state.ReqDaddr? && x.arg0 == 0 && x.arg1 == |addr| && AddrOk(atyp, addr) && port < 0x1_0000
    ensures var r := Parse(x, addr + (([port / 256] + [port % 256]) + rest));
            if addr == [] then r.event == Ok || r.used == 3
            else r.event == ExecCmd && r.used == |addr| + 2 && r.ctx.state == Dead && r.ctx.cmd == x.cmd
                 && r.ctx.atyp == x.atyp && Holds(r.ctx.daddr, addr) && r.ctx.dport == port
  {
    var p := [port / 256] + [port % 256];
    if addr != [] {
      var buf := ReadAddr(x, addr, p + rest);
      ReadPort(x.(daddr := buf, arg0 := x.arg1, state := ReqDport0), port, rest);
    } else {
      assert [] + (p + rest) == [port / 256] + ([port % 256] + rest);
      EmptyHost(x, port / 256, port % 256, rest);
    }
  }

  /** A request is recovered exactly when its address is not empty. (The source knows no BIND command.) */
  lemma RequestRecovered(x: Ctx, cmd: Cmd, reserved: byte, atyp: Atyp, addr: seq<byte>, port: nat, rest: seq<byte>)
    requires CtxOk(x) && x.state.ReqVersion? && AddrOk(atyp, addr) && port < 0x1_0000
    ensures RequestRead(Parse(x, Request(cmd, reserved, atyp, addr, port) + rest), cmd, reserved, atyp, addr, port)
            <==> addr != [] && !cmd.TcpBind?
  {
    var p := [port / 256] + [port % 256];
    var tail := AddrField(atyp, addr) + (p + rest);
    RequestTail(cmd, reserved, atyp, AddrField(atyp, addr), p, rest);
    if cmd.TcpBind? {
      BadCommand(x, [reserved] + ([AtypByte(atyp)] + tail));
    } else {
      TargetRecovered(x, cmd, reserved, atyp, addr, port, rest);
    }
  }

  lemma TargetRecovered(x: Ctx, cmd: Cmd, reserved: byte, atyp: Atyp, addr: seq<byte>, port: nat, rest: seq<byte>)
    requires CtxOk(x) && x.state.ReqVersion? && AddrOk(atyp, addr) && port < 0x1_0000 && !cmd.TcpBind?
    ensures RequestRead(Parse(x, Request(cmd, reserved, atyp, addr, port) + rest), cmd, reserved, atyp, addr, port)
            <==> addr != []
  {
    var p := [port / 256] + [port % 256];
    RequestTail(cmd, reserved, atyp, AddrField(atyp, addr), p, rest);
    var x1 := ReadRequestHead(x, cmd, reserved, atyp, AddrField(atyp, addr) + (p + rest));
    var x2 := ReadAddrLength(x1, atyp, addr, p + rest);
    ReadTarget(x2, atyp, addr, port, rest);
  }

  lemma RequestTail(cmd: Cmd, reserved: byte, atyp: Atyp, a: seq<byte>, p: seq<byte>, rest: seq<byte>)
    ensures ([5] + ([CmdByte(cmd)] + ([reserved] + ([AtypByte(atyp)] + (a + p))))) + rest ==
            [5] + ([CmdByte(cmd)] + ([reserved] + ([AtypByte(atyp)] + (a + (p + rest)))))
  {
  }

  lemma BadCommand(x: Ctx, tail: seq<byte>)
    requires CtxOk(x) && x.state.ReqVersion?
    ensures Parse(x, [5] + ([2] + tail)).event == BadCmd
  {
    OneByte(x, 5, [2] + tail);
    OneByte(Step(x, 5).0, 2, tail);
  }

  /** An empty host name swallows the first byte of the port. */
  lemma EmptyHost(x: Ctx, a: byte, b: byte, rest: seq<byte>)
    requires CtxOk(x) && x.state.ReqDaddr? && x.arg0 == x.arg1 == 0
    ensures var r := Parse(x, [a] + ([b] + rest));
            r.event == Ok || r.used == 3
  {
    OneByte(x, a, [b] + rest);
    PortUses(Step(x, a).0, [b] + rest);
  }

  lemma PortUses(x: Ctx, data: seq<byte>)
    requires CtxOk(x) && x.state.ReqDport0?
    ensures Parse(x, data).event == Ok || Parse(x, data).used == 2
  {
    if data != [] {
      assert data == [data[0]] + data[1..];
      OneByte(x, data[0], data[1..]);
      LowPortUses(Step(x, data[0]).0, data[1..]);
    }
  }

  lemma LowPortUses(x: Ctx, data: seq<byte>)
    requires CtxOk(x) && x.state.ReqDport1?
    ensures Parse(x, data).event == Ok || Parse(x, data).used == 1
  {
  }
}
