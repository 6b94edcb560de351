/** The SOCKS5 parser's context as a value, and what one byte and a run of bytes do to it. */
module S5State {
  import opened Basics

  const BUFLEN := 257

  const AUTH_NONE: nat := 1
  const AUTH_GSSAPI: nat := 2
  const AUTH_PASSWD: nat := 4

  datatype State =
    | Version | NMethods | Methods | AuthPwVersion | AuthPwUserlen | AuthPwUsername | AuthPwPasslen | AuthPwPassword
    | ReqVersion | ReqCmd | ReqReserved | ReqAtyp | ReqAtypHost | ReqDaddr | ReqDport0 | ReqDport1 | Dead

  datatype Cmd = TcpConnect | TcpBind | UdpAssoc

  datatype Atyp = Ipv4 | Ipv6 | Host

  /** What a call of the parser returns: an error, nothing special, or what the caller has to do next. */
  datatype Event = BadVersion | BadCmd | BadAtyp | Ok | AuthSelect | AuthVerify | ExecCmd

  datatype Ctx = Ctx(
    state: State, arg0: nat, arg1: nat, methods: nat, cmd: Cmd, atyp: Atyp, userlen: byte, passlen: byte, dport: nat,
    username: seq<byte>, password: seq<byte>, daddr: seq<byte>)

  /** Every index the parser uses is within its array. */
  predicate CtxOk(x: Ctx) {
    && |x.username| == |x.password| == |x.daddr| == BUFLEN
    && (x.state.Methods? ==> x.arg0 <= x.arg1 < 256)
    && (x.state.AuthPwUsername? ==> x.arg0 <= x.userlen)
    && (x.state.AuthPwPassword? ==> x.arg0 <= x.passlen)
    && (x.state.ReqAtypHost? ==> x.arg0 == 0)
    && (x.state.ReqDaddr? ==> x.arg0 <= x.arg1 < 256)
    && (x.state.ReqDport1? ==> x.dport < 0x1_0000 && x.dport % 256 == 0)
  }

  predicate HasBit(m: nat, bit: nat)
    requires bit > 0
  {
    m / bit % 2 == 1
  }

  /** `m | bit` */
  function Or(m: nat, bit: nat): nat
    requires bit > 0
  {
    if HasBit(m, bit) then m else m + bit
  }

  function AddMethod(m: nat, c: byte): nat {
    if c == 0 then Or(m, AUTH_NONE) else if c == 1 then Or(m, AUTH_GSSAPI) else if c == 2 then Or(m, AUTH_PASSWD) else m
  }

  /** A byte of a counted field, if the field takes any more, and whether the field is complete then. */
  function Fill(buf: seq<byte>, at: nat, len: nat, c: byte): (r: (seq<byte>, nat, bool))
    requires |buf| == BUFLEN && at <= len < 256
    ensures |r.0| == BUFLEN && r.1 <= len && (r.2 <==> r.1 == len)
  {
    var b1 := if at < len then buf[at := c] else buf;
    var at1 := if at < len then at + 1 else at;
    (if at1 == len then b1[len := 0] else b1, at1, at1 == len)
  }

  /** The greeting. */
  function StepGreeting(x: Ctx, c: byte): (r: (Ctx, Event))
    requires CtxOk(x) && (x.state.Version? || x.state.NMethods? || x.state.Methods?)
    ensures CtxOk(r.0)
  {
    match x.state
    case Version => if c != 5 then (x, BadVersion) else (x.(state := NMethods), Ok)
    case NMethods => (x.(arg0 := 0, arg1 := c, state := Methods), Ok)
    case Methods =>
      var y := if x.arg0 < x.arg1 then x.(methods := AddMethod(x.methods, c), arg0 := x.arg0 + 1) else x;
      (y, if y.arg0 == y.arg1 then AuthSelect else Ok)
  }

  predicate IsAuth(s: State) {
    s.AuthPwVersion? || s.AuthPwUserlen? || s.AuthPwUsername? || s.AuthPwPasslen? || s.AuthPwPassword?
  }

  /** User name and password. */
  function StepAuth(x: Ctx, c: byte): (r: (Ctx, Event))
    requires CtxOk(x) && IsAuth(x.state)
    ensures CtxOk(r.0)
  {
    match x.state
    case AuthPwVersion => if c != 1 then (x, BadVersion) else (x.(state := AuthPwUserlen), Ok)
    case AuthPwUserlen => (x.(arg0 := 0, userlen := c, state := AuthPwUsername), Ok)
    case AuthPwUsername =>
      var (buf, at, full) := Fill(x.username, x.arg0, x.userlen, c);
      (x.(username := buf, arg0 := at, state := if full then AuthPwPasslen else AuthPwUsername), Ok)
    case AuthPwPasslen => (x.(arg0 := 0, passlen := c, state := AuthPwPassword), Ok)
    case AuthPwPassword =>
      var (buf, at, full) := Fill(x.password, x.arg0, x.passlen, c);
      (x.(password := buf, arg0 := at, state := if full then ReqVersion else AuthPwPassword),
       if full then AuthVerify else Ok)
  }

  predicate IsRequest(s: State) {
    s.ReqVersion? || s.ReqCmd? || s.ReqReserved? || s.ReqAtyp? || s.ReqAtypHost? || s.ReqDaddr? || s.ReqDport0? ||
    s.ReqDport1? || s.Dead?
  }

  /** The request. */
  function StepRequest(x: Ctx, c: byte): (r: (Ctx, Event))
    requires CtxOk(x) && IsRequest(x.state)
    ensures CtxOk(r.0)
  {
    match x.state
    case ReqVersion => if c != 5 then (x, BadVersion) else (x.(state := ReqCmd), Ok)
    case ReqCmd =>
      if c == 1 then (x.(cmd := TcpConnect, state := ReqReserved), Ok)
      else if c == 3 then (x.(cmd := UdpAssoc, state := ReqReserved), Ok)
      else (x, BadCmd)
    case ReqReserved => (x.(state := ReqAtyp), Ok)
    case ReqAtyp =>
      if c == 1 then (x.(arg0 := 0, state := ReqDaddr, atyp := Ipv4, arg1 := 4), Ok)
      else if c == 3 then (x.(arg0 := 0, state := ReqAtypHost, atyp := Host, arg1 := 0), Ok)
      else if c == 4 then (x.(arg0 := 0, state := ReqDaddr, atyp := Ipv6, arg1 := 16), Ok)
      else (x.(arg0 := 0), BadAtyp)
    case ReqAtypHost => (x.(arg1 := c, state := ReqDaddr), Ok)
    case ReqDaddr =>
      var (buf, at, full) := Fill(x.daddr, x.arg0, x.arg1, c);
      (x.(daddr := buf, arg0 := at, state := if full then ReqDport0 else ReqDaddr), Ok)
    case ReqDport0 => (x.(dport := c as int * 256, state := ReqDport1), Ok)
    case ReqDport1 => (x.(dport := x.dport + c as int, state := Dead), ExecCmd)
    case Dead => (x, Ok)
  }

  function Step(x: Ctx, c: byte): (r: (Ctx, Event))
    requires CtxOk(x)
    ensures CtxOk(r.0)
  {
    if IsAuth(x.state) then StepAuth(x, c) else if IsRequest(x.state) then StepRequest(x, c) else StepGreeting(x, c)
  }

  /** A call of the parser: the new context, the event, and how many bytes it has used up. */
  datatype Parsed = Parsed(ctx: Ctx, event: Event, used: nat)

  function Parse(x: Ctx, data: seq<byte>): (r: Parsed)
    requires CtxOk(x)
    ensures CtxOk(r.ctx) && r.used <= |data| && (r.event == Ok ==> r.used == |data|) && (data != [] ==> r.used > 0)
    decreases |data|
  {
    if data == [] then Parsed(x, Ok, 0)
    else
      var (y, e) := Step(x, data[0]);
      if e != Ok then Parsed(y, e, 1)
      else
        var r := Parse(y, data[1..]);
        r.(used := r.used + 1)
  }

  /** The input may be cut anywhere. If the first piece raises an event, the second is not looked at; if it does
      not, the second goes on where the first has ended. */
  lemma {:induction false} SplitAnywhere(x: Ctx, a: seq<byte>, b: seq<byte>)
    requires CtxOk(x)
    ensures var r := Parse(x, a);
            Parse(x, a + b) ==
            if r.event != Ok then r
            else var s := Parse(r.ctx, b); s.(used := |a| + s.used)
    decreases |a|
  {
    if a == [] {
      assert a + b == b;
    } else {
      assert (a + b)[1..] == a[1..] + b;
      SplitAnywhere(Step(x, a[0]).0, a[1..], b);
    }
  }
}
