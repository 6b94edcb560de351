/** The SOCKS5 parser: a context that is filled in place, one byte after the other. */
module S5Parser {
  import opened Basics
  import opened S5State
  import opened S5Messages

  class S5 {
    var state: State
    var arg0: nat
    var arg1: nat
    var methods: nat
    var cmd: Cmd
    var atyp: Atyp
    var userlen: byte
    var passlen: byte
    var dport: nat
    const username: array<byte>
    const password: array<byte>
    const daddr: array<byte>

    /** s5_init */
    constructor ()
      ensures Valid() && Value().state == Version && Value().methods == 0
      ensures fresh(username) && fresh(password) && fresh(daddr)
    {
      state, arg0, arg1, methods := Version, 0, 0, 0;
      cmd, atyp, userlen, passlen, dport := TcpConnect, Ipv4, 0, 0, 0;
      username, password, daddr := new byte[BUFLEN](_ => 0), new byte[BUFLEN](_ => 0), new byte[BUFLEN](_ => 0);
    }

    ghost function Value(): Ctx
      reads this, username, password, daddr
    {
      Ctx(state, arg0, arg1, methods, cmd, atyp, userlen, passlen, dport, username[..], password[..], daddr[..])
    }

    ghost predicate Valid()
      reads this, username, password, daddr
    {
      username != password && username != daddr && password != daddr && CtxOk(Value())
    }

    /** A byte of a counted field. */
    method FillIn(buf: array<byte>, len: nat, c: byte) returns (full: bool)
      requires buf.Length == BUFLEN && arg0 <= len < 256
      modifies buf, this`arg0
      ensures (buf[..], arg0, full) == Fill(old(buf[..]), old(arg0), len, c)
    {
      if arg0 < len {
        buf[arg0] := c;
        arg0 := arg0 + 1;
      }
      full := arg0 == len;
      if full {
        buf[len] := 0;
      }
    }

    method GreetingByte(c: byte) returns (e: Event)
      requires Valid() && (state.Version? || state.NMethods? || state.Methods?)
      modifies this
      ensures Valid() && (Value(), e) == StepGreeting(old(Value()), c)
    {
      e := Ok;
      match state
      case Version =>
        if c != 5 {
          return BadVersion;
        }
        state := NMethods;
      case NMethods => arg0, arg1, state := 0, c, Methods;
      case Methods =>
        if arg0 < arg1 {
          match c {
            case 0 => methods := Or(methods, AUTH_NONE);
            case 1 => methods := Or(methods, AUTH_GSSAPI);
            case 2 => methods := Or(methods, AUTH_PASSWD);
            case _ =>
          }
          arg0 := arg0 + 1;
        }
        if arg0 == arg1 {
          e := AuthSelect;
        }
    }

    method AuthByte(c: byte) returns (e: Event)
      requires Valid() && IsAuth(state)
      modifies this, username, password
      ensures Valid() && (Value(), e) == StepAuth(old(Value()), c)
    {
      e := Ok;
      match state
      case AuthPwVersion =>
        if c != 1 {
          return BadVersion;
        }
        state := AuthPwUserlen;
      case AuthPwUserlen => arg0, userlen, state := 0, c, AuthPwUsername;
      case AuthPwUsername =>
        var full := FillIn(username, userlen, c);
        if full {
          state := AuthPwPasslen;
        }
      case AuthPwPasslen => arg0, passlen, state := 0, c, AuthPwPassword;
      case AuthPwPassword =>
        var full := FillIn(password, passlen, c);
        if full {
          state := ReqVersion;
          e := AuthVerify;
        }
    }

    method RequestByte(c: byte) returns (e: Event)
      requires Valid() && IsRequest(state)
      modifies this, daddr
      ensures Valid() && (Value(), e) == StepRequest(old(Value()), c)
    {
      e := Ok;
      match state
      case ReqVersion =>
        if c != 5 {
          return BadVersion;
        }
        state := ReqCmd;
      case ReqCmd =>
        match c {
          case 1 => cmd := TcpConnect;
          case 3 => cmd := UdpAssoc;
          case _ => return BadCmd;
        }
        state := ReqReserved;
      case ReqReserved => state := ReqAtyp;
      case ReqAtyp => e := AtypByte(c);
      case ReqAtypHost => arg1, state := c, ReqDaddr;
      case ReqDaddr =>
        var full := FillIn(daddr, arg1, c);
        if full {
          state := ReqDport0;
        }
      case ReqDport0 => dport, state := c as int * 256, ReqDport1;
      case ReqDport1 => dport, state, e := dport + c as int, Dead, ExecCmd;
      case Dead =>
    }

    method AtypByte(c: byte) returns (e: Event)
      requires Valid() && state.ReqAtyp?
      modifies this
      ensures Valid() && (Value(), e) == StepRequest(old(Value()), c)
    {
      e := Ok;
      arg0 := 0;
      match c {
        case 1 => state, atyp, arg1 := ReqDaddr, Ipv4, 4;
        case 3 => state, atyp, arg1 := ReqAtypHost, Host, 0;
        case 4 => state, atyp, arg1 := ReqDaddr, Ipv6, 16;
        case _ => return BadAtyp;
      }
    }

    method OneStep(c: byte) returns (e: Event)
      requires Valid()
      modifies this, username, password, daddr
      ensures Valid() && (Value(), e) == Step(old(Value()), c)
    {
      if IsAuth(state) {
        e := AuthByte(c);
      } else if IsRequest(state) {
        e := RequestByte(c);
      } else {
        e := GreetingByte(c);
      }
    }

    /** s5_parse: what is left of the input is exactly what has not been used up. */
    method Parse(data: seq<byte>) returns (err: Event, rest: seq<byte>)
      requires Valid()
      modifies this, username, password, daddr
      ensures Valid()
      ensures var r := S5State.Parse(old(Value()), data);
              Value() == r.ctx && err == r.event && rest == data[r.used..]
    {
      var i := 0;
      ghost var was := Value();
      assert data[0..] == data;
      while i < |data|
        invariant Valid() && 0 <= i <= |data|
        invariant S5State.Parse(was, data) ==
                  (var r := S5State.Parse(Value(), data[i..]); r.(used := i + r.used))
      {
        var c := data[i];
        ghost var now := Value();
        assert data[i..] == [c] + data[i + 1..];
        OneByte(now, c, data[i + 1..]);
        i := i + 1;
        err := OneStep(c);
        if err != Ok {
          rest := data[i..];
          return;
        }
      }
      err, rest := Ok, data[i..];
    }

    /** s5_select_auth: 0, or EINVAL for a method that the parser cannot go on with. */
    method SelectAuth(chosen: nat) returns (ok: bool)
      requires Valid()
      modifies this`state
      ensures Valid() && (ok <==> chosen == AUTH_NONE || chosen == AUTH_PASSWD)
      ensures Value() == old(Value()).(state := if chosen == AUTH_NONE then ReqVersion
                                                else if chosen == AUTH_PASSWD then AuthPwVersion else old(state))
    {
      ok := true;
      if chosen == AUTH_NONE {
        state := ReqVersion;
      } else if chosen == AUTH_PASSWD {
        state := AuthPwVersion;
      } else {
        ok := false;
      }
    }
  }
}
