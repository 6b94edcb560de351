/** IPv4 addresses as text: what is printed, and a parser that accepts exactly that. */
module Inet4 {
  import opened Basics

  datatype Error = EINVAL | ENOSPC | EAFNOSUPPORT

  datatype Result<T> = Ok(value: T) | Err(error: Error)

  function Digit(d: int): char
    requires 0 <= d < 10
  {
    '0' + d as char
  }

  predicate IsDigit(c: char) {
    '0' <= c <= '9'
  }

  function DigitValue(c: char): (d: int)
    requires IsDigit(c)
    ensures 0 <= d < 10 && Digit(d) == c
  {
    c as int - '0' as int
  }

  /** "%u" */
  function Dec(n: nat): (s: string)
    ensures s != []
  {
    if n < 10 then [Digit(n)] else Dec(n / 10) + [Digit(n % 10)]
  }

  /** "%u": no zero in front, the last digit that of the remainder by 10 and those before it of the rest. */
  lemma {:induction false} DecMeans(n: nat)
    ensures Dec(n)[0] == '0' ==> n == 0
    ensures var k := |Dec(n)| - 1;
            Dec(n)[k] == "0123456789"[n % 10] && Dec(n)[..k] == if n < 10 then "" else Dec(n / 10)
  {
    if n >= 10 {
      DecMeans(n / 10);
    }
  }

  function Text4(b: seq<byte>): string
    requires |b| == 4
  {
    Dec(b[0]) + "." + Dec(b[1]) + "." + Dec(b[2]) + "." + Dec(b[3])
  }

  lemma DecLength(n: byte)
    ensures 1 <= |Dec(n)| <= 3
  {
    if n >= 100 {
      assert n / 10 / 10 < 10 && |Dec(n / 10)| == |Dec(n / 10 / 10)| + 1;
    }
  }

  /** inet_ntop4: the text and its terminator have to fit into `size` bytes. */
  method Ntop4(src: seq<byte>, size: nat) returns (r: Result<string>)
    requires |src| == 4
    ensures r == if |Text4(src)| + 1 <= size then Ok(Text4(src)) else Err(ENOSPC)
  {
    var tmp := Dec(src[0]) + "." + Dec(src[1]) + "." + Dec(src[2]) + "." + Dec(src[3]);
    var l := |tmp|;
    if l <= 0 || l >= size {
      return Err(ENOSPC);
    }
    return Ok(tmp);
  }

  // ---------- the parser ----------

  /** One pass of the loop: the octets finished, the one being read, and whether it has a digit yet. */
  datatype Reading = Reading(octets: seq<byte>, cur: byte, sawDigit: bool)

  predicate ReadingOk(s: Reading) {
    |s.octets| <= 3 && (!s.sawDigit ==> s.cur == 0)
  }

  function Count(s: Reading): nat {
    |s.octets| + if s.sawDigit then 1 else 0
  }

  function Take4(s: Reading, ch: char): (r: Result<Reading>)
    requires ReadingOk(s)
    ensures r.Ok? ==> ReadingOk(r.value)
  {
    if IsDigit(ch) then
      var nw := s.cur as int * 10 + DigitValue(ch);
      if (s.sawDigit && s.cur == 0) || nw > 255 || (!s.sawDigit && Count(s) + 1 > 4) then Err(EINVAL)
      else Ok(Reading(s.octets, nw, true))
    else if ch == '.' && s.sawDigit then
      if Count(s) == 4 then Err(EINVAL) else Ok(Reading(s.octets + [s.cur], 0, false))
    else Err(EINVAL)
  }

  function Read4(text: string, s: Reading): (r: Result<seq<byte>>)
    requires ReadingOk(s)
    ensures r.Ok? ==> |r.value| == 4
    decreases |text|
  {
    if text == [] then (if Count(s) < 4 then Err(EINVAL) else Ok(s.octets + [s.cur]))
    else
      var next := Take4(s, text[0]);
      if next.Ok? then Read4(text[1..], next.value) else Err(next.error)
  }

  const START := Reading([], 0, false)

  /** inet_pton4 */
  method Pton4(src: string) returns (r: Result<seq<byte>>)
    ensures r == Read4(src, START)
  {
    var sawDigit, octets, i := false, 0, 0;
    var tmp: seq<byte> := [0];
    while i < |src|
      invariant 0 <= i <= |src| && 1 <= |tmp| <= 4 && (!sawDigit ==> tmp[|tmp| - 1] == 0)
      invariant octets == |tmp| - 1 + if sawDigit then 1 else 0
      invariant Read4(src, START) == Read4(src[i..], Reading(tmp[..|tmp| - 1], tmp[|tmp| - 1], sawDigit))
    {
      var ch, tp := src[i], |tmp| - 1;
      assert src[i..][1..] == src[i + 1..] && tmp[..tp] + [tmp[tp]] == tmp;
      i := i + 1;
      if IsDigit(ch) {
        var nw := tmp[tp] as int * 10 + DigitValue(ch);
        if sawDigit && tmp[tp] == 0 {
          return Err(EINVAL);
        }
        if nw > 255 {
          return Err(EINVAL);
        }
        assert tmp[tp := nw][..tp] == tmp[..tp];
        tmp := tmp[tp := nw];
        if !sawDigit {
          octets := octets + 1;
          if octets > 4 {
            return Err(EINVAL);
          }
          sawDigit := true;
        }
      } else if ch == '.' && sawDigit {
        if octets == 4 {
          return Err(EINVAL);
        }
        assert (tmp + [0])[..tp + 1] == tmp;
        tmp := tmp + [0];
        sawDigit := false;
      } else {
        return Err(EINVAL);
      }
    }
    assert src[i..] == [] && tmp[..|tmp| - 1] + [tmp[|tmp| - 1]] == tmp;
    if octets < 4 {
      return Err(EINVAL);
    }
    return Ok(tmp);
  }

  // ---------- it accepts exactly what is printed ----------

  /** The text that has led to this state. */
  ghost function Lead(s: Reading): string {
    Dotted(s.octets) + if s.sawDigit then Dec(s.cur) else []
  }

  ghost function Dotted(b: seq<byte>): string {
    if b == [] then [] else Dotted(b[..|b| - 1]) + Dec(b[|b| - 1]) + "."
  }

  lemma TakeLead(s: Reading, ch: char)
    requires ReadingOk(s) && Take4(s, ch).Ok?
    ensures Lead(Take4(s, ch).value) == Lead(s) + [ch]
  {
    var t := Take4(s, ch).value;
    if IsDigit(ch) {
      if s.sawDigit {
        assert t.cur / 10 == s.cur && t.cur % 10 == DigitValue(ch);
        assert Dec(t.cur) == Dec(s.cur) + [ch];
      }
    } else {
      assert t.octets[..|t.octets| - 1] == s.octets;
    }
  }

  lemma {:induction false} ReadIsText(text: string, s: Reading)
    requires ReadingOk(s) && Read4(text, s).Ok?
    ensures Lead(s) + text == Text4(Read4(text, s).value)
    decreases |text|
  {
    if text == [] {
      LeadIsText(s);
    } else {
      TakeLead(s, text[0]);
      ReadIsText(text[1..], Take4(s, text[0]).value);
      assert Lead(s) + text == (Lead(s) + [text[0]]) + text[1..];
    }
  }

  lemma LeadIsText(s: Reading)
    requires |s.octets| == 3 && s.sawDigit
    ensures Lead(s) == Text4(s.octets + [s.cur])
  {
    var b := s.octets;
    assert b[..2][..1] == b[..1] && b[..1][..0] == [];
    assert Dotted(b[..1]) == Dec(b[0]) + ".";
    assert Dotted(b[..2]) == Dotted(b[..1]) + Dec(b[1]) + ".";
  }

  lemma {:induction false} ReadDec(n: nat, rest: string, s: Reading)
    requires ReadingOk(s) && n <= 255 && !s.sawDigit
    ensures Read4(Dec(n) + rest, s) == Read4(rest, s.(cur := n, sawDigit := true))
  {
    if n < 10 {
      assert (Dec(n) + rest)[1..] == rest;
    } else {
      var d := Digit(n % 10);
      ReadDec(n / 10, [d] + rest, s);
      assert Dec(n) + rest == Dec(n / 10) + ([d] + rest);
      assert ([d] + rest)[1..] == rest;
      assert DigitValue(d) == n % 10;
    }
  }

  lemma ReadOctet(n: byte, rest: string, octets: seq<byte>)
    requires |octets| <= 2
    ensures Read4(Dec(n) + ("." + rest), Reading(octets, 0, false)) == Read4(rest, Reading(octets + [n], 0, false))
  {
    ReadDec(n, "." + rest, Reading(octets, 0, false));
    assert ("." + rest)[1..] == rest;
  }

  lemma ReadText(b: seq<byte>)
    requires |b| == 4
    ensures Read4(Text4(b), START) == Ok(b)
  {
    var t3 := Dec(b[3]);
    var t2 := Dec(b[2]) + ("." + t3);
    var t1 := Dec(b[1]) + ("." + t2);
    Regroup(Dec(b[0]), Dec(b[1]), Dec(b[2]), Dec(b[3]));
    ReadOctet(b[0], t1, []);
    ReadOctet(b[1], t2, [] + [b[0]]);
    ReadOctet(b[2], t3, [] + [b[0]] + [b[1]]);
    var octets := [] + [b[0]] + [b[1]] + [b[2]];
    ReadDec(b[3], [], Reading(octets, 0, false));
    assert t3 + [] == t3 && octets + [b[3]] == b;
  }

  lemma Regroup(a: string, b: string, c: string, d: string)
    ensures a + "." + b + "." + c + "." + d == a + ("." + (b + ("." + (c + ("." + d)))))
  {
  }

  /** A string is accepted with a result exactly when it is what is printed for that result. */
  lemma AcceptsExactly(text: string, b: seq<byte>)
    requires |b| == 4
    ensures Read4(text, START) == Ok(b) <==> text == Text4(b)
  {
    ReadText(b);
    if Read4(text, START) == Ok(b) {
      ReadIsText(text, START);
      assert Lead(START) + text == text;
    }
  }
}
