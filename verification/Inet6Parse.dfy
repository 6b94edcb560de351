/** The IPv6 parser, and the way back from the printed text to the address. */
module Inet6Parse {
  import opened Basics
  import opened Inet4
  import opened Inet6

  predicate IsHex(c: char) {
    '0' <= c <= '9' || 'a' <= c <= 'f' || 'A' <= c <= 'F'
  }

  function HexValue(c: char): (d: int)
    requires IsHex(c)
    ensures 0 <= d < 16
  {
    if '0' <= c <= '9' then c as int - '0' as int
    else if 'a' <= c <= 'f' then c as int - 'a' as int + 10
    else c as int - 'A' as int + 10
  }

  /** The digits of either case. */
  lemma HexValueMeans(c: char)
    requires IsHex(c)
    ensures "0123456789abcdef"[HexValue(c)] == c || "0123456789ABCDEF"[HexValue(c)] == c
  {
  }

  function WordBytes(val: nat): (b: seq<byte>)
    ensures |b| == 2
  {
    [val / 256 % 256, val % 256]
  }

  function Zeros(n: nat): (b: seq<byte>)
    ensures |b| == n
  {
    seq(n, _ => 0)
  }

  /** The bytes so far, where among them the two colons were, the word being read and its number of digits, and
      the text from the last separator on. */
  datatype Parsing = Parsing(out: seq<byte>, colon: int, val: nat, seen: nat, tok: string)

  predicate ParsingOk(s: Parsing) {
    |s.out| <= 16 && -1 <= s.colon <= |s.out|
  }

  /** Behind the loop: the last word, and zeros in the place of the two colons. */
  function Finish6(s: Parsing): (r: Result<seq<byte>>)
    requires ParsingOk(s)
    ensures r.Ok? ==> |r.value| == 16
  {
    if s.seen > 0 && |s.out| + 2 > 16 then Err(EINVAL)
    else
      var out := if s.seen > 0 then s.out + WordBytes(s.val) else s.out;
      if s.colon != -1 then
        if |out| == 16 then Err(EINVAL)
        else Ok(out[..s.colon] + Zeros(16 - |out|) + out[s.colon..])
      else if |out| != 16 then Err(EINVAL)
      else Ok(out)
  }

  /** A dot: what stands since the last separator has to be an IPv4 address. */
  function Dot(s: Parsing): (r: Result<seq<byte>>)
    requires ParsingOk(s)
    ensures r.Ok? ==> |r.value| == 16
  {
    if |s.out| + 4 > 16 then Err(EINVAL)
    else
      var four := Read4(s.tok, START);
      if four.Err? then Err(EINVAL) else Finish6(s.(out := s.out + four.value, seen := 0))
  }

  function Read6(text: string, s: Parsing): (r: Result<seq<byte>>)
    requires ParsingOk(s)
    ensures r.Ok? ==> |r.value| == 16
    decreases |text|
  {
    if text == [] then Finish6(s)
    else
      var ch, rest := text[0], text[1..];
      if IsHex(ch) then
        if s.seen + 1 > 4 then Err(EINVAL)
        else Read6(rest, s.(val := s.val * 16 + HexValue(ch), seen := s.seen + 1))
      else if ch == ':' then
        if s.seen == 0 then
          (if s.colon != -1 then Err(EINVAL) else Read6(rest, s.(colon := |s.out|, tok := rest)))
        else if rest == [] || |s.out| + 2 > 16 then Err(EINVAL)
        else Read6(rest, Parsing(s.out + WordBytes(s.val), s.colon, 0, 0, rest))
      else if ch == '.' then Dot(s)
      else Err(EINVAL)
  }

  function Parse6(src: string): Result<seq<byte>> {
    if src != [] && src[0] == ':' then
      if |src| < 2 || src[1] != ':' then Err(EINVAL) else Read6(src[1..], Parsing([], -1, 0, 0, src[1..]))
    else Read6(src, Parsing([], -1, 0, 0, src))
  }

  // ---------- reading words ----------

  lemma HexDigitValue(d: int)
    requires 0 <= d < 16
    ensures IsHex(HexDigit(d)) && HexValue(HexDigit(d)) == d
  {
  }

  lemma Opened(d: char, rest: string, text: string)
    requires text == [d] + rest
    ensures text != [] && text[0] == d && text[1..] == rest
  {
  }

  lemma ReadFirstDigit(d: char, rest: string, text: string, s: Parsing)
    requires ParsingOk(s) && IsHex(d) && s.seen < 4 && text != [] && text[0] == d && text[1..] == rest
    ensures Read6(text, s) == Read6(rest, s.(val := s.val * 16 + HexValue(d), seen := s.seen + 1))
  {
  }

  lemma ReadDigit(d: char, rest: string, s: Parsing)
    requires ParsingOk(s) && IsHex(d) && s.seen < 4
    ensures Read6([d] + rest, s) == Read6(rest, s.(val := s.val * 16 + HexValue(d), seen := s.seen + 1))
  {
    Opened(d, rest, [d] + rest);
    ReadFirstDigit(d, rest, [d] + rest, s);
  }

  lemma {:induction false} ReadHex(n: nat, rest: string, s: Parsing)
    requires ParsingOk(s) && s.seen == 0 && s.val == 0 && |Hex(n)| <= 4
    ensures Read6(Hex(n) + rest, s) == Read6(rest, s.(val := n, seen := |Hex(n)|))
  {
    HexDigitValue(n % 16);
    if n < 16 {
      ReadDigit(HexDigit(n), rest, s);
    } else {
      var d := HexDigit(n % 16);
      ReadHex(n / 16, [d] + rest, s);
      Associates(Hex(n / 16), [d], rest);
      ReadDigit(d, rest, s.(val := n / 16, seen := |Hex(n / 16)|));
    }
  }

  /** A separator and another word behind a word. */
  lemma ReadNext(w: word, rest: string, s: Parsing)
    requires ParsingOk(s) && s.seen > 0 && |s.out| + 2 <= 16
    ensures Read6((":" + Hex(w)) + rest, s)
         == Read6(rest, Parsing(s.out + WordBytes(s.val), s.colon, w, |Hex(w)|, Hex(w) + rest))
  {
    HexLength(w);
    assert ((":" + Hex(w)) + rest)[1..] == Hex(w) + rest;
    ReadHex(w, rest, Parsing(s.out + WordBytes(s.val), s.colon, 0, 0, Hex(w) + rest));
  }

  ghost function Bytes(w: seq<word>): (b: seq<byte>)
    ensures |b| == 2 * |w|
  {
    if w == [] then [] else Bytes(w[..|w| - 1]) + WordBytes(w[|w| - 1])
  }

  /** The words up to the pending one have been read from `s` on. */
  ghost predicate HasRead(s: Parsing, t: Parsing, w: seq<word>) {
    && ParsingOk(t) && t.seen > 0 && t.colon == s.colon
    && t.out + WordBytes(t.val) == s.out + WordBytes(s.val) + Bytes(w)
  }

  lemma HasReadNone(s: Parsing)
    requires ParsingOk(s) && s.seen > 0
    ensures HasRead(s, s, []) && forall rest: string :: Coloned([]) + rest == rest
  {
    assert s.out + WordBytes(s.val) + [] == s.out + WordBytes(s.val);
  }

  lemma HasReadNext(s: Parsing, t: Parsing, w: seq<word>, x: word, tok: string)
    requires HasRead(s, t, w) && |s.out| + 2 * |w| + 2 <= 16
    ensures HasRead(s, Parsing(t.out + WordBytes(t.val), t.colon, x, |Hex(x)|, tok), w + [x])
  {
    HexLength(x);
    assert (w + [x])[..|w|] == w;
    Associates(s.out + WordBytes(s.val), Bytes(w), WordBytes(x));
  }

  lemma ColonedTail(w: seq<word>, x: word, rest: string)
    ensures Coloned(w + [x]) + rest == Coloned(w) + ((":" + Hex(x)) + rest)
  {
    assert (w + [x])[..|w|] == w;
    Chain3(Coloned(w), Hex(x), rest);
  }

  lemma Chain3(c: string, h: string, rest: string)
    ensures (c + ":" + h) + rest == c + ((":" + h) + rest)
  {
  }

  /** Any number of them: all words but the last are stored, the last one is pending. */
  lemma {:induction false} ReadColoned(w: seq<word>, rest: string, s: Parsing) returns (t: Parsing)
    requires ParsingOk(s) && s.seen > 0 && |s.out| + 2 * |w| <= 16
    ensures HasRead(s, t, w) && Read6(Coloned(w) + rest, s) == Read6(rest, t)
  {
    if w == [] {
      HasReadNone(s);
      t := s;
    } else {
      var before, x := w[..|w| - 1], w[|w| - 1];
      var u := ReadColoned(before, (":" + Hex(x)) + rest, s);
      t := Parsing(u.out + WordBytes(u.val), u.colon, x, |Hex(x)|, Hex(x) + rest);
      ReadNextWord(before, x, rest, s, u, t);
      assert before + [x] == w;
    }
  }

  lemma ReadNextWord(w: seq<word>, x: word, rest: string, s: Parsing, u: Parsing, t: Parsing)
    requires ParsingOk(s) && HasRead(s, u, w) && |s.out| + 2 * |w| + 2 <= 16
    requires t == Parsing(u.out + WordBytes(u.val), u.colon, x, |Hex(x)|, Hex(x) + rest)
    requires Read6(Coloned(w) + ((":" + Hex(x)) + rest), s) == Read6((":" + Hex(x)) + rest, u)
    ensures HasRead(s, t, w + [x]) && Read6(Coloned(w + [x]) + rest, s) == Read6(rest, t)
  {
    HasReadNext(s, u, w, x, Hex(x) + rest);
    ColonedTail(w, x, rest);
    ReadNext(x, rest, u);
  }

  lemma Appended(w: seq<word>, x: word)
    ensures Coloned(w + [x]) == Coloned(w) + ":" + Hex(x) && Bytes(w + [x]) == Bytes(w) + WordBytes(x)
  {
    assert (w + [x])[..|w|] == w;
  }

  ghost predicate Begins(w: seq<word>, x: word, tail: seq<word>) {
    Coloned(w) == ":" + (Hex(x) + Coloned(tail)) && Bytes(w) == WordBytes(x) + Bytes(tail)
  }

  lemma BeginsNext(w: seq<word>, x: word, tail: seq<word>, y: word)
    requires Begins(w, x, tail)
    ensures Begins(w + [y], x, tail + [y])
  {
    Appended(w, y);
    Appended(tail, y);
    Regroup4(":", Hex(x), Coloned(tail), ":", Hex(y));
    Associates(WordBytes(x), Bytes(tail), WordBytes(y));
  }

  lemma BeginsAlone(x: word)
    ensures Begins([x], x, [])
  {
    Appended([], x);
    assert [] + [x] == [x] && Hex(x) + [] == Hex(x);
  }

  lemma {:induction false} ColonedCons(w: seq<word>)
    requires w != []
    ensures Begins(w, w[0], w[1..])
  {
    if |w| == 1 {
      BeginsAlone(w[0]);
      assert w == [w[0]];
    } else {
      var before, y := w[..|w| - 1], w[|w| - 1];
      ColonedCons(before);
      BeginsNext(before, w[0], before[1..], y);
      assert before + [y] == w && before[1..] + [y] == w[1..];
    }
  }

  lemma JoinedCons(w: seq<word>)
    requires w != []
    ensures Joined(w) == Hex(w[0]) + Coloned(w[1..])
  {
    ColonedCons(w);
    ColonedJoined(w);
    SameBehind(Joined(w), Hex(w[0]) + Coloned(w[1..]));
  }

  lemma SameBehind(s: string, t: string)
    requires ":" + s == ":" + t
    ensures s == t
  {
    assert (":" + s)[1..] == s && (":" + t)[1..] == t;
  }

  lemma Regroup4(a: string, b: string, c: string, d: string, e: string)
    ensures (a + (b + c)) + d + e == a + (b + (c + d + e))
  {
  }

  /** The words of one side of the run, or of the whole address. */
  lemma ReadJoined(w: seq<word>, rest: string, s: Parsing) returns (t: Parsing)
    requires ParsingOk(s) && s.seen == 0 && s.val == 0 && w != [] && |s.out| + 2 * |w| <= 16
    ensures ParsingOk(t) && t.seen > 0 && t.colon == s.colon && t.out + WordBytes(t.val) == s.out + Bytes(w)
    ensures Read6(Joined(w) + rest, s) == Read6(rest, t)
  {
    ColonedCons(w);
    HexLength(w[0]);
    var u := s.(val := w[0], seen := |Hex(w[0])|);
    ReadFirst(w, rest, s, u);
    t := ReadColoned(w[1..], rest, u);
    Associates(s.out, WordBytes(w[0]), Bytes(w[1..]));
  }

  lemma ReadFirst(w: seq<word>, rest: string, s: Parsing, u: Parsing)
    requires ParsingOk(s) && s.seen == 0 && s.val == 0 && w != [] && u == s.(val := w[0], seen := |Hex(w[0])|)
    ensures Read6(Joined(w) + rest, s) == Read6(Coloned(w[1..]) + rest, u)
  {
    JoinedCons(w);
    HexLength(w[0]);
    ReadHex(w[0], Coloned(w[1..]) + rest, s);
    Associates(Hex(w[0]), Coloned(w[1..]), rest);
  }

  /** The two colons behind a word. */
  lemma ReadTwoColons(rest: string, s: Parsing)
    requires ParsingOk(s) && s.seen > 0 && s.colon == -1 && |s.out| + 2 <= 16
    ensures Read6("::" + rest, s) ==
            Read6(rest, Parsing(s.out + WordBytes(s.val), |s.out| + 2, 0, 0, rest))
  {
    assert ("::" + rest)[1..] == ":" + rest;
    assert (":" + rest)[1..] == rest;
  }

  // ---------- the words and the bytes ----------

  lemma {:induction false} BytesOfWords(a: seq<byte>, i: nat, j: nat)
    requires |a| == 16 && i <= j <= 8
    ensures Bytes(Words(a)[i..j]) == a[2 * i..2 * j]
    decreases j
  {
    if i < j {
      var w := Words(a);
      BytesOfWords(a, i, j - 1);
      assert w[i..j][..|w[i..j]| - 1] == w[i..j - 1];
      PairBytes(a, j - 1);
      assert a[2 * i..2 * j] == a[2 * i..2 * (j - 1)] + a[2 * (j - 1)..2 * j];
    }
  }

  lemma PairBytes(a: seq<byte>, k: nat)
    requires |a| == 16 && k < 8
    ensures WordBytes(Words(a)[k]) == a[2 * k..2 * (k + 1)]
  {
    var x, y := a[2 * k] as int, a[2 * k + 1] as int;
    assert (x * 256 + y) / 256 == x && (x * 256 + y) % 256 == y;
  }

  lemma ZerosOfRun(a: seq<byte>, b: nat, n: nat)
    requires |a| == 16 && b + n <= 8 && forall i :: b <= i < b + n ==> Words(a)[i] == 0
    ensures a[2 * b..2 * (b + n)] == Zeros(2 * n)
  {
    forall k | 2 * b <= k < 2 * (b + n) ensures a[k] == 0 {
      assert Words(a)[k / 2] == 0;
      assert a[2 * (k / 2)] as int * 256 + a[2 * (k / 2) + 1] as int == 0;
    }
  }

  /** Bytes before and after the run, with zeros between them, are the address. */
  lemma Filled(a: seq<byte>, b: nat, n: nat)
    requires |a| == 16 && b + n <= 8 && forall i :: b <= i < b + n ==> Words(a)[i] == 0
    ensures var out := a[..2 * b] + a[2 * (b + n)..];
            out[..2 * b] + Zeros(16 - |out|) + out[2 * b..] == a
  {
    ZerosOfRun(a, b, n);
    var out := a[..2 * b] + a[2 * (b + n)..];
    assert out[..2 * b] == a[..2 * b] && out[2 * b..] == a[2 * (b + n)..];
    assert a == a[..2 * b] + a[2 * b..2 * (b + n)] + a[2 * (b + n)..];
  }

  lemma FinishPending(t: Parsing, a: seq<byte>, b: nat, n: nat)
    requires ParsingOk(t) && t.seen > 0 && |a| == 16 && b + n <= 8 && n > 0 && t.colon == 2 * b
    requires t.out + WordBytes(t.val) == a[..2 * b] + a[2 * (b + n)..]
    requires forall i :: b <= i < b + n ==> Words(a)[i] == 0
    ensures Read6([], t) == Ok(a)
  {
    Filled(a, b, n);
  }

  lemma FinishStored(t: Parsing, a: seq<byte>, b: nat, n: nat)
    requires ParsingOk(t) && t.seen == 0 && |a| == 16 && b + n <= 8 && n > 0 && t.colon == 2 * b
    requires t.out == a[..2 * b] + a[2 * (b + n)..]
    requires forall i :: b <= i < b + n ==> Words(a)[i] == 0
    ensures Read6([], t) == Ok(a)
  {
    Filled(a, b, n);
  }

  // ---------- and back ----------

  lemma NoColonFirst(w: seq<word>, rest: string)
    requires w != []
    ensures Joined(w) != [] && Joined(w)[0] != ':' && (Joined(w) + rest)[0] != ':'
  {
    JoinedCons(w);
    HexFirst(w[0]);
  }

  lemma {:induction false} HexFirst(n: nat)
    ensures Hex(n)[0] != ':'
  {
    if n >= 16 {
      HexFirst(n / 16);
    }
  }

  /** Without a run. */
  lemma BackPlain(a: seq<byte>)
    requires |a| == 16
    ensures Parse6(Joined(Words(a))) == Ok(a)
  {
    var w := Words(a);
    NoColonFirst(w, []);
    var t := ReadJoined(w, [], Parsing([], -1, 0, 0, Joined(w)));
    assert Joined(w) + [] == Joined(w);
    BytesOfWords(a, 0, 8);
    assert w[0..8] == w && a[0..16] == a && [] + a == a;
  }

  lemma BytesOfTail(a: seq<byte>, k: nat)
    requires |a| == 16 && k <= 8
    ensures Bytes(Words(a)[k..]) == a[2 * k..]
  {
    BytesOfWords(a, k, 8);
    assert Words(a)[k..8] == Words(a)[k..];
    assert a[2 * k..2 * 8] == a[2 * k..];
  }

  /** What stands behind the two colons. */
  lemma BackRight(a: seq<byte>, b: nat, n: nat, s: Parsing)
    requires |a| == 16 && b + n <= 8 && n > 0 && forall i :: b <= i < b + n ==> Words(a)[i] == 0
    requires ParsingOk(s) && s.seen == 0 && s.val == 0 && s.colon == 2 * b && s.out == a[..2 * b]
    ensures Read6(Joined(Words(a)[b + n..]), s) == Ok(a)
  {
    var right := Words(a)[b + n..];
    BytesOfTail(a, b + n);
    if right == [] {
      FinishStored(s, a, b, n);
    } else {
      var t := ReadJoined(right, [], s);
      assert Joined(right) + [] == Joined(right);
      FinishPending(t, a, b, n);
    }
  }

  ghost predicate AroundReadsBack(a: seq<byte>, b: nat, n: nat)
    requires |a| == 16 && b + n <= 8
  {
    Parse6(Joined(Words(a)[..b]) + "::" + Joined(Words(a)[b + n..])) == Ok(a)
  }

  lemma MiddleText(left: string, r: string)
    ensures left + "::" + r == left + ("::" + r)
  {
  }

  /** The words before the run and the two colons. */
  lemma ReadLeftSide(a: seq<byte>, b: nat, r: string)
    requires |a| == 16 && 0 < b < 8
    ensures Parse6(Joined(Words(a)[..b]) + ("::" + r)) == Read6(r, Parsing(a[..2 * b], 2 * b, 0, 0, r))
  {
    var left := Words(a)[..b];
    var src := Joined(left) + ("::" + r);
    NoColonFirst(left, "::" + r);
    var t := ReadJoined(left, "::" + r, Parsing([], -1, 0, 0, src));
    ReadTwoColons(r, t);
    BytesOfHead(a, b);
  }

  lemma BytesOfHead(a: seq<byte>, k: nat)
    requires |a| == 16 && k <= 8
    ensures [] + Bytes(Words(a)[..k]) == a[..2 * k]
  {
    BytesOfWords(a, 0, k);
    assert Words(a)[0..k] == Words(a)[..k];
    assert a[0..2 * k] == a[..2 * k];
  }

  /** With words before the run. */
  lemma BackMiddle(a: seq<byte>, b: nat, n: nat)
    requires |a| == 16 && 0 < b && b + n <= 8 && n > 0 && forall i :: b <= i < b + n ==> Words(a)[i] == 0
    ensures AroundReadsBack(a, b, n)
  {
    var r := Joined(Words(a)[b + n..]);
    MiddleText(Joined(Words(a)[..b]), r);
    ReadLeftSide(a, b, r);
    BackRight(a, b, n, Parsing(a[..2 * b], 2 * b, 0, 0, r));
  }

  lemma NoHead(a: seq<byte>)
    ensures a[..2 * 0] == []
  {
  }

  /** With the run in front. */
  lemma BackFront(a: seq<byte>, n: nat)
    requires |a| == 16 && n <= 8 && n > 0 && forall i :: 0 <= i < n ==> Words(a)[i] == 0
    ensures Parse6("::" + Joined(Words(a)[n..])) == Ok(a)
  {
    var r := Joined(Words(a)[n..]);
    TwoColonsFirst(r);
    NoHead(a);
    BackRight(a, 0, n, Parsing([], 0, 0, 0, r));
  }

  lemma TwoColonsFirst(r: string)
    ensures Parse6("::" + r) == Read6(r, Parsing([], 0, 0, 0, r))
  {
    assert ("::" + r)[1..] == ":" + r;
    assert (":" + r)[1..] == r;
  }

  // ---------- an embedded IPv4 address ----------

  /** Decimal digits are read as hexadecimal ones until the dot. */
  lemma {:induction false} ReadDecHex(n: nat, rest: string, s: Parsing) returns (v: nat)
    requires ParsingOk(s) && s.seen + |Dec(n)| <= 4
    ensures Read6(Dec(n) + rest, s) == Read6(rest, s.(val := v, seen := s.seen + |Dec(n)|))
  {
    if n < 10 {
      v := ReadDecDigit(n, rest, s);
    } else {
      var d := Digit(n % 10);
      DecLast(n, rest);
      var u := ReadDecHex(n / 10, [d] + rest, s);
      v := ReadDecDigit(n % 10, rest, s.(val := u, seen := s.seen + |Dec(n / 10)|));
    }
  }

  lemma ReadDecDigit(d: nat, rest: string, s: Parsing) returns (v: nat)
    requires ParsingOk(s) && s.seen < 4 && d < 10
    ensures Read6([Digit(d)] + rest, s) == Read6(rest, s.(val := v, seen := s.seen + 1))
  {
    assert IsHex(Digit(d));
    v := s.val * 16 + HexValue(Digit(d));
    ReadDigit(Digit(d), rest, s);
  }

  lemma DecLast(n: nat, rest: string)
    requires n >= 10
    ensures Dec(n) + rest == Dec(n / 10) + ([Digit(n % 10)] + rest) && |Dec(n)| == |Dec(n / 10)| + 1
  {
    Associates(Dec(n / 10), [Digit(n % 10)], rest);
  }

  lemma Read4In6(b: seq<byte>, s: Parsing)
    requires |b| == 4 && ParsingOk(s) && s.seen == 0 && |s.out| + 4 <= 16 && s.tok == Text4(b)
    ensures Read6(Text4(b), s) == Finish6(s.(out := s.out + b))
  {
    var rest := Dec(b[1]) + ("." + (Dec(b[2]) + ("." + Dec(b[3]))));
    Inet4.Regroup(Dec(b[0]), Dec(b[1]), Dec(b[2]), Dec(b[3]));
    DecLength(b[0]);
    var v := ReadDecHex(b[0], "." + rest, s);
    ReadText(b);
    assert ("." + rest)[0] == '.';
  }

  lemma BackFour(a: seq<byte>)
    requires |a| == 16 && forall i :: 0 <= i < 6 ==> Words(a)[i] == 0
    ensures Parse6("::" + Text4(a[12..])) == Ok(a)
  {
    var text := Text4(a[12..]);
    TwoColonsFirst(text);
    Read4In6(a[12..], Parsing([], 0, 0, 0, text));
    assert [] + a[12..] == a[..0] + a[2 * (0 + 6)..];
    Filled(a, 0, 6);
  }

  lemma BackFiveFour(a: seq<byte>)
    requires |a| == 16 && forall i :: 0 <= i < 5 ==> Words(a)[i] == 0
    ensures Parse6("::" + Hex(Words(a)[5]) + ":" + Text4(a[12..])) == Ok(a)
  {
    var w5, text := Words(a)[5], Text4(a[12..]);
    var r := Hex(w5) + (":" + text);
    FiveText(Hex(w5), text);
    TwoColonsFirst(r);
    ReadWordThenFour(w5, a[12..], Parsing([], 0, 0, 0, r));
    FiveBytes(a);
    Filled(a, 0, 5);
  }

  lemma FiveText(h: string, text: string)
    ensures "::" + h + ":" + text == "::" + (h + (":" + text))
  {
    Associates("::" + h, ":", text);
    Associates("::", h, ":" + text);
  }

  lemma FiveBytes(a: seq<byte>)
    requires |a| == 16
    ensures [] + WordBytes(Words(a)[5]) + a[12..] == a[..0] + a[2 * (0 + 5)..]
  {
    PairBytes(a, 5);
    assert a[10..] == a[10..12] + a[12..];
  }

  lemma ReadWordThenFour(w: word, b: seq<byte>, s: Parsing)
    requires |b| == 4 && ParsingOk(s) && s.seen == 0 && s.val == 0 && |s.out| + 6 <= 16
    ensures Read6(Hex(w) + (":" + Text4(b)), s) ==
            Finish6(Parsing(s.out + WordBytes(w) + b, s.colon, 0, 0, Text4(b)))
  {
    var text := Text4(b);
    HexLength(w);
    ReadHex(w, ":" + text, s);
    assert (":" + text)[1..] == text && text != [];
    Read4In6(b, Parsing(s.out + WordBytes(w), s.colon, 0, 0, text));
  }

  lemma BackEmbedded(a: seq<byte>, r: Run)
    requires |a| == 16 && Embeds4(Words(a), r) && r.len < 7 && ZeroRun(Words(a), r.base, r.len)
    ensures Parse6("::" + (if r.len == 5 then Hex(Words(a)[5]) + ":" else []) + Text4(a[12..])) == Ok(a)
  {
    if r.len == 5 {
      BackFiveFour(a);
      assert "::" + (Hex(Words(a)[5]) + ":") + Text4(a[12..]) == "::" + Hex(Words(a)[5]) + ":" + Text4(a[12..]);
    } else {
      BackFour(a);
      assert "::" + [] + Text4(a[12..]) == "::" + Text4(a[12..]);
    }
  }

  lemma BackFrontText(a: seq<byte>, b: nat, n: nat)
    requires |a| == 16 && b == 0 && n <= 8 && n > 0 && forall i :: 0 <= i < n ==> Words(a)[i] == 0
    ensures AroundReadsBack(a, b, n)
  {
    BackFront(a, n);
    FrontText(Words(a), Joined(Words(a)[n..]));
  }

  lemma FrontText(w: seq<word>, right: string)
    ensures Joined(w[..0]) + "::" + right == "::" + right
  {
    assert w[..0] == [];
  }

  lemma BackAround(a: seq<byte>, b: nat, n: nat)
    requires |a| == 16 && b + n <= 8 && n > 0 && forall i :: b <= i < b + n ==> Words(a)[i] == 0
    ensures AroundReadsBack(a, b, n)
  {
    if b == 0 {
      BackFrontText(a, b, n);
    } else {
      BackMiddle(a, b, n);
    }
  }

  ghost predicate TextReadsBack(a: seq<byte>, r: Run)
    requires |a| == 16 && RunOk(r)
  {
    Parse6(Text6(a, r)) == Ok(a)
  }

  lemma BackAroundText(a: seq<byte>, r: Run)
    requires |a| == 16 && RunOk(r) && r.base != -1 && ZeroRun(Words(a), r.base, r.len)
    requires !(Embeds4(Words(a), r) && r.len < 7)
    ensures TextReadsBack(a, r)
  {
    BackAround(a, r.base, r.len);
    TextAround(Words(a), r, Text4(a[12..]));
  }

  lemma TextAround(w: seq<word>, r: Run, four: string)
    requires |w| == 8 && RunFits(r) && r.base != -1 && !(Embeds4(w, r) && r.len < 7)
    ensures TextOf(w, r, four) == Joined(w[..r.base]) + "::" + Joined(w[r.base + r.len..])
  {
  }

  lemma BackEmbeddedText(a: seq<byte>, r: Run)
    requires |a| == 16 && RunOk(r) && r.base != -1 && ZeroRun(Words(a), r.base, r.len)
    requires Embeds4(Words(a), r) && r.len < 7
    ensures TextReadsBack(a, r)
  {
    BackEmbedded(a, r);
  }

  /** Whatever run of zeros is left out, the text is read as the address it was printed for. */
  lemma ReadsBack(a: seq<byte>, r: Run)
    requires |a| == 16 && RunOk(r) && (r.base != -1 ==> ZeroRun(Words(a), r.base, r.len))
    ensures TextReadsBack(a, r)
  {
    if r.base == -1 {
      BackPlain(a);
    } else if Embeds4(Words(a), r) && r.len < 7 {
      BackEmbeddedText(a, r);
    } else {
      BackAroundText(a, r);
    }
  }

  /** inet_pton6 after inet_ntop6 is the identity, for every address and every buffer that is large enough. */
  lemma RoundTrip(a: seq<byte>, r: Run)
    requires |a| == 16 && IsBest(Words(a), r)
    ensures RunOk(r) && Parse6(Text6(a, r)) == Ok(a)
  {
    BestIsOk(Words(a), r);
    ReadsBack(a, r);
  }
}
