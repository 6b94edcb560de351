/** IPv6 addresses as text: the run of zero words that is left out, and the text printed around it. */
module Inet6 {
  import opened Basics
  import opened Inet4

  type word = x: int | 0 <= x < 0x1_0000

  const INET6_ADDRSTRLEN := 46

  // ---------- the longest run of zero words ----------

  /** `base` is -1 when there is none. */
  datatype Run = Run(base: int, len: int)

  ghost predicate ZeroRun(w: seq<word>, b: int, n: int) {
    0 <= b && n >= 1 && b + n <= |w| && forall i :: b <= i < b + n ==> w[i] == 0
  }

  /** The leftmost of the longest runs, if it has two words or more. */
  ghost predicate IsBest(w: seq<word>, r: Run) {
    if r.base == -1 then forall b, n :: ZeroRun(w, b, n) ==> n < 2
    else
      && ZeroRun(w, r.base, r.len) && r.len >= 2
      && forall b, n :: ZeroRun(w, b, n) ==> n <= r.len && (n == r.len ==> b >= r.base)
  }

  lemma BestUnique(w: seq<word>, r: Run, s: Run)
    requires IsBest(w, r) && IsBest(w, s)
    ensures r.base == s.base && (r.base != -1 ==> r == s)
  {
    assert r.base != -1 ==> ZeroRun(w, r.base, r.len);
    assert s.base != -1 ==> ZeroRun(w, s.base, s.len);
  }

  function Better(best: Run, cur: Run): Run {
    if cur.base != -1 && (best.base == -1 || cur.len > best.len) then cur else best
  }

  function BestFrom(w: seq<word>, i: nat, best: Run, cur: Run): Run
    requires i <= |w|
    decreases |w| - i
  {
    if i == |w| then
      var b := Better(best, cur);
      if b.base != -1 && b.len < 2 then b.(base := -1) else b
    else if w[i] == 0 then BestFrom(w, i + 1, best, if cur.base == -1 then Run(i, 1) else cur.(len := cur.len + 1))
    else BestFrom(w, i + 1, Better(best, cur), cur.(base := -1))
  }

  function Best(w: seq<word>): Run {
    BestFrom(w, 0, Run(-1, 0), Run(-1, 0))
  }

  /** The runs that end before the one being counted. */
  ghost predicate BestBefore(w: seq<word>, end: int, best: Run) {
    if best.base == -1 then forall b, n :: ZeroRun(w, b, n) ==> b + n > end
    else
      && ZeroRun(w, best.base, best.len) && best.base + best.len <= end
      && forall b, n :: ZeroRun(w, b, n) && b + n <= end ==> n <= best.len && (n == best.len ==> b >= best.base)
  }

  ghost predicate Counting(w: seq<word>, i: nat, best: Run, cur: Run) {
    && i <= |w|
    && (if cur.base == -1 then i == 0 || w[i - 1] != 0
        else ZeroRun(w, cur.base, cur.len) && cur.base + cur.len == i && (cur.base == 0 || w[cur.base - 1] != 0))
    && BestBefore(w, if cur.base == -1 then i else cur.base, best)
  }

  lemma {:induction false} BestFromIsBest(w: seq<word>, i: nat, best: Run, cur: Run)
    requires Counting(w, i, best, cur)
    ensures IsBest(w, BestFrom(w, i, best, cur))
    decreases |w| - i
  {
    if i < |w| && w[i] == 0 {
      var next := if cur.base == -1 then Run(i, 1) else cur.(len := cur.len + 1);
      BestFromIsBest(w, i + 1, best, next);
    } else {
      RunEnds(w, i, best, cur);
      if i < |w| {
        StepOver(w, i, Better(best, cur));
        BestFromIsBest(w, i + 1, Better(best, cur), cur.(base := -1));
      }
    }
  }

  /** With the run being counted taken into account, the best of all runs so far is known. */
  lemma RunEnds(w: seq<word>, i: nat, best: Run, cur: Run)
    requires Counting(w, i, best, cur) && (i == |w| || w[i] != 0)
    ensures BestBefore(w, i, Better(best, cur))
  {
    assert cur.base <= 0 || w[cur.base - 1] != 0;
    if cur.base != -1 {
      forall b, n | ZeroRun(w, b, n) && b + n <= i && b + n > cur.base ensures b >= cur.base && n <= cur.len {
      }
    }
  }

  lemma StepOver(w: seq<word>, i: nat, best: Run)
    requires i < |w| && w[i] != 0 && BestBefore(w, i, best)
    ensures BestBefore(w, i + 1, best)
  {
    forall b, n | ZeroRun(w, b, n) && b + n <= i + 1 ensures b + n <= i {
    }
  }

  lemma BestIsBest(w: seq<word>)
    ensures IsBest(w, Best(w))
  {
    BestFromIsBest(w, 0, Run(-1, 0), Run(-1, 0));
  }

  // ---------- the text ----------

  function HexDigit(d: int): char
    requires 0 <= d < 16
  {
    if d < 10 then '0' + d as char else 'a' + (d - 10) as char
  }

  /** "%x" */
  function Hex(n: nat): (s: string)
    ensures s != []
  {
    if n < 16 then [HexDigit(n)] else Hex(n / 16) + [HexDigit(n % 16)]
  }

  lemma HexLength(n: word)
    ensures 1 <= |Hex(n)| <= 4
  {
    if n >= 0x1000 {
      assert n / 16 / 16 / 16 < 16 && |Hex(n / 16 / 16)| == |Hex(n / 16 / 16 / 16)| + 1;
    }
    if n >= 0x100 {
      assert |Hex(n / 16)| == |Hex(n / 16 / 16)| + 1;
    }
  }

  function Words(a: seq<byte>): (w: seq<word>)
    requires |a| == 16
    ensures |w| == 8
  {
    seq(8, i requires 0 <= i < 8 => a[2 * i] as int * 256 + a[2 * i + 1] as int)
  }

  predicate Inside(r: Run, i: int) {
    r.base != -1 && r.base <= i < r.base + r.len
  }

  /** The last four bytes are printed as an IPv4 address. */
  predicate Embeds4(w: seq<word>, r: Run)
    requires |w| == 8
  {
    r.base == 0 && (r.len == 6 || (r.len == 7 && w[7] != 1) || (r.len == 5 && w[5] == 0xffff))
  }

  /** ":" and the words, each in hexadecimal and with ":" before it. */
  function Coloned(w: seq<word>): string {
    if w == [] then [] else Coloned(w[..|w| - 1]) + ":" + Hex(w[|w| - 1])
  }

  function Joined(w: seq<word>): string {
    if w == [] then []
    else if |w| == 1 then Hex(w[0])
    else Joined(w[..|w| - 1]) + ":" + Hex(w[|w| - 1])
  }

  predicate RunFits(r: Run) {
    r.base != -1 ==> 0 <= r.base && 0 <= r.len && r.base + r.len <= 8
  }

  /** The text form: all words, or the words before and after the run with two colons between them. When the
      address embeds an IPv4 address, that is what the text ends with. */
  function TextOf(w: seq<word>, r: Run, four: string): string
    requires |w| == 8 && RunFits(r)
  {
    if r.base == -1 then Joined(w)
    else if Embeds4(w, r) && r.len < 7 then "::" + (if r.len == 5 then Hex(w[5]) + ":" else []) + four
    else Joined(w[..r.base]) + "::" + Joined(w[r.base + r.len..])
  }

  function Text6(a: seq<byte>, r: Run): string
    requires |a| == 16 && RunFits(r)
  {
    TextOf(Words(a), r, Text4(a[12..]))
  }

  // ---------- what the printing loop writes ----------

  /** The run found is none or lies within the words. */
  predicate RunOk(r: Run) {
    r.base == -1 || (0 <= r.base && r.len >= 2 && r.base + r.len <= 8)
  }

  function Piece(a: seq<byte>, r: Run, i: nat): string
    requires |a| == 16 && i < 8
  {
    if Inside(r, i) then (if i == r.base then ":" else [])
    else (if i != 0 then ":" else []) + if i == 6 && Embeds4(Words(a), r) then Text4(a[12..]) else Hex(Words(a)[i])
  }

  /** After the IPv4 address the loop is left. */
  predicate Stops(a: seq<byte>, r: Run)
    requires |a| == 16
  {
    !Inside(r, 6) && Embeds4(Words(a), r)
  }

  function Emitted(a: seq<byte>, r: Run, i: nat): string
    requires |a| == 16 && i <= 8
  {
    if i == 0 then [] else Emitted(a, r, i - 1) + if i == 8 && Stops(a, r) then [] else Piece(a, r, i - 1)
  }

  function Printed(a: seq<byte>, r: Run): string
    requires |a| == 16
  {
    Emitted(a, r, 8) + if r.base != -1 && r.base + r.len == 8 then ":" else []
  }

  lemma JoinedSnoc(w: seq<word>, i: nat)
    requires i < |w|
    ensures Joined(w[..i + 1]) == Joined(w[..i]) + (if i != 0 then ":" else []) + Hex(w[i])
  {
    assert w[..i + 1][..i] == w[..i];
    if i == 0 {
      assert [] + [] + Hex(w[0]) == Hex(w[0]);
    }
  }

  lemma WordEmitted(a: seq<byte>, r: Run, i: nat, colon: string, w: word)
    requires |a| == 16 && i < 8 && !Inside(r, i) && (i >= 6 ==> !Stops(a, r)) && w == Words(a)[i]
    requires colon == if i != 0 then ":" else []
    ensures Emitted(a, r, i + 1) == (Emitted(a, r, i) + colon) + Hex(w)
  {
    assert Emitted(a, r, i + 1) == Emitted(a, r, i) + Piece(a, r, i);
  }

  function JoinedTo(w: seq<word>, i: nat): string
    requires i <= |w|
  {
    if i == 0 then [] else JoinedTo(w, i - 1) + (if i != 1 then ":" else []) + Hex(w[i - 1])
  }

  lemma {:induction false} JoinedToIs(w: seq<word>, i: nat)
    requires i <= |w|
    ensures JoinedTo(w, i) == Joined(w[..i])
  {
    if i > 0 {
      JoinedToIs(w, i - 1);
      JoinedSnoc(w, i - 1);
    }
  }

  lemma {:induction false} EmittedBefore(a: seq<byte>, r: Run, i: nat)
    requires |a| == 16 && i <= 8 && RunOk(r) && (r.base == -1 || i <= r.base)
    ensures Emitted(a, r, i) == JoinedTo(Words(a), i)
  {
    if i > 0 {
      EmittedBefore(a, r, i - 1);
      WordEmitted(a, r, i - 1, if i != 1 then ":" else [], Words(a)[i - 1]);
    }
  }

  lemma {:induction false} EmittedInside(a: seq<byte>, r: Run, i: nat)
    requires |a| == 16 && RunOk(r) && r.base != -1 && r.base < i <= r.base + r.len
    ensures Emitted(a, r, i) == JoinedTo(Words(a), r.base) + ":"
  {
    if i == r.base + 1 {
      EmittedBefore(a, r, r.base);
    } else {
      EmittedInside(a, r, i - 1);
    }
  }

  lemma ColonedSnoc(w: seq<word>, e: nat, i: nat)
    requires e <= i < |w|
    ensures Coloned(w[e..i + 1]) == Coloned(w[e..i]) + ":" + Hex(w[i])
  {
    assert w[e..i + 1][..|w[e..i + 1]| - 1] == w[e..i];
  }

  function ColonedFrom(w: seq<word>, e: nat, i: nat): string
    requires e <= i <= |w|
  {
    if i == e then [] else ColonedFrom(w, e, i - 1) + ":" + Hex(w[i - 1])
  }

  lemma {:induction false} ColonedFromIs(w: seq<word>, e: nat, i: nat)
    requires e <= i <= |w|
    ensures ColonedFrom(w, e, i) == Coloned(w[e..i])
  {
    if i > e {
      ColonedFromIs(w, e, i - 1);
      ColonedSnoc(w, e, i - 1);
    } else {
      assert w[e..i] == [];
    }
  }

  lemma BehindStep(left: string, c: string, h: string, e: string, e': string, c': string)
    requires e == left + ":" + c && e' == (e + ":") + h && c' == c + ":" + h
    ensures e' == left + ":" + c'
  {
  }

  lemma NothingBehind(s: string)
    ensures s + [] == s
  {
  }

  /** What has been written behind the run. */
  ghost predicate WrittenBehind(a: seq<byte>, r: Run, left: string, e: nat, i: nat)
    requires |a| == 16 && e <= i <= 8
  {
    Emitted(a, r, i) == left + ":" + ColonedFrom(Words(a), e, i)
  }

  lemma FirstBehind(a: seq<byte>, r: Run, left: string, e: nat)
    requires |a| == 16 && e <= 8 && Emitted(a, r, e) == left + ":"
    ensures WrittenBehind(a, r, left, e, e)
  {
    NothingBehind(left + ":");
  }

  lemma OneBehind(a: seq<byte>, r: Run, left: string, e: nat, i: nat)
    requires |a| == 16 && RunOk(r) && r.base != -1 && e == r.base + r.len <= i < 8 && (!Stops(a, r) || i < 6)
    requires WrittenBehind(a, r, left, e, i)
    ensures WrittenBehind(a, r, left, e, i + 1)
  {
    var w := Words(a);
    WordEmitted(a, r, i, ":", w[i]);
    BehindStep(left, ColonedFrom(w, e, i), Hex(w[i]), Emitted(a, r, i), Emitted(a, r, i + 1), ColonedFrom(w, e, i + 1));
  }

  lemma {:induction false} EmittedBehind(a: seq<byte>, r: Run, left: string, e: nat, i: nat)
    requires |a| == 16 && RunOk(r) && r.base != -1 && e == r.base + r.len <= i <= 8 && (!Stops(a, r) || i <= 6)
    requires Emitted(a, r, e) == left + ":"
    ensures WrittenBehind(a, r, left, e, i)
  {
    if i == e {
      FirstBehind(a, r, left, e);
    } else {
      EmittedBehind(a, r, left, e, i - 1);
      OneBehind(a, r, left, e, i - 1);
    }
  }

  /** The loop writes the text form. */
  lemma PrintedIsText(a: seq<byte>, r: Run)
    requires |a| == 16 && RunOk(r)
    ensures Printed(a, r) == Text6(a, r)
  {
    if r.base == -1 {
      EmittedBefore(a, r, 8);
      JoinedToIs(Words(a), 8);
      assert Words(a)[..8] == Words(a);
    } else if Stops(a, r) {
      PrintedEmbedded(a, r);
    } else {
      PrintedGap(a, r);
    }
  }

  lemma PrintedGap(a: seq<byte>, r: Run)
    requires |a| == 16 && RunOk(r) && r.base != -1 && !Stops(a, r)
    ensures Printed(a, r) == Joined(Words(a)[..r.base]) + "::" + Joined(Words(a)[r.base + r.len..])
  {
    var w, e := Words(a), r.base + r.len;
    EmittedInside(a, r, e);
    EmittedBehind(a, r, JoinedTo(w, r.base), e, 8);
    GapSides(w, r.base, e);
    GapText(JoinedTo(w, r.base), ColonedFrom(w, e, 8), Joined(w[e..]), e == 8);
  }

  lemma GapSides(w: seq<word>, b: nat, e: nat)
    requires b <= e <= |w|
    ensures JoinedTo(w, b) == Joined(w[..b])
    ensures if e == |w| then ColonedFrom(w, e, |w|) == Joined(w[e..]) == []
            else ColonedFrom(w, e, |w|) == ":" + Joined(w[e..])
  {
    JoinedToIs(w, b);
    ColonedFromIs(w, e, |w|);
    assert w[e..|w|] == w[e..];
    if e < |w| {
      ColonedJoined(w[e..]);
    }
  }

  lemma GapText(left: string, c: string, j: string, empty: bool)
    requires if empty then c == j == [] else c == ":" + j
    ensures left + ":" + c + (if empty then ":" else []) == left + "::" + j
  {
    assert "::" == ":" + ":";
  }

  lemma {:induction false} ColonedJoined(w: seq<word>)
    requires w != []
    ensures Coloned(w) == ":" + Joined(w)
  {
    if |w| == 1 {
      assert w[..0] == [];
    } else {
      var before, h := w[..|w| - 1], Hex(w[|w| - 1]);
      ColonedJoined(before);
      Associates(":" + Joined(before), ":", h);
      Associates(":", Joined(before), ":" + h);
      Associates(Joined(before), ":", h);
    }
  }

  lemma EmbeddedStart(a: seq<byte>, r: Run)
    requires |a| == 16 && RunOk(r) && r.base != -1 && Stops(a, r)
    ensures Emitted(a, r, 6) == [] + ":" + (if r.len == 5 then ":" + Hex(Words(a)[5]) else [])
  {
    EmittedInside(a, r, r.len);
    EmittedBehind(a, r, [], r.len, 6);
    ColonedFromIs(Words(a), r.len, 6);
    EmbeddedBefore(Words(a), r.len);
  }

  /** The IPv4 address is the last that is written. */
  lemma FourEmitted(a: seq<byte>, r: Run, four: string)
    requires |a| == 16 && RunOk(r) && r.base != -1 && Stops(a, r) && four == Text4(a[12..])
    ensures Emitted(a, r, 8) == Emitted(a, r, 6) + (":" + four)
  {
    assert Piece(a, r, 6) == ":" + four;
    assert Emitted(a, r, 7) == Emitted(a, r, 6) + Piece(a, r, 6);
    assert Emitted(a, r, 8) == Emitted(a, r, 7) + [];
  }

  lemma PrintedEmbedded(a: seq<byte>, r: Run)
    requires |a| == 16 && RunOk(r) && r.base != -1 && Stops(a, r)
    ensures Printed(a, r) == Text6(a, r)
  {
    var w, four := Words(a), Text4(a[12..]);
    EmbeddedStart(a, r);
    FourEmitted(a, r, four);
    EmbeddedText(if r.len == 5 then Hex(w[5]) else [], r.len == 5, four);
  }

  lemma EmbeddedBefore(w: seq<word>, n: int)
    requires |w| == 8 && (n == 5 || n == 6)
    ensures Coloned(w[n..6]) == if n == 5 then ":" + Hex(w[5]) else []
  {
    if n == 5 {
      ColonedSnoc(w, 5, 5);
      assert w[5..5] == [];
    } else {
      assert w[6..6] == [];
    }
  }

  lemma EmbeddedText(h: string, five: bool, four: string)
    requires !five ==> h == []
    ensures ([] + ":" + (if five then ":" + h else [])) + (":" + four) + [] ==
            "::" + (if five then h + ":" else []) + four
  {
  }

  /** It fits into the buffer, whatever the address. */
  lemma TextLength(a: seq<byte>, r: Run)
    requires |a| == 16 && RunOk(r)
    ensures |Printed(a, r)| + 1 <= INET6_ADDRSTRLEN
    ensures Stops(a, r) ==> |Emitted(a, r, 6)| <= 7
  {
    if Stops(a, r) {
      PrintedEmbedded(a, r);
      EmbeddedStart(a, r);
      EmbeddedLength(a, r);
    } else {
      EmittedLength(a, r, 8);
    }
  }

  lemma EmbeddedLength(a: seq<byte>, r: Run)
    requires |a| == 16 && RunOk(r) && Stops(a, r)
    ensures |Text6(a, r)| <= 22
  {
    HexLength(Words(a)[5]);
    Text4Length(a[12..]);
  }

  lemma {:induction false} EmittedLength(a: seq<byte>, r: Run, i: nat)
    requires |a| == 16 && RunOk(r) && !Stops(a, r) && i <= 8
    ensures |Emitted(a, r, i)| <= 5 * i && (i > 0 ==> |Emitted(a, r, i)| <= 5 * i - (if Inside(r, 0) then 4 else 1))
  {
    if i > 0 {
      EmittedLength(a, r, i - 1);
      HexLength(Words(a)[i - 1]);
    }
  }

  // ---------- what the text looks like ----------

  predicate LowerHex(c: char) {
    '0' <= c <= '9' || 'a' <= c <= 'f'
  }

  ghost predicate AllIn(s: string, others: string) {
    forall i :: 0 <= i < |s| ==> LowerHex(s[i]) || s[i] in others
  }

  /** "%x": lower case, no zero in front, the last digit that of the remainder by 16 and those before it of the rest. */
  lemma {:induction false} HexMeans(n: nat)
    ensures AllIn(Hex(n), []) && (Hex(n)[0] == '0' ==> n == 0)
    ensures var k := |Hex(n)| - 1;
            Hex(n)[k] == "0123456789abcdef"[n % 16] && Hex(n)[..k] == if n < 16 then "" else Hex(n / 16)
  {
    HexDigitMeans(n % 16);
    if n >= 16 {
      HexMeans(n / 16);
    }
  }

  lemma HexDigitMeans(d: int)
    requires 0 <= d < 16
    ensures HexDigit(d) == "0123456789abcdef"[d] && LowerHex(HexDigit(d)) && (HexDigit(d) == '0' ==> d == 0)
  {
  }

  lemma {:induction false} DecDigits(n: nat)
    ensures AllIn(Dec(n), [])
  {
    if n >= 10 {
      DecDigits(n / 10);
    }
  }

  lemma Text4Plain(b: seq<byte>)
    requires |b| == 4
    ensures AllIn(Text4(b), ".")
  {
    DecDigits(b[0]);
    DecDigits(b[1]);
    DecDigits(b[2]);
    DecDigits(b[3]);
  }

  lemma {:induction false} JoinedPlain(w: seq<word>)
    ensures AllIn(Joined(w), ":")
  {
    if w != [] {
      HexMeans(w[|w| - 1]);
      JoinedPlain(w[..|w| - 1]);
    }
  }

  /** The words alone, with two colons for the run. */
  lemma AroundPlain(w: seq<word>, b: nat, e: nat)
    requires b <= e <= |w|
    ensures AllIn(Joined(w[..b]) + "::" + Joined(w[e..]), ":")
  {
    JoinedPlain(w[..b]);
    JoinedPlain(w[e..]);
    PlainParts(Joined(w[..b]), Joined(w[e..]));
  }

  lemma PlainParts(s: string, t: string)
    requires AllIn(s, ":") && AllIn(t, ":")
    ensures AllIn(s + "::" + t, ":")
  {
  }

  /** ::ffff:a.b.c.d */
  predicate Mapped(a: seq<byte>)
    requires |a| == 16
  {
    (forall i :: 0 <= i < 10 ==> a[i] == 0) && a[10] == a[11] == 255
  }

  /** ::a.b.c.d */
  predicate Compatible(a: seq<byte>)
    requires |a| == 16
  {
    (forall i :: 0 <= i < 12 ==> a[i] == 0) && (a[12] != 0 || a[13] != 0)
  }

  /** Which addresses end in IPv4 form, and what is before it; all others are words alone. */
  ghost predicate TailRight(a: seq<byte>, s: string)
    requires |a| == 16
  {
    if Mapped(a) then s == "::ffff:" + Text4(a[12..])
    else if Compatible(a) then s == "::" + Text4(a[12..])
    else AllIn(s, ":")
  }

  lemma MappedRun(a: seq<byte>, r: Run)
    requires |a| == 16 && IsBest(Words(a), r)
    ensures Mapped(a) <==> r == Run(0, 5) && Words(a)[5] == 0xffff
  {
    var w := Words(a);
    ZeroWords(a, 5);
    if Mapped(a) {
      assert ZeroRun(w, 0, 5) && w[5] == 0xffff;
      assert ZeroRun(w, r.base, r.len);
    }
    if r == Run(0, 5) {
      assert ZeroRun(w, 0, 5);
    }
  }

  lemma CompatibleRun(a: seq<byte>, r: Run)
    requires |a| == 16 && IsBest(Words(a), r)
    ensures Compatible(a) <==> r == Run(0, 6)
  {
    var w := Words(a);
    ZeroWords(a, 6);
    if Compatible(a) {
      assert ZeroRun(w, 0, 6) && w[6] != 0;
      assert ZeroRun(w, r.base, r.len);
    }
    if r == Run(0, 6) {
      assert ZeroRun(w, 0, 6);
      assert w[6] == 0 ==> ZeroRun(w, 0, 7);
    }
  }

  lemma ZeroWords(a: seq<byte>, n: nat)
    requires |a| == 16 && n <= 8
    ensures (forall i :: 0 <= i < n ==> Words(a)[i] == 0) <==> forall i :: 0 <= i < 2 * n ==> a[i] == 0
  {
    if forall i :: 0 <= i < n ==> Words(a)[i] == 0 {
      forall k | 0 <= k < 2 * n ensures a[k] == 0 {
        assert Words(a)[k / 2] == 0;
      }
    }
  }

  lemma HexFfff()
    ensures Hex(0xffff) == "ffff"
  {
    assert Hex(0xf) == "f";
    assert Hex(0xff) == "f" + "f" == "ff";
    assert Hex(0xfff) == "ff" + "f" == "fff";
    assert Hex(0xffff) == "fff" + "f" == "ffff";
  }

  lemma TailOf(a: seq<byte>, r: Run)
    requires |a| == 16 && IsBest(Words(a), r)
    ensures RunOk(r) && TailRight(a, Text6(a, r))
  {
    BestIsOk(Words(a), r);
    MappedRun(a, r);
    CompatibleRun(a, r);
    TailText(Words(a), r, Text4(a[12..]));
  }

  lemma TailText(w: seq<word>, r: Run, four: string)
    requires |w| == 8 && RunOk(r)
    ensures var s := TextOf(w, r, four);
            if r == Run(0, 5) && w[5] == 0xffff then s == "::ffff:" + four
            else if r == Run(0, 6) then s == "::" + four
            else AllIn(s, ":")
  {
    if r == Run(0, 5) && w[5] == 0xffff {
      HexFfff();
      MappedText(four);
    } else if r == Run(0, 6) {
      assert "::" + [] + four == "::" + four;
    } else if r.base == -1 {
      JoinedPlain(w);
    } else {
      AroundPlain(w, r.base, r.base + r.len);
    }
  }

  lemma MappedText(four: string)
    ensures "::" + ("ffff" + ":") + four == "::ffff:" + four
  {
    assert "::" + ("ffff" + ":") == "::ffff:";
  }

  // ---------- printing ----------

  /** The loop that finds the run. */
  method FindRun(words: seq<word>) returns (best: Run)
    ensures best == Best(words) && IsBest(words, best)
  {
    best := Run(-1, 0);
    var cur := Run(-1, 0);
    for i := 0 to |words|
      invariant Best(words) == BestFrom(words, i, best, cur)
    {
      if words[i] == 0 {
        if cur.base == -1 {
          cur := Run(i, 1);
        } else {
          cur := cur.(len := cur.len + 1);
        }
      } else {
        if cur.base != -1 {
          if best.base == -1 || cur.len > best.len {
            best := cur;
          }
          cur := cur.(base := -1);
        }
      }
    }
    if cur.base != -1 {
      if best.base == -1 || cur.len > best.len {
        best := cur;
      }
    }
    if best.base != -1 && best.len < 2 {
      best := best.(base := -1);
    }
    BestIsBest(words);
  }

  lemma BestIsOk(w: seq<word>, r: Run)
    requires |w| == 8 && IsBest(w, r)
    ensures RunOk(r)
  {
    assert r.base != -1 ==> ZeroRun(w, r.base, r.len);
  }

  lemma Text4Length(b: seq<byte>)
    requires |b| == 4
    ensures |Text4(b)| <= 15
  {
    DecLength(b[0]);
    DecLength(b[1]);
    DecLength(b[2]);
    DecLength(b[3]);
  }

  /** The bytes in pairs. */
  method ToWords(src: seq<byte>) returns (words: seq<word>)
    requires |src| == 16
    ensures words == Words(src)
  {
    words := [0, 0, 0, 0, 0, 0, 0, 0];
    for i := 0 to 16
      invariant |words| == 8
      invariant forall k :: 0 <= k < 8 ==> words[k] == (if 2 * k < i then src[2 * k] as int * 256 else 0) +
                                                       (if 2 * k + 1 < i then src[2 * k + 1] as int else 0)
    {
      words := words[i / 2 := words[i / 2] as int + src[i] as int * (if i % 2 == 0 then 256 else 1)];
    }
  }

  /** The loop that writes the words. */
  method Format(src: seq<byte>, words: seq<word>, best: Run) returns (tmp: string)
    requires |src| == 16 && words == Words(src) && RunOk(best)
    ensures tmp == Emitted(src, best, 8)
  {
    var i := 0;
    tmp := "";
    while i < 8
      invariant 0 <= i <= 8 && tmp == Emitted(src, best, i) && (Stops(src, best) ==> i <= 6 || i == 8)
    {
      if best.base != -1 && i >= best.base && i < best.base + best.len {
        if i == best.base {
          tmp := tmp + ":";
        }
        i := i + 1;
        continue;
      }
      tmp, i := FormatWord(src, words, best, i, tmp);
    }
  }

  /** A word, or the IPv4 address that ends the loop. */
  method FormatWord(src: seq<byte>, words: seq<word>, best: Run, i: nat, tmp0: string) returns (tmp: string, i': nat)
    requires |src| == 16 && words == Words(src) && RunOk(best) && i < 8 && !Inside(best, i)
    requires tmp0 == Emitted(src, best, i) && (Stops(src, best) ==> i <= 6)
    ensures i < i' <= 8 && tmp == Emitted(src, best, i') && (Stops(src, best) ==> i' <= 6 || i' == 8)
  {
    tmp := tmp0;
    var w5, w7 := words[5], words[7];
    if i != 0 {
      tmp := tmp + ":";
    }
    if i == 6 && best.base == 0 && (best.len == 6 || (best.len == 7 && w7 != 0x0001) ||
                                    (best.len == 5 && w5 == 0xffff)) {
      tmp := Embed(src, best, tmp);
      return tmp, 8;
    }
    assert Stops(src, best) ==> i < 6;
    tmp := AppendHex(src, words, best, i, tmp);
    return tmp, i + 1;
  }

  method AppendHex(src: seq<byte>, words: seq<word>, ghost best: Run, i: nat, tmp0: string) returns (tmp: string)
    requires |src| == 16 && words == Words(src) && RunOk(best) && i < 8 && !Inside(best, i) && (i >= 6 ==> !Stops(src, best))
    requires tmp0 == Emitted(src, best, i) + if i != 0 then ":" else []
    ensures tmp == Emitted(src, best, i + 1)
  {
    WordEmitted(src, best, i, if i != 0 then ":" else [], words[i]);
    tmp := tmp0 + Hex(words[i]);
  }

  /** The IPv4 address goes where there is room for it. */
  method Embed(src: seq<byte>, ghost best: Run, tmp0: string) returns (tmp: string)
    requires |src| == 16 && RunOk(best) && Stops(src, best) && tmp0 == Emitted(src, best, 6) + ":"
    ensures tmp == Emitted(src, best, 8)
  {
    TextLength(src, best);
    Text4Length(src[12..]);
    var four := Ntop4(src[12..], INET6_ADDRSTRLEN - |tmp0|);
    tmp := tmp0 + four.value;
    Associates(Emitted(src, best, 6), ":", Text4(src[12..]));
    FourEmitted(src, best, Text4(src[12..]));
  }

  /** inet_ntop6: the text form with the leftmost longest run of zero words left out, or ENOSPC if it does not
      fit with its terminator. */
  method Ntop6(src: seq<byte>, size: nat) returns (r: Result<string>, ghost run: Run)
    requires |src| == 16
    ensures IsBest(Words(src), run) && RunOk(run)
    ensures r == if |Text6(src, run)| + 1 <= size then Ok(Text6(src, run)) else Err(ENOSPC)
    ensures |Text6(src, run)| + 1 <= INET6_ADDRSTRLEN
    ensures r.Ok? ==> TailRight(src, r.value)
  {
    var words := ToWords(src);
    var best := FindRun(words);
    run := best;
    BestIsOk(words, best);
    TextLength(src, best);
    PrintedIsText(src, best);
    TailOf(src, best);
    var tmp := Format(src, words, best);
    if best.base != -1 && best.base + best.len == 8 {
      tmp := tmp + ":";
    }
    assert tmp == Printed(src, best);
    if |tmp| + 1 > size {
      return Err(ENOSPC), run;
    }
    return Ok(tmp), run;
  }
}
