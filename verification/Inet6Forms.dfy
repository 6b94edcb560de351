/** Which texts the IPv6 parser accepts: exactly the forms of RFC 4291, section 2.2, and what it reads from each. */
module Inet6Forms {
  import opened Basics
  import opened Inet4
  import opened Inet6Parse

  /** Groups of hexadecimal digits, with or without two colons among them that stand for one or more zero bytes, and
      an IPv4 address behind the last group or none. */
  datatype Form = Form(left: seq<string>, gap: bool, right: seq<string>, four: Option<seq<byte>>)

  predicate HexDigits(g: string) {
    forall i :: 0 <= i < |g| ==> IsHex(g[i])
  }

  predicate IsGroup(g: string) {
    1 <= |g| <= 4 && HexDigits(g)
  }

  predicate Groups(q: seq<string>) {
    forall i :: 0 <= i < |q| ==> IsGroup(q[i])
  }

  function HexOf(g: string): nat
    requires HexDigits(g)
  {
    if g == [] then 0 else HexOf(g[..|g| - 1]) * 16 + HexValue(g[|g| - 1])
  }

  function GroupBytes(q: seq<string>): (b: seq<byte>)
    requires Groups(q)
    ensures |b| == 2 * |q|
  {
    if q == [] then [] else GroupBytes(q[..|q| - 1]) + WordBytes(HexOf(q[|q| - 1]))
  }

  /** Each with a colon behind it. */
  function Ended(q: seq<string>): string {
    if q == [] then [] else Ended(q[..|q| - 1]) + (q[|q| - 1] + ":")
  }

  /** With colons between them. */
  function Listed(q: seq<string>): string {
    if q == [] then [] else Ended(q[..|q| - 1]) + q[|q| - 1]
  }

  predicate FourOk(four: Option<seq<byte>>) {
    four.Some? ==> |four.value| == 4
  }

  function FourBytes(four: Option<seq<byte>>): seq<byte> {
    if four.Some? then four.value else []
  }

  function Tokens(q: seq<string>, four: Option<seq<byte>>): seq<string>
    requires FourOk(four)
  {
    if four.Some? then q + [Text4(four.value)] else q
  }

  function Size(f: Form): nat {
    2 * |f.left| + 2 * |f.right| + if f.four.Some? then 4 else 0
  }

  predicate FormOk(f: Form) {
    && Groups(f.left) && Groups(f.right) && FourOk(f.four)
    && if f.gap then Size(f) < 16 else f.right == [] && Size(f) == 16
  }

  function Spelled(f: Form): string
    requires FormOk(f)
  {
    if f.gap then Listed(f.left) + ("::" + Listed(Tokens(f.right, f.four))) else Listed(Tokens(f.left, f.four))
  }

  function Address(f: Form): (a: seq<byte>)
    requires FormOk(f)
    ensures |a| == 16
  {
    GroupBytes(f.left) + Zeros(16 - Size(f)) + (GroupBytes(f.right) + FourBytes(f.four))
  }

  lemma EndedListed(q: seq<string>)
    ensures q != [] ==> Ended(q) == Listed(q) + ":"
  {
    if q != [] {
      Associates(Ended(q[..|q| - 1]), q[|q| - 1], ":");
    }
  }

  lemma Snoc(q: seq<string>, g: string)
    ensures Listed(q + [g]) == Ended(q) + g && Ended(q + [g]) == Ended(q) + (g + ":")
    ensures Groups(q) && IsGroup(g) ==> Groups(q + [g]) && GroupBytes(q + [g]) == GroupBytes(q) + WordBytes(HexOf(g))
  {
    assert (q + [g])[..|q|] == q;
  }

  // ---------- what is accepted is a form ----------

  /** The groups that have been read, on the two sides of the two colons or before them. */
  datatype Sides = Sides(left: seq<string>, gap: bool, right: seq<string>)

  ghost predicate SidesOk(v: Sides) {
    Groups(v.left) && Groups(v.right) && (!v.gap ==> v.right == [])
  }

  function Push(v: Sides, g: string): Sides {
    if v.gap then v.(right := v.right + [g]) else v.(left := v.left + [g])
  }

  function Out(v: Sides): seq<byte>
    requires Groups(v.left) && Groups(v.right)
  {
    GroupBytes(v.left) + GroupBytes(v.right)
  }

  /** Their text, up to the last separator. */
  function Before(v: Sides): string {
    if v.gap then Listed(v.left) + ("::" + Ended(v.right)) else Ended(v.left)
  }

  lemma PushGroup(v: Sides, g: string)
    requires SidesOk(v) && IsGroup(g)
    ensures SidesOk(Push(v, g)) && Out(Push(v, g)) == Out(v) + WordBytes(HexOf(g))
    ensures Before(Push(v, g)) == Before(v) + (g + ":")
  {
    Snoc(v.left, g);
    Snoc(v.right, g);
    if v.gap {
      Associates(GroupBytes(v.left), GroupBytes(v.right), WordBytes(HexOf(g)));
      Inner(Listed(v.left), "::", Ended(v.right), g + ":");
    } else {
      assert Out(v) == GroupBytes(v.left) && Out(Push(v, g)) == GroupBytes(v.left + [g]);
    }
  }

  lemma Inner(a: string, b: string, c: string, d: string)
    ensures a + (b + (c + d)) == (a + (b + c)) + d
  {
    Associates(a, b + c, d);
    Associates(b, c, d);
  }

  /** The text so far without a last group. */
  lemma Whole(v: Sides)
    requires SidesOk(v) && (if v.gap then v.right else v.left) == []
    ensures Before(v) == if v.gap then Listed(v.left) + ("::" + Listed(v.right)) else Listed(v.left)
  {
  }

  ghost predicate At(s: Parsing, v: Sides, cur: string, text: string) {
    && ParsingOk(s) && SidesOk(v) && HexDigits(cur) && |cur| == s.seen <= 4 && s.val == HexOf(cur)
    && s.out == Out(v) && s.colon == (if v.gap then 2 * |v.left| else -1) && s.tok == cur + text
    && (cur == [] && (if v.gap then v.right else v.left) != [] ==> text != [])
    && (cur == [] && !v.gap && v.left == [] ==> text == [] || text[0] != ':')
  }

  /** The form that the sides, a last group and an IPv4 address make. */
  function Made(v: Sides, cur: string, four: Option<seq<byte>>): Form {
    var u := if cur == [] then v else Push(v, cur);
    Form(u.left, u.gap, u.right, four)
  }

  lemma MadeSpelled(v: Sides, cur: string)
    requires SidesOk(v) && FormOk(Made(v, cur, None))
    requires cur == [] ==> (if v.gap then v.right else v.left) == []
    ensures Spelled(Made(v, cur, None)) == Before(v) + cur
  {
    if cur == [] {
      Whole(v);
      assert Before(v) + cur == Before(v);
    } else {
      Snoc(v.left, cur);
      Snoc(v.right, cur);
      Inner(Listed(v.left), "::", Ended(v.right), cur);
    }
  }

  lemma MadeFour(v: Sides, b: seq<byte>)
    requires SidesOk(v) && |b| == 4 && FormOk(Made(v, [], Some(b)))
    ensures Spelled(Made(v, [], Some(b))) == Before(v) + Text4(b)
  {
    Snoc(v.left, Text4(b));
    Snoc(v.right, Text4(b));
    Inner(Listed(v.left), "::", Ended(v.right), Text4(b));
  }

  lemma Halves(a: seq<byte>, b: seq<byte>, c: seq<byte>, out: seq<byte>)
    requires out == a + b + c
    ensures out[..|a|] == a && out[|a|..] == b + c && out == a + (b + c) && a + Zeros(0) == a
  {
  }

  /** Behind the loop: zeros in the place of the two colons. */
  lemma Filled(v: Sides, four: Option<seq<byte>>, s: Parsing)
    requires ParsingOk(s) && SidesOk(v) && FourOk(four) && s.colon == (if v.gap then 2 * |v.left| else -1) && s.seen == 0
    requires s.out == Out(v) + FourBytes(four)
    ensures FormOk(Made(v, [], four)) <==> Finish6(s).Ok?
    ensures Finish6(s).Ok? ==> Finish6(s).value == Address(Made(v, [], four))
  {
    Halves(GroupBytes(v.left), GroupBytes(v.right), FourBytes(four), s.out);
  }

  /** `f` spells what stands before the last separator and then `tok`. */
  ghost predicate Spells(f: Form, v: Sides, tok: string, a: seq<byte>) {
    FormOk(f) && Spelled(f) == Before(v) + tok && Address(f) == a
  }

  lemma AtEnd(s: Parsing, v: Sides, cur: string)
    requires At(s, v, cur, []) && Finish6(s).Ok?
    ensures Spells(Made(v, cur, None), v, cur, Finish6(s).value)
  {
    if cur == [] {
      NothingMore(Out(v));
      Filled(v, None, s);
    } else {
      AtLast(s, v, cur);
    }
    MadeSpelled(v, cur);
  }

  lemma NothingMore(q: seq<byte>)
    ensures q + FourBytes(None) == q
  {
  }

  lemma AtLast(s: Parsing, v: Sides, cur: string)
    requires At(s, v, cur, []) && cur != [] && Finish6(s).Ok?
    ensures FormOk(Made(v, cur, None)) && Address(Made(v, cur, None)) == Finish6(s).value
  {
    var u, t := Push(v, cur), s.(out := s.out + WordBytes(s.val), seen := 0);
    PushGroup(v, cur);
    NothingMore(Out(u));
    Filled(u, None, t);
  }

  lemma AtDot(s: Parsing, v: Sides, cur: string, text: string)
    requires At(s, v, cur, text) && Dot(s).Ok?
    ensures Read4(s.tok, START).Ok? && Spells(Made(v, [], Some(Read4(s.tok, START).value)), v, s.tok, Dot(s).value)
  {
    var b := Read4(s.tok, START).value;
    ReadIsText(s.tok, START);
    Inet4.AcceptsExactly(s.tok, b);
    Filled(v, Some(b), s.(out := s.out + b, seen := 0));
    MadeFour(v, b);
  }

  lemma AtDigit(s: Parsing, v: Sides, cur: string, text: string)
    requires At(s, v, cur, text) && text != [] && IsHex(text[0]) && s.seen < 4
    ensures At(s.(val := s.val * 16 + HexValue(text[0]), seen := s.seen + 1), v, cur + [text[0]], text[1..])
    ensures (cur + [text[0]]) + text[1..] == cur + text
  {
    assert text == [text[0]] + text[1..];
    Associates(cur, [text[0]], text[1..]);
    assert (cur + [text[0]])[..|cur|] == cur;
  }

  lemma AtColon(s: Parsing, v: Sides, cur: string, text: string)
    requires At(s, v, cur, text) && text != [] && text[0] == ':' && s.seen > 0 && text[1..] != [] && |s.out| + 2 <= 16
    ensures At(Parsing(s.out + WordBytes(s.val), s.colon, 0, 0, text[1..]), Push(v, cur), [], text[1..])
    ensures Before(Push(v, cur)) + text[1..] == Before(v) + (cur + text)
  {
    PushGroup(v, cur);
    assert text == ":" + text[1..];
    Associates(cur, ":", text[1..]);
    Associates(Before(v), cur + ":", text[1..]);
  }

  lemma AtGap(s: Parsing, v: Sides, text: string)
    requires At(s, v, [], text) && text != [] && text[0] == ':' && !v.gap && s.colon == -1
    ensures At(s.(colon := |s.out|, tok := text[1..]), Sides(v.left, true, []), [], text[1..])
    ensures Before(Sides(v.left, true, [])) + text[1..] == Before(v) + text
  {
    EndedListed(v.left);
    assert text == ":" + text[1..];
    Associates(Ended(v.left), ":", text[1..]);
    Associates(Listed(v.left), ":", ":");
    assert "::" + [] == ":" + ":";
  }

  lemma {:induction false} Sound(text: string, s: Parsing, v: Sides, cur: string) returns (f: Form)
    requires At(s, v, cur, text) && Read6(text, s).Ok?
    ensures Spells(f, v, cur + text, Read6(text, s).value)
    decreases |text|
  {
    if text == [] {
      AtEnd(s, v, cur);
      f := Made(v, cur, None);
      assert cur + text == cur;
    } else if IsHex(text[0]) {
      AtDigit(s, v, cur, text);
      f := Sound(text[1..], s.(val := s.val * 16 + HexValue(text[0]), seen := s.seen + 1), v, cur + [text[0]]);
    } else if text[0] == '.' {
      AtDot(s, v, cur, text);
      f := Made(v, [], Some(Read4(s.tok, START).value));
    } else if s.seen == 0 {
      AtGap(s, v, text);
      f := Sound(text[1..], s.(colon := |s.out|, tok := text[1..]), Sides(v.left, true, []), []);
      assert [] + text[1..] == text[1..] && cur + text == text;
    } else {
      AtColon(s, v, cur, text);
      f := Sound(text[1..], Parsing(s.out + WordBytes(s.val), s.colon, 0, 0, text[1..]), Push(v, cur), []);
      assert [] + text[1..] == text[1..];
    }
  }

  lemma Accepted(src: string) returns (f: Form)
    requires Parse6(src).Ok?
    ensures FormOk(f) && Spelled(f) == src && Address(f) == Parse6(src).value
  {
    if src != [] && src[0] == ':' {
      assert src == "::" + src[2..];
      TwoColonsFirst(src[2..]);
      f := Sound(src[2..], Parsing([], 0, 0, 0, src[2..]), Sides([], true, []), []);
      assert Before(Sides([], true, [])) == "::" && [] + src[2..] == src[2..];
    } else {
      f := Sound(src, Parsing([], -1, 0, 0, src), Sides([], false, []), []);
      assert [] + src == src;
    }
  }

  // ---------- every form is accepted ----------

  lemma {:induction false} ReadGroup(g: string, rest: string, s: Parsing)
    requires ParsingOk(s) && s.seen == 0 && s.val == 0 && HexDigits(g) && |g| <= 4
    ensures Read6(g + rest, s) == Read6(rest, s.(val := HexOf(g), seen := |g|))
  {
    if g == [] {
      assert g + rest == rest;
    } else {
      var n := |g| - 1;
      ReadGroup(g[..n], [g[n]] + rest, s);
      assert g == g[..n] + [g[n]];
      Associates(g[..n], [g[n]], rest);
      ReadDigit(g[n], rest, s.(val := HexOf(g[..n]), seen := n));
    }
  }

  lemma ReadEndedOne(g: string, rest: string, s: Parsing)
    requires ParsingOk(s) && s.seen == 0 && s.val == 0 && IsGroup(g) && |s.out| + 2 <= 16 && rest != []
    ensures Read6((g + ":") + rest, s) == Read6(rest, Parsing(s.out + WordBytes(HexOf(g)), s.colon, 0, 0, rest))
  {
    Associates(g, ":", rest);
    ReadGroup(g, ":" + rest, s);
    assert (":" + rest)[1..] == rest;
  }

  /** Groups with a colon behind each. */
  lemma {:induction false} ReadEnded(q: seq<string>, rest: string, s: Parsing)
    requires ParsingOk(s) && s.seen == 0 && s.val == 0 && Groups(q) && |s.out| + 2 * |q| <= 16 && rest != []
    requires s.tok == Ended(q) + rest
    ensures Read6(Ended(q) + rest, s) == Read6(rest, Parsing(s.out + GroupBytes(q), s.colon, 0, 0, rest))
  {
    if q == [] {
      assert Ended(q) + rest == rest && s.out + [] == s.out;
    } else {
      var n := |q| - 1;
      var next := (q[n] + ":") + rest;
      Associates(Ended(q[..n]), q[n] + ":", rest);
      ReadEnded(q[..n], next, s);
      ReadEndedOne(q[n], rest, Parsing(s.out + GroupBytes(q[..n]), s.colon, 0, 0, next));
      Associates(s.out, GroupBytes(q[..n]), WordBytes(HexOf(q[n])));
    }
  }

  /** The groups of one side and what may stand behind them, to the end. */
  lemma ReadListed(q: seq<string>, four: Option<seq<byte>>, s: Parsing)
    requires ParsingOk(s) && s.seen == 0 && s.val == 0 && Groups(q) && FourOk(four)
    requires |s.out| + 2 * |q| + |FourBytes(four)| <= 16 && s.tok == Listed(Tokens(q, four))
    ensures Read6(Listed(Tokens(q, four)), s) == Finish6(s.(out := s.out + (GroupBytes(q) + FourBytes(four)), seen := 0))
  {
    if four.Some? {
      ReadListedFour(q, four.value, s);
    } else if q == [] {
      assert s.out + ([] + []) == s.out;
    } else {
      ReadListedGroups(q[..|q| - 1], q[|q| - 1], s);
      assert GroupBytes(q) + [] == GroupBytes(q);
    }
  }

  lemma ReadListedFour(q: seq<string>, b: seq<byte>, s: Parsing)
    requires ParsingOk(s) && s.seen == 0 && s.val == 0 && Groups(q) && |b| == 4
    requires |s.out| + 2 * |q| + 4 <= 16 && s.tok == Listed(q + [Text4(b)])
    ensures Read6(Listed(q + [Text4(b)]), s) == Finish6(s.(out := s.out + (GroupBytes(q) + b), seen := 0))
  {
    Snoc(q, Text4(b));
    ReadEnded(q, Text4(b), s);
    var t := Parsing(s.out + GroupBytes(q), s.colon, 0, 0, Text4(b));
    Read4In6(b, t);
    Associates(s.out, GroupBytes(q), b);
    FinishLooksAt(t.(out := t.out + b), s.(out := s.out + (GroupBytes(q) + b), seen := 0));
  }

  lemma ReadListedGroups(q: seq<string>, g: string, s: Parsing)
    requires ParsingOk(s) && s.seen == 0 && s.val == 0 && Groups(q) && IsGroup(g)
    requires |s.out| + 2 * |q| + 2 <= 16 && s.tok == Ended(q) + g
    ensures Read6(Ended(q) + g, s)
         == Finish6(s.(out := s.out + (GroupBytes(q) + WordBytes(HexOf(g))), seen := 0))
  {
    ReadEnded(q, g, s);
    var t := Parsing(s.out + GroupBytes(q), s.colon, 0, 0, g);
    ReadLast(g, t);
    Associates(s.out, GroupBytes(q), WordBytes(HexOf(g)));
    FinishLooksAt(t.(out := t.out + WordBytes(HexOf(g)), seen := 0),
                  s.(out := s.out + (GroupBytes(q) + WordBytes(HexOf(g))), seen := 0));
  }

  /** With nothing pending, only the bytes and the place of the two colons matter. */
  lemma FinishLooksAt(s: Parsing, t: Parsing)
    requires ParsingOk(s) && s.out == t.out && s.colon == t.colon && s.seen == t.seen == 0
    ensures Finish6(s) == Finish6(t)
  {
  }

  lemma ReadLast(g: string, s: Parsing)
    requires ParsingOk(s) && s.seen == 0 && s.val == 0 && IsGroup(g) && |s.out| + 2 <= 16
    ensures Read6(g, s) == Finish6(s.(out := s.out + WordBytes(HexOf(g)), seen := 0))
  {
    assert g + [] == g;
    ReadGroup(g, [], s);
    FinishAdds(s.(val := HexOf(g), seen := |g|));
  }

  lemma FinishAdds(s: Parsing)
    requires ParsingOk(s) && s.seen > 0 && |s.out| + 2 <= 16
    ensures Read6([], s) == Finish6(s) == Finish6(s.(out := s.out + WordBytes(s.val), seen := 0))
  {
  }

  /** The way to the end of the two colons. */
  lemma ReadToGap(left: seq<string>, r: string)
    requires Groups(left) && 2 * |left| <= 16
    ensures Parse6(Listed(left) + ("::" + r)) == Read6(r, Parsing(GroupBytes(left), 2 * |left|, 0, 0, r))
  {
    if left == [] {
      assert Listed(left) + ("::" + r) == "::" + r;
      TwoColonsFirst(r);
    } else {
      TwoColons(left, r);
      FirstDigit(left, Listed(left) + ("::" + r));
      ReadLeft(left, r);
    }
  }

  lemma TwoColons(left: seq<string>, r: string)
    requires left != []
    ensures Listed(left) + ("::" + r) == Ended(left) + (":" + r)
  {
    EndedListed(left);
    Associates(Listed(left), ":", ":" + r);
    assert "::" + r == ":" + (":" + r);
  }

  lemma ReadLeft(left: seq<string>, r: string)
    requires Groups(left) && 2 * |left| <= 16
    ensures var src := Ended(left) + (":" + r);
            Read6(src, Parsing([], -1, 0, 0, src)) == Read6(r, Parsing(GroupBytes(left), 2 * |left|, 0, 0, r))
  {
    ReadEnded(left, ":" + r, Parsing([], -1, 0, 0, Ended(left) + (":" + r)));
    assert [] + GroupBytes(left) == GroupBytes(left);
    assert (":" + r)[1..] == r;
  }

  lemma {:induction false} FirstDigit(q: seq<string>, src: string)
    requires Groups(q) && q != [] && Listed(q) <= src
    ensures src != [] && src[0] != ':'
  {
    if |q| == 1 {
      assert IsHex(q[0][0]);
      assert Listed(q) == q[0];
    } else {
      var n := |q| - 1;
      EndedListed(q[..n]);
      Prefixes(Listed(q[..n]), ":", q[n], src);
      FirstDigit(q[..n], src);
    }
  }

  lemma Prefixes(a: string, b: string, c: string, src: string)
    requires (a + b) + c <= src
    ensures a <= src
  {
    Associates(a, b, c);
    assert src == a + (b + c) + src[|a + b + c|..];
  }

  lemma FormReads(f: Form)
    requires FormOk(f)
    ensures Parse6(Spelled(f)) == Ok(Address(f))
  {
    if f.gap {
      var r := Listed(Tokens(f.right, f.four));
      var s := Parsing(GroupBytes(f.left), 2 * |f.left|, 0, 0, r);
      ReadToGap(f.left, r);
      ReadListed(f.right, f.four, s);
      FormFinishes(f, s.(out := s.out + (GroupBytes(f.right) + FourBytes(f.four))));
    } else {
      FormReadsPlain(f);
    }
  }

  lemma FormReadsPlain(f: Form)
    requires FormOk(f) && !f.gap
    ensures Parse6(Spelled(f)) == Ok(Address(f))
  {
    var src := Spelled(f);
    var s := Parsing([], -1, 0, 0, src);
    NoColonFirst(f.left, f.four);
    ReadListed(f.left, f.four, s);
    var bytes := GroupBytes(f.left) + FourBytes(f.four);
    assert [] + bytes == bytes && GroupBytes(f.right) == [];
    FormFinishes(f, s.(out := bytes));
  }

  lemma FormFinishes(f: Form, s: Parsing)
    requires FormOk(f) && ParsingOk(s) && s.seen == 0 && s.colon == if f.gap then 2 * |f.left| else -1
    requires s.out == GroupBytes(f.left) + (GroupBytes(f.right) + FourBytes(f.four))
                      || (!f.gap && s.out == GroupBytes(f.left) + FourBytes(f.four))
    ensures Finish6(s) == Ok(Address(f))
  {
    var v := Sides(f.left, f.gap, f.right);
    Associates(GroupBytes(f.left), GroupBytes(f.right), FourBytes(f.four));
    assert !f.gap ==> GroupBytes(f.right) == [] && [] + FourBytes(f.four) == FourBytes(f.four);
    assert Made(v, [], f.four) == f;
    Filled(v, f.four, s);
  }

  lemma NoColonFirst(q: seq<string>, four: Option<seq<byte>>)
    requires Groups(q) && FourOk(four) && (q != [] || four.Some?)
    ensures Listed(Tokens(q, four)) != [] && Listed(Tokens(q, four))[0] != ':'
  {
    if four.None? {
      FirstDigit(q, Listed(q));
    } else if q == [] {
      Snoc(q, Text4(four.value));
      DecFirst(four.value[0]);
    } else {
      Snoc(q, Text4(four.value));
      EndedListed(q);
      Prefixes(Listed(q), ":", Text4(four.value), Listed(Tokens(q, four)));
      FirstDigit(q, Listed(Tokens(q, four)));
    }
  }

  lemma {:induction false} DecFirst(n: nat)
    ensures Dec(n)[0] != ':'
  {
    if n >= 10 {
      DecFirst(n / 10);
    }
  }

  /** A text is read as an address exactly when it is a form of that address; every other text is refused. */
  lemma AcceptsExactly(src: string, a: seq<byte>)
    ensures Parse6(src) == Ok(a) <==> exists f :: FormOk(f) && Spelled(f) == src && Address(f) == a
  {
    if Parse6(src) == Ok(a) {
      var f := Accepted(src);
      assert FormOk(f) && Spelled(f) == src && Address(f) == a;
    }
    forall f | FormOk(f) && Spelled(f) == src && Address(f) == a ensures Parse6(src) == Ok(a) {
      FormReads(f);
    }
  }
}
