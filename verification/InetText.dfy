/** The two conversion calls: the IPv6 parser's buffer, and the choice by address family. */
module InetText {
  import opened Basics
  import opened Inet4
  import opened Inet6
  import opened Inet6Parse

  /** The shift by hand that moves what stands behind the two colons to the end of the buffer. */
  method Shift(tmp: array<byte>, tp: nat, colonp: nat)
    requires tmp.Length == 16 && colonp <= tp < 16 && forall k :: tp <= k < 16 ==> tmp[k] == 0
    modifies tmp
    ensures tmp[..] == old(tmp[..colonp]) + Zeros(16 - tp) + old(tmp[colonp..tp])
  {
    ghost var was := tmp[..];
    var endp, n, i := 16, tp - colonp, 1;
    while i <= n
      invariant 1 <= i <= n + 1
      invariant forall k :: 0 <= k <= tp - i ==> tmp[k] == was[k]
      invariant forall k :: tp - i < k <= 16 - i ==> tmp[k] == 0
      invariant forall k :: 16 - i < k < 16 ==> tmp[k] == was[k - (16 - tp)]
    {
      tmp[endp - i] := tmp[colonp + n - i];
      tmp[colonp + n - i] := 0;
      i := i + 1;
    }
    Shifted(was, tmp[..], tp, colonp);
  }

  lemma Shifted(was: seq<byte>, now: seq<byte>, tp: nat, colonp: nat)
    requires |was| == |now| == 16 && colonp <= tp < 16
    requires forall k :: 0 <= k < colonp ==> now[k] == was[k]
    requires forall k :: colonp <= k < colonp + (16 - tp) ==> now[k] == 0
    requires forall k :: colonp + (16 - tp) <= k < 16 ==> now[k] == was[k - (16 - tp)]
    ensures now == was[..colonp] + Zeros(16 - tp) + was[colonp..tp]
  {
  }

  method PutWord(tmp: array<byte>, tp: nat, val: nat) returns (tp': nat)
    requires tmp.Length == 16 && tp + 2 <= 16
    modifies tmp
    ensures tp' == tp + 2 && tmp[..tp'] == old(tmp[..tp]) + WordBytes(val) && tmp[tp'..] == old(tmp[tp'..])
  {
    tmp[tp], tmp[tp + 1] := val / 256 % 256, val % 256;
    tp' := tp + 2;
  }

  ghost predicate ZeroFrom(tmp: array<byte>, tp: nat)
    reads tmp
  {
    forall k :: tp <= k < tmp.Length ==> tmp[k] == 0
  }

  /** inet_pton6 behind its loop. */
  method Finish(tmp: array<byte>, tp0: nat, colonp: int, val: nat, seen: nat, ghost tok: string)
    returns (r: Result<seq<byte>>)
    requires tmp.Length == 16 && tp0 <= 16 && -1 <= colonp <= tp0 && ZeroFrom(tmp, tp0)
    modifies tmp
    ensures r == Finish6(Parsing(old(tmp[..tp0]), colonp, val, seen, tok))
  {
    var tp := tp0;
    if seen > 0 {
      if tp + 2 > 16 {
        return Err(EINVAL);
      }
      ghost var after := tmp[tp + 2..];
      assert forall k :: 0 <= k < |after| ==> after[k] == tmp[tp + 2 + k] == 0;
      tp := PutWord(tmp, tp, val);
      assert forall k :: tp <= k < 16 ==> tmp[k] == tmp[tp..][k - tp];
    }
    if colonp != -1 {
      if tp == 16 {
        return Err(EINVAL);
      }
      ghost var out := tmp[..tp];
      assert tmp[..colonp] == out[..colonp] && tmp[colonp..tp] == out[colonp..];
      Shift(tmp, tp, colonp);
      tp := 16;
    }
    if tp != 16 {
      return Err(EINVAL);
    }
    assert tmp[..16] == tmp[..];
    return Ok(tmp[..]);
  }

  /** inet_pton6 */
  method Pton6(src: string) returns (r: Result<seq<byte>>)
    ensures r == Parse6(src)
  {
    var i := 0;
    if src != [] && src[0] == ':' {
      i := 1;
      if |src| < 2 || src[1] != ':' {
        return Err(EINVAL);
      }
    }
    assert src[0..] == src;
    r := ParseWords(src, i);
  }

  /** The loop of inet_pton6. */
  method ParseWords(src: string, i0: nat) returns (r: Result<seq<byte>>)
    requires i0 <= |src|
    ensures r == Read6(src[i0..], Parsing([], -1, 0, 0, src[i0..]))
  {
    var i, tmp := i0, new byte[16](_ => 0);
    var tp, colonp, curtok, seen, val := 0, -1, i, 0, 0;
    assert tmp[..0] == [];
    ghost var goal := Read6(src[i0..], Parsing([], -1, 0, 0, src[i0..]));
    while i < |src|
      invariant 0 <= curtok <= i <= |src| && 0 <= tp <= 16 && -1 <= colonp <= tp && seen >= 0 && val >= 0
      invariant ZeroFrom(tmp, tp) && tmp.Length == 16 && fresh(tmp)
      invariant goal == Read6(src[i..], Parsing(tmp[..tp], colonp, val, seen, src[curtok..]))
    {
      var ch := src[i];
      assert src[i..][1..] == src[i + 1..];
      i := i + 1;
      if IsHex(ch) {
        val := val * 16 + HexValue(ch);
        seen := seen + 1;
        if seen > 4 {
          return Err(EINVAL);
        }
        continue;
      }
      if ch == ':' {
        curtok := i;
        if seen == 0 {
          if colonp != -1 {
            return Err(EINVAL);
          }
          colonp := tp;
          continue;
        } else if i == |src| {
          return Err(EINVAL);
        }
        if tp + 2 > 16 {
          return Err(EINVAL);
        }
        tp := StoreWord(tmp, tp, val);
        seen, val := 0, 0;
        continue;
      }
      if ch == '.' && tp + 4 <= 16 {
        r := EmbeddedFour(tmp, tp, colonp, val, src[curtok..]);
        return;
      }
      return Err(EINVAL);
    }
    r := Finish(tmp, tp, colonp, val, seen, src[curtok..]);
  }

  method StoreWord(tmp: array<byte>, tp: nat, val: nat) returns (tp': nat)
    requires tmp.Length == 16 && tp + 2 <= 16 && ZeroFrom(tmp, tp)
    modifies tmp
    ensures tp' == tp + 2 && tmp[..tp'] == old(tmp[..tp]) + WordBytes(val) && ZeroFrom(tmp, tp')
  {
    ghost var after := tmp[tp + 2..];
    assert forall k :: 0 <= k < |after| ==> after[k] == tmp[tp + 2 + k] == 0;
    tp' := PutWord(tmp, tp, val);
    assert forall k :: tp' <= k < 16 ==> tmp[k] == tmp[tp'..][k - tp'];
  }

  /** The dot of an IPv4 address at the end: if it is one, the loop is left, and there is nothing pending. */
  method EmbeddedFour(tmp: array<byte>, tp: nat, colonp: int, val: nat, curtok: string) returns (r: Result<seq<byte>>)
    requires tmp.Length == 16 && tp + 4 <= 16 && -1 <= colonp <= tp && ZeroFrom(tmp, tp)
    modifies tmp
    ensures forall seen: nat :: r == Dot(Parsing(old(tmp[..tp]), colonp, val, seen, curtok))
  {
    var four := Pton4(curtok);
    if four.Err? {
      return Err(EINVAL);
    }
    ReadIsText(curtok, START);
    forall k | 0 <= k < 4 {
      tmp[tp + k] := four.value[k];
    }
    assert tmp[..tp + 4] == old(tmp[..tp]) + four.value;
    r := Finish(tmp, tp + 4, colonp, val, 0, curtok);
  }

  // ---------- by address family ----------

  datatype Family = INET | INET6 | Other

  method InetNtop(af: Family, src: seq<byte>, size: nat) returns (r: Result<string>, ghost run: Run)
    requires (af.INET? ==> |src| == 4) && (af.INET6? ==> |src| == 16)
    ensures af.INET? ==> r == if |Text4(src)| + 1 <= size then Ok(Text4(src)) else Err(ENOSPC)
    ensures af.INET6? ==> IsBest(Words(src), run) && RunOk(run)
                          && r == if |Text6(src, run)| + 1 <= size then Ok(Text6(src, run)) else Err(ENOSPC)
    ensures af.INET6? && r.Ok? ==> TailRight(src, r.value)
    ensures af.Other? ==> r == Err(EAFNOSUPPORT)
  {
    run := Run(-1, 0);
    match af
    case INET => r := Ntop4(src, size);
    case INET6 => r, run := Ntop6(src, size);
    case Other => r := Err(EAFNOSUPPORT);
  }

  /** What stands before the first percent sign. */
  function BeforeZone(s: string): (t: string)
    ensures t <= s
  {
    if s == [] || s[0] == '%' then [] else [s[0]] + BeforeZone(s[1..])
  }

  /** strchr(src, '%') */
  method FindZone(s: string) returns (p: int)
    ensures if p == -1 then BeforeZone(s) == s else 0 <= p < |s| && s[p] == '%' && BeforeZone(s) == s[..p]
  {
    p := 0;
    while p < |s|
      invariant 0 <= p <= |s| && forall k :: 0 <= k < p ==> s[k] != '%'
    {
      if s[p] == '%' {
        FirstZone(s, p);
        return;
      }
      p := p + 1;
    }
    FirstZone(s, p);
    p := -1;
  }

  lemma {:induction false} FirstZone(s: string, p: nat)
    requires p <= |s| && (p < |s| ==> s[p] == '%') && forall k :: 0 <= k < p ==> s[k] != '%'
    ensures BeforeZone(s) == s[..p]
  {
    if p > 0 {
      FirstZone(s[1..], p - 1);
      assert s[..p] == [s[0]] + s[1..][..p - 1];
    }
  }

  /** An address of the family, the zone cut off; more than 45 characters before a zone are refused. */
  function ReadAs(af: Family, src: string): Result<seq<byte>> {
    match af
    case INET => Read4(src, START)
    case INET6 =>
      var t := BeforeZone(src);
      if |t| < |src| && |t| > INET6_ADDRSTRLEN - 1 then Err(EINVAL) else Parse6(t)
    case Other => Err(EAFNOSUPPORT)
  }

  /** uv_inet_pton. The source may be null, and so may the destination, which is there if `dst` holds. */
  method InetPton(af: Family, source: Option<string>, dst: bool) returns (r: Result<seq<byte>>)
    ensures source.None? || !dst ==> r == Err(EINVAL)
    ensures source.Some? && dst ==> r == ReadAs(af, source.value)
  {
    if source.None? || !dst {
      return Err(EINVAL);
    }
    var src := source.value;
    match af
    case INET => r := Pton4(src);
    case INET6 =>
      var p := FindZone(src);
      if p != -1 {
        if p > INET6_ADDRSTRLEN - 1 {
          return Err(EINVAL);
        }
        r := Pton6(src[..p]);
      } else {
        r := Pton6(src);
      }
    case Other => r := Err(EAFNOSUPPORT);
  }

  // ---------- the printed text holds no percent sign ----------

  lemma {:induction false} ZoneIn(a: string, b: string)
    requires '%' !in a
    ensures BeforeZone(a + b) == a + BeforeZone(b)
  {
    if a == [] {
      assert a + b == b;
    } else {
      var t := a + b;
      assert t[0] == a[0] && t[1..] == a[1..] + b;
      ZoneIn(a[1..], b);
      Associates([a[0]], a[1..], BeforeZone(b));
    }
  }

  lemma Text6NoZone(a: seq<byte>, r: Run)
    requires |a| == 16 && IsBest(Words(a), r)
    ensures RunOk(r) && '%' !in Text6(a, r)
  {
    TailOf(a, r);
    Text4Plain(a[12..]);
    NoZoneBefore("::ffff:", Text4(a[12..]));
    NoZoneBefore("::", Text4(a[12..]));
  }

  lemma NoZoneBefore(s: string, t: string)
    requires AllIn(s, ":") && AllIn(t, ".")
    ensures '%' !in s + t
  {
  }

  /** What follows a percent sign is not looked at, and more than 45 characters before it are refused. */
  lemma ZoneIsCut(t: string, zone: string)
    requires '%' !in t
    ensures ReadAs(INET6, t) == Parse6(t)
    ensures ReadAs(INET6, t + ("%" + zone)) == if |t| > 45 then Err(EINVAL) else Parse6(t)
  {
    ZoneIn(t, []);
    ZoneIn(t, "%" + zone);
    assert t + [] == t;
  }

  /** What is printed for an IPv6 address is read as that address: the call reads all of it. */
  lemma PrintedReadsBack(a: seq<byte>, r: Run)
    requires |a| == 16 && IsBest(Words(a), r)
    ensures RunOk(r) && ReadAs(INET6, Text6(a, r)) == Ok(a)
  {
    RoundTrip(a, r);
    Text6NoZone(a, r);
    ZoneIn(Text6(a, r), []);
    assert Text6(a, r) + [] == Text6(a, r);
  }
}
