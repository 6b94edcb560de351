/** The packet header and its 34-byte form: byte order, the two conversions, and the encoder of a whole packet. */
module NetPacket {
  import opened Basics

  type uint32 = x: int | 0 <= x < 0x1_0000_0000
  type int32 = x: int | -0x8000_0000 <= x < 0x8000_0000

  const HEADLEN := 34

  function Unsigned(x: int32): uint32 {
    if x < 0 then x + 0x1_0000_0000 else x
  }

  function Signed(x: uint32): int32 {
    if x < 0x8000_0000 then x else x - 0x1_0000_0000
  }

  /** The number whose four bytes are those of `x` in the opposite order. */
  function Swap32(x: uint32): uint32 {
    var b := HighFirst(x);
    FromHighFirst([b[3], b[2], b[1], b[0]])
  }

  /** htonl and ntohl, on a host whose byte order is little-endian or not. */
  function HostNet(little: bool, x: uint32): uint32 {
    if little then Swap32(x) else x
  }

  function HighFirst(x: uint32): (b: seq<byte>)
    ensures |b| == 4
  {
    [x / 256 / 256 / 256, x / 256 / 256 % 256, x / 256 % 256, x % 256]
  }

  function FromHighFirst(b: seq<byte>): uint32
    requires |b| == 4
  {
    (((b[0] as int) * 256 + b[1] as int) * 256 + b[2] as int) * 256 + b[3] as int
  }

  /** Int32ToChar and CharToInt32. */
  function Put32(little: bool, x: uint32): (b: seq<byte>)
    ensures |b| == 4
  {
    HighFirst(HostNet(little, x))
  }

  function Get32(little: bool, b: seq<byte>): uint32
    requires |b| == 4
  {
    HostNet(little, FromHighFirst(b))
  }

  lemma HighFirstInverse(x: uint32)
    ensures FromHighFirst(HighFirst(x)) == x
  {
  }

  lemma HighFirstUnique(b: seq<byte>)
    requires |b| == 4
    ensures HighFirst(FromHighFirst(b)) == b
  {
    var x: int := FromHighFirst(b);
    var x1: int := (b[0] as int * 256 + b[1] as int) * 256 + b[2] as int;
    assert x / 256 == x1 && x % 256 == b[3];
    assert x1 / 256 == b[0] as int * 256 + b[1] as int && x1 % 256 == b[2];
  }

  lemma SwapInverse(x: uint32)
    ensures Swap32(Swap32(x)) == x
  {
    var b := HighFirst(x);
    HighFirstInverse(x);
    HighFirstUnique([b[3], b[2], b[1], b[0]]);
  }

  /** A number survives the trip exactly when both ends have the same byte order, or its four bytes read
      the same both ways. The comment of the source promises network order on the wire, but the bytes
      written are those of the converted number, that is, of the host's own order. */
  lemma RoundTrip32(from: bool, to: bool, x: uint32)
    ensures Get32(to, Put32(from, x)) == x <==> from == to || Swap32(x) == x
  {
    HighFirstInverse(HostNet(from, x));
    SwapInverse(x);
  }

  lemma SignedInverse(x: int32)
    ensures Signed(Unsigned(x)) == x
  {
  }

  datatype Header = Header(
    version: int32, header: byte, tail: byte, check: seq<byte>, kind: int32, datalen: int32, reserve: int32)
  {
    predicate Valid() {
      |check| == 16
    }
  }

  /** NetPacketToChar: the layout of the header in bytes. */
  function HeaderBytes(little: bool, p: Header): (b: seq<byte>)
    requires p.Valid()
    ensures |b| == HEADLEN
  {
    Put32(little, Unsigned(p.version)) + [p.header, p.tail] + p.check +
    Put32(little, Unsigned(p.kind)) + Put32(little, Unsigned(p.datalen)) + Put32(little, Unsigned(p.reserve))
  }

  /** CharToNetPacket. */
  function BytesHeader(little: bool, b: seq<byte>): (p: Header)
    requires |b| == HEADLEN
    ensures p.Valid()
  {
    Header(Signed(Get32(little, b[..4])), b[4], b[5], b[6..22],
           Signed(Get32(little, b[22..26])), Signed(Get32(little, b[26..30])), Signed(Get32(little, b[30..34])))
  }

  lemma Fields(v: seq<byte>, head: byte, tail: byte, check: seq<byte>, k: seq<byte>, d: seq<byte>, r: seq<byte>)
    requires |v| == |k| == |d| == |r| == 4 && |check| == 16
    ensures var b := v + [head, tail] + check + k + d + r;
            && |b| == HEADLEN && b[..4] == v && b[4] == head && b[5] == tail && b[6..22] == check && b[22..26] == k
            && b[26..30] == d && b[30..34] == r
  {
  }

  /** A header written and read on hosts of one byte order comes back unchanged. */
  lemma HeaderRoundTrip(little: bool, p: Header)
    requires p.Valid()
    ensures BytesHeader(little, HeaderBytes(little, p)) == p
  {
    Fields(Put32(little, Unsigned(p.version)), p.header, p.tail, p.check, Put32(little, Unsigned(p.kind)),
           Put32(little, Unsigned(p.datalen)), Put32(little, Unsigned(p.reserve)));
    FieldRoundTrip(little, p.version);
    FieldRoundTrip(little, p.kind);
    FieldRoundTrip(little, p.datalen);
    FieldRoundTrip(little, p.reserve);
  }

  /** Four bytes hold a signed number in the byte order of the host. */
  predicate Spells(little: bool, b: seq<byte>, x: int32)
    requires |b| == 4
  {
    var b0: nat, b1: nat, b2: nat, b3: nat := b[0], b[1], b[2], b[3];
    var u := if little then b0 + 256 * (b1 + 256 * (b2 + 256 * b3)) else b3 + 256 * (b2 + 256 * (b1 + 256 * b0));
    x == if u < 0x8000_0000 then u else u - 0x1_0000_0000
  }

  /** Where the fields are, and how they are written. */
  lemma HeaderLayout(little: bool, p: Header)
    requires p.Valid()
    ensures var b := HeaderBytes(little, p);
            && Spells(little, b[..4], p.version) && b[4] == p.header && b[5] == p.tail && b[6..22] == p.check
            && Spells(little, b[22..26], p.kind) && Spells(little, b[26..30], p.datalen)
            && Spells(little, b[30..34], p.reserve)
  {
    Fields(Put32(little, Unsigned(p.version)), p.header, p.tail, p.check, Put32(little, Unsigned(p.kind)),
           Put32(little, Unsigned(p.datalen)), Put32(little, Unsigned(p.reserve)));
    FieldSpelled(little, p.version);
    FieldSpelled(little, p.kind);
    FieldSpelled(little, p.datalen);
    FieldSpelled(little, p.reserve);
  }

  lemma FieldSpelled(little: bool, x: int32)
    ensures Spells(little, Put32(little, Unsigned(x)), x)
  {
    var u, b := Unsigned(x), HighFirst(Unsigned(x));
    HighFirstInverse(u);
    if little {
      HighFirstUnique([b[3], b[2], b[1], b[0]]);
    }
  }

  /** Every 34 bytes are those of the header that is read from them. */
  lemma HeaderWritten(little: bool, b: seq<byte>)
    requires |b| == HEADLEN
    ensures HeaderBytes(little, BytesHeader(little, b)) == b
  {
    Glued(b);
    FieldWritten(little, b[..4]);
    FieldWritten(little, b[22..26]);
    FieldWritten(little, b[26..30]);
    FieldWritten(little, b[30..34]);
  }

  lemma Glued(b: seq<byte>)
    requires |b| == HEADLEN
    ensures b == b[..4] + [b[4], b[5]] + b[6..22] + b[22..26] + b[26..30] + b[30..34]
  {
  }

  lemma FieldWritten(little: bool, b: seq<byte>)
    requires |b| == 4
    ensures Put32(little, Unsigned(Signed(Get32(little, b)))) == b
  {
    var x := FromHighFirst(b);
    HighFirstUnique(b);
    SwapInverse(x);
  }

  lemma FieldRoundTrip(little: bool, x: int32)
    ensures Signed(Get32(little, Put32(little, Unsigned(x)))) == x
  {
    RoundTrip32(little, little, Unsigned(x));
    SignedInverse(x);
  }

  /** PacketData: the bytes of a whole packet, and the header as the call leaves it in the caller's hands,
      with the check bytes zeroed when there is no data. */
  function Sealed(p: Header): (q: Header)
    requires p.Valid()
    ensures q.Valid()
  {
    if p.datalen == 0 then p.(check := seq(16, _ => 0)) else p
  }

  function PacketBytes(little: bool, p: Header, data: seq<byte>): (b: seq<byte>)
    requires p.Valid() && |data| == p.datalen
    ensures |b| == 1 + HEADLEN + |data| + 1
  {
    [p.header] + HeaderBytes(little, Sealed(p)) + data + [p.tail]
  }
}
