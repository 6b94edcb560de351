/** The reference reading of a byte stream: find the head byte, take the header and the data it
    announces, accept the frame if the tail byte fits, and otherwise go on one byte past the head. */
module FrameScan {
  import opened Basics
  import opened NetPacket

  /** The two marker bytes of a connection and the byte order of the host. */
  datatype Config = Config(head: byte, tail: byte, little: bool)

  datatype Frame = Frame(header: Header, data: seq<byte>)

  /** The frames found and the bytes that still wait for more. */
  datatype Scanned = Scanned(frames: seq<Frame>, rest: seq<byte>)

  /** A byte of the receive buffer as the source compares it: a signed character. */
  function SignedChar(b: byte): int {
    if b < 128 then b else b - 256
  }

  predicate TailFits(c: Config, b: byte) {
    SignedChar(b) == c.tail
  }

  /** The header of a stream that starts with the head byte. */
  function HeaderOf(c: Config, s: seq<byte>): Header
    requires |s| >= 1 + HEADLEN
  {
    BytesHeader(c.little, s[1..1 + HEADLEN])
  }

  predicate HeaderFits(c: Config, h: Header) {
    h.header == c.head && h.tail == c.tail && h.datalen >= 0
  }

  function Prepend(fs: seq<Frame>, r: Scanned): Scanned {
    Scanned(fs + r.frames, r.rest)
  }

  function Scan(c: Config, s: seq<byte>): Scanned
    decreases |s|
  {
    if s == [] then Scanned([], [])
    else if s[0] != c.head then Scan(c, s[1..])
    else if |s| < 1 + HEADLEN then Scanned([], s)
    else
      var h := HeaderOf(c, s);
      if !HeaderFits(c, h) then Scan(c, s[1..])
      else if |s| < HEADLEN + h.datalen + 2 then Scanned([], s)
      else if !TailFits(c, s[1 + HEADLEN + h.datalen]) then Scan(c, s[1..])
      else
        Prepend([Frame(h, s[1 + HEADLEN..1 + HEADLEN + h.datalen])], Scan(c, s[HEADLEN + h.datalen + 2..]))
  }

  /** Bytes without the head byte are passed over. */
  lemma {:induction false} ScanSkip(c: Config, a: seq<byte>, b: seq<byte>)
    requires c.head !in a
    ensures Scan(c, a + b) == Scan(c, b)
  {
    if a == [] {
      assert a + b == b;
    } else {
      assert (a + b)[1..] == a[1..] + b;
      ScanSkip(c, a[1..], b);
    }
  }

  /** The whole frame is there, if the header says the truth. */
  predicate AllThere(c: Config, t: seq<byte>) {
    |t| >= 1 + HEADLEN && (HeaderFits(c, HeaderOf(c, t)) ==> |t| >= HEADLEN + HeaderOf(c, t).datalen + 2)
  }

  predicate Fits(c: Config, t: seq<byte>)
    requires AllThere(c, t)
  {
    HeaderFits(c, HeaderOf(c, t)) && TailFits(c, t[1 + HEADLEN + HeaderOf(c, t).datalen])
  }

  /** Whether the bytes at hand settle what to do with the head byte at the front. */
  predicate Settled(c: Config, s: seq<byte>) {
    s != [] && (s[0] != c.head || AllThere(c, s))
  }

  lemma ScanUnsettled(c: Config, s: seq<byte>)
    requires !Settled(c, s)
    ensures Scan(c, s) == Scanned([], s)
  {
  }

  lemma ScanPasses(c: Config, t: seq<byte>)
    requires t != [] && (t[0] != c.head || (AllThere(c, t) && !Fits(c, t)))
    ensures Scan(c, t) == Scan(c, t[1..])
  {
  }

  /** What the scan takes from the front. */
  function Front(c: Config, t: seq<byte>): Frame
    requires AllThere(c, t) && Fits(c, t)
  {
    Frame(HeaderOf(c, t), t[1 + HEADLEN..1 + HEADLEN + HeaderOf(c, t).datalen])
  }

  lemma ScanTakes(c: Config, t: seq<byte>)
    requires AllThere(c, t) && Fits(c, t) && t[0] == c.head
    ensures Scan(c, t) == Prepend([Front(c, t)], Scan(c, t[HEADLEN + Front(c, t).header.datalen + 2..]))
  {
  }

  lemma SettledStays(c: Config, a: seq<byte>, b: seq<byte>)
    requires Settled(c, a)
    ensures Settled(c, a + b)
    ensures |a| >= 1 + HEADLEN ==> HeaderOf(c, a + b) == HeaderOf(c, a)
  {
    assert |a| >= 1 + HEADLEN ==> (a + b)[1..1 + HEADLEN] == a[1..1 + HEADLEN];
  }

  /** Scanning in pieces: what is left over from the first piece, put before the second, gives the rest. */
  lemma {:induction false} ScanInPieces(c: Config, a: seq<byte>, b: seq<byte>)
    ensures Scan(c, a + b) == Prepend(Scan(c, a).frames, Scan(c, Scan(c, a).rest + b))
    decreases |a|
  {
    if !Settled(c, a) {
      ScanUnsettled(c, a);
      PrependNothing(Scan(c, a + b));
    } else {
      SettledStays(c, a, b);
      assert (a + b)[1..] == a[1..] + b;
      ScanInPieces(c, a[1..], b);
      if a[0] == c.head && HeaderFits(c, HeaderOf(c, a)) {
        var n := HeaderOf(c, a).datalen;
        assert (a + b)[1 + HEADLEN + n] == a[1 + HEADLEN + n];
        assert (a + b)[1 + HEADLEN..1 + HEADLEN + n] == a[1 + HEADLEN..1 + HEADLEN + n];
        assert (a + b)[HEADLEN + n + 2..] == a[HEADLEN + n + 2..] + b;
        ScanInPieces(c, a[HEADLEN + n + 2..], b);
        var f := Frame(HeaderOf(c, a), a[1 + HEADLEN..1 + HEADLEN + n]);
        var r := Scan(c, a[HEADLEN + n + 2..]);
        PrependTwice([f], r.frames, Scan(c, r.rest + b));
      }
    }
  }

  lemma PrependNothing(r: Scanned)
    ensures Prepend([], r) == r
  {
  }

  lemma PrependTwice(f: seq<Frame>, g: seq<Frame>, r: Scanned)
    ensures Prepend(f, Prepend(g, r)) == Prepend(f + g, r)
  {
    assert f + (g + r.frames) == (f + g) + r.frames;
  }

  /** The left-over bytes hold no frame and are left over again. */
  lemma {:induction false} ScanRest(c: Config, s: seq<byte>)
    ensures Scan(c, Scan(c, s).rest) == Scanned([], Scan(c, s).rest)
    decreases |s|
  {
    if !Settled(c, s) {
      ScanUnsettled(c, s);
    } else if s[0] == c.head && Fits(c, s) {
      ScanTakes(c, s);
      ScanRest(c, s[HEADLEN + Front(c, s).header.datalen + 2..]);
    } else {
      ScanPasses(c, s);
      ScanRest(c, s[1..]);
    }
  }

  /** Fewer bytes than the shortest frame hold no frame. */
  lemma {:induction false} ScanShort(c: Config, s: seq<byte>)
    requires |s| < HEADLEN + 2
    ensures Scan(c, s).frames == []
    decreases |s|
  {
    if s != [] {
      ScanShort(c, s[1..]);
    }
  }

  /** More bytes can only add frames. */
  lemma ScanGrows(c: Config, a: seq<byte>, b: seq<byte>)
    ensures Scan(c, a).frames <= Scan(c, a + b).frames
  {
    ScanInPieces(c, a, b);
  }

  // ---------- encoded packets ----------

  /** A packet that the encoder produces for this connection. */
  predicate Sendable(c: Config, p: Header, data: seq<byte>) {
    p.Valid() && p.header == c.head && p.tail == c.tail && |data| == p.datalen
  }

  /** An encoded packet at the front is delivered when its tail byte, as a signed character, fits. */
  lemma ScanPacket(c: Config, p: Header, data: seq<byte>, s: seq<byte>)
    requires Sendable(c, p, data) && c.tail < 128
    ensures Scan(c, PacketBytes(c.little, p, data) + s) == Prepend([Frame(Sealed(p), data)], Scan(c, s))
  {
    var e, n, q := PacketBytes(c.little, p, data), p.datalen, Sealed(p);
    var t := e + s;
    assert t[0] == c.head && t[1..1 + HEADLEN] == HeaderBytes(c.little, q);
    HeaderRoundTrip(c.little, q);
    assert HeaderOf(c, t) == q;
    assert t[1 + HEADLEN..1 + HEADLEN + n] == data && t[1 + HEADLEN + n] == p.tail;
    assert t[HEADLEN + n + 2..] == s;
  }

  /** With a tail byte of 128 or more the comparison never holds, and no frame is ever delivered. */
  lemma {:induction false} HighTailDeliversNothing(c: Config, s: seq<byte>)
    requires c.tail >= 128
    ensures Scan(c, s).frames == []
    decreases |s|
  {
    if s != [] {
      HighTailDeliversNothing(c, s[1..]);
    }
  }

  datatype Packet = Packet(header: Header, data: seq<byte>)

  predicate AllSendable(c: Config, ps: seq<Packet>) {
    forall i :: 0 <= i < |ps| ==> Sendable(c, ps[i].header, ps[i].data)
  }

  /** The bytes of the packets, one behind the other. */
  function Wire(c: Config, ps: seq<Packet>): seq<byte>
    requires AllSendable(c, ps)
  {
    if ps == [] then []
    else
      var n := |ps| - 1;
      Wire(c, ps[..n]) + PacketBytes(c.little, ps[n].header, ps[n].data)
  }

  function Frames(ps: seq<Packet>): (fs: seq<Frame>)
    requires forall i :: 0 <= i < |ps| ==> ps[i].header.Valid()
  {
    if ps == [] then []
    else
      var n := |ps| - 1;
      Frames(ps[..n]) + [Frame(Sealed(ps[n].header), ps[n].data)]
  }

  /** They are the packets, each with its check bytes cleared if it has no data. */
  lemma {:induction false} FramesMean(ps: seq<Packet>, i: nat)
    requires i < |ps| && forall k :: 0 <= k < |ps| ==> ps[k].header.Valid()
    ensures |Frames(ps)| == |ps| && Frames(ps)[i].data == ps[i].data
    ensures Frames(ps)[i].header ==
            if ps[i].header.datalen == 0 then ps[i].header.(check := seq(16, _ => 0)) else ps[i].header
    decreases |ps|
  {
    var n := |ps| - 1;
    if n > 0 {
      FramesMean(ps[..n], if i < n then i else 0);
    }
  }

  /** The bytes of any packets scan to exactly those packets, with nothing left over. */
  lemma {:induction false} ScanWire(c: Config, ps: seq<Packet>)
    requires AllSendable(c, ps) && c.tail < 128
    ensures Scan(c, Wire(c, ps)) == Scanned(Frames(ps), [])
  {
    if ps != [] {
      var n := |ps| - 1;
      ScanWire(c, ps[..n]);
      ScanNextPacket(c, Wire(c, ps[..n]), Frames(ps[..n]), ps[n].header, ps[n].data);
    }
  }

  lemma ScanNextPacket(c: Config, w: seq<byte>, fs: seq<Frame>, p: Header, data: seq<byte>)
    requires Scan(c, w) == Scanned(fs, []) && Sendable(c, p, data) && c.tail < 128
    ensures Scan(c, w + PacketBytes(c.little, p, data)) == Scanned(fs + [Frame(Sealed(p), data)], [])
  {
    var e := PacketBytes(c.little, p, data);
    ScanInPieces(c, w, e);
    ScanPacket(c, p, data, []);
    assert [] + e == e && e + [] == e;
    PrependTwice(fs, [Frame(Sealed(p), data)], Scanned([], []));
  }

  /** Packets are delivered through the decoder exactly when the tail byte is below 128: otherwise not
      even the first one is. */
  lemma DeliveredIffLowTail(c: Config, ps: seq<Packet>)
    requires AllSendable(c, ps) && ps != []
    ensures Scan(c, Wire(c, ps)).frames == Frames(ps) <==> c.tail < 128
  {
    if c.tail < 128 {
      ScanWire(c, ps);
    } else {
      HighTailDeliversNothing(c, Wire(c, ps));
    }
  }
}
