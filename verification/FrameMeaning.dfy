/** What it means to deliver the frames of a byte stream, in terms of encodings that stand in it: which positions are
    taken, which are passed over, and where the waiting begins. There is exactly one such reading of a stream, and the
    reference scan finds it. */
module FrameMeaning {
  import opened Basics
  import opened NetPacket
  import opened FrameScan

  /** The frame is one of this connection. */
  predicate WellFormed(c: Config, f: Frame) {
    f.header.Valid() && f.header.header == c.head && f.header.tail == c.tail && |f.data| == f.header.datalen
  }

  function Encoded(c: Config, f: Frame): seq<byte>
    requires f.header.Valid()
  {
    [c.head] + HeaderBytes(c.little, f.header) + f.data + [c.tail]
  }

  function Size(f: Frame): nat {
    HEADLEN + |f.data| + 2
  }

  /** The encoding of a frame stands in the stream. */
  ghost predicate StandsAt(c: Config, s: seq<byte>, p: nat, f: Frame) {
    WellFormed(c, f) && p + Size(f) <= |s| && s[p..p + Size(f)] == Encoded(c, f)
  }

  /** A head byte, and behind it a header of this connection. */
  ghost predicate HeaderAt(c: Config, s: seq<byte>, p: nat, h: Header) {
    && h.Valid() && h.header == c.head && h.tail == c.tail && h.datalen >= 0
    && p + 1 + HEADLEN <= |s| && s[p] == c.head && s[p + 1..p + 1 + HEADLEN] == HeaderBytes(c.little, h)
  }

  /** A head byte behind which the header or the data that it announces, with the tail byte, have not all come. */
  ghost predicate Awaited(c: Config, s: seq<byte>, p: nat) {
    && p < |s| && s[p] == c.head
    && (|s| < p + 1 + HEADLEN || exists h :: HeaderAt(c, s, p, h) && |s| < p + HEADLEN + h.datalen + 2)
  }

  ghost predicate Starts(c: Config, s: seq<byte>, p: nat) {
    Awaited(c, s, p) || exists f :: StandsAt(c, s, p, f)
  }

  ghost predicate Inside(fs: seq<Frame>, ps: seq<nat>, p: nat)
    requires |fs| == |ps|
  {
    exists i :: 0 <= i < |ps| && ps[i] <= p < ps[i] + Size(fs[i])
  }

  /** One behind the other, from `k` to `w`. */
  ghost predicate InOrder(k: nat, fs: seq<Frame>, ps: seq<nat>, w: nat) {
    && |ps| == |fs| && (forall i :: 0 <= i < |fs| ==> k <= ps[i] && ps[i] + Size(fs[i]) <= w)
    && (forall i, j :: 0 <= i < j < |fs| ==> ps[i] + Size(fs[i]) <= ps[j])
  }

  ghost predicate AllStand(c: Config, s: seq<byte>, fs: seq<Frame>, ps: seq<nat>)
    requires |fs| == |ps|
  {
    forall i :: 0 <= i < |fs| ==> StandsAt(c, s, ps[i], fs[i])
  }

  ghost predicate NonePassed(c: Config, s: seq<byte>, k: nat, fs: seq<Frame>, ps: seq<nat>, w: nat)
    requires |fs| == |ps|
  {
    forall p :: k <= p < w && Starts(c, s, p) ==> Inside(fs, ps, p)
  }

  /** From `k` on: each frame stands at its position, they follow each other without overlap, nothing that could be a
      frame is passed over on the way, and from `w` on more bytes are waited for. */
  ghost predicate Reading(c: Config, s: seq<byte>, k: nat, fs: seq<Frame>, ps: seq<nat>, w: nat) {
    && k <= w <= |s| && InOrder(k, fs, ps, w) && AllStand(c, s, fs, ps) && NonePassed(c, s, k, fs, ps, w)
    && (w < |s| ==> Awaited(c, s, w))
  }

  /** The frames of a stream. */
  ghost predicate Delivers(c: Config, s: seq<byte>, fs: seq<Frame>) {
    exists ps, w :: Reading(c, s, 0, fs, ps, w)
  }

  // ---------- what stands at a position ----------

  lemma Parts(c: Config, s: seq<byte>, p: nat, f: Frame)
    requires StandsAt(c, s, p, f)
    ensures HeaderAt(c, s, p, f.header)
    ensures f.data == s[p + 1 + HEADLEN..p + 1 + HEADLEN + |f.data|] && s[p + 1 + HEADLEN + |f.data|] == c.tail
  {
    PartsOf(s, p, [c.head], HeaderBytes(c.little, f.header), f.data, [c.tail]);
    Single(s, p, c.head);
    Single(s, p + Size(f) - 1, c.tail);
  }

  lemma PartsOf(s: seq<byte>, p: nat, a: seq<byte>, b: seq<byte>, d: seq<byte>, e: seq<byte>)
    requires |a| == 1 && |b| == HEADLEN && |e| == 1 && p + HEADLEN + |d| + 2 <= |s|
    requires s[p..p + HEADLEN + |d| + 2] == a + b + d + e
    ensures s[p..p + 1] == a && s[p + 1..p + 1 + HEADLEN] == b
    ensures s[p + 1 + HEADLEN..p + 1 + HEADLEN + |d|] == d
    ensures s[p + 1 + HEADLEN + |d|..p + HEADLEN + |d| + 2] == e
  {
    var n, z := |d|, p + HEADLEN + |d| + 2;
    EncodedParts(a, b, d, e);
    Slice(s, p, z, 0, 1);
    Slice(s, p, z, 1, 1 + HEADLEN);
    Slice(s, p, z, 1 + HEADLEN, 1 + HEADLEN + n);
    Slice(s, p, z, 1 + HEADLEN + n, HEADLEN + n + 2);
  }

  lemma EncodedParts(a: seq<byte>, b: seq<byte>, d: seq<byte>, e: seq<byte>)
    requires |a| == 1 && |b| == HEADLEN && |e| == 1
    ensures var t := a + b + d + e;
            && t[0..1] == a && t[1..1 + HEADLEN] == b && t[1 + HEADLEN..1 + HEADLEN + |d|] == d
            && t[1 + HEADLEN + |d|..HEADLEN + |d| + 2] == e
  {
  }

  lemma Slice(s: seq<byte>, p: nat, z: nat, i: nat, j: nat)
    requires i <= j <= z - p && z <= |s| && p <= z
    ensures s[p..z][i..j] == s[p + i..p + j]
  {
    assert forall k :: 0 <= k < j - i ==> s[p..z][i..j][k] == s[p..z][i + k] == s[p + i..p + j][k];
  }

  lemma Single(s: seq<byte>, p: nat, b: byte)
    requires p < |s| && s[p..p + 1] == [b]
    ensures s[p] == b
  {
    assert s[p..p + 1][0] == s[p];
  }

  lemma Whole(c: Config, s: seq<byte>, p: nat, f: Frame)
    requires HeaderAt(c, s, p, f.header) && |f.data| == f.header.datalen && p + Size(f) <= |s|
    requires f.data == s[p + 1 + HEADLEN..p + 1 + HEADLEN + |f.data|] && s[p + 1 + HEADLEN + |f.data|] == c.tail
    ensures StandsAt(c, s, p, f)
  {
    Pieces(s, p, p + 1 + HEADLEN, p + 1 + HEADLEN + |f.data|);
  }

  lemma Pieces(s: seq<byte>, p: nat, q: nat, r: nat)
    requires p < q <= r < |s|
    ensures s[p..r + 1] == [s[p]] + s[p + 1..q] + s[q..r] + [s[r]]
  {
  }

  lemma OneHeader(c: Config, s: seq<byte>, p: nat, g: Header, h: Header)
    requires HeaderAt(c, s, p, g) && HeaderAt(c, s, p, h)
    ensures g == h
  {
    HeaderRoundTrip(c.little, g);
    HeaderRoundTrip(c.little, h);
  }

  lemma OneFrame(c: Config, s: seq<byte>, p: nat, f: Frame, g: Frame)
    requires StandsAt(c, s, p, f) && StandsAt(c, s, p, g)
    ensures f == g
  {
    Parts(c, s, p, f);
    Parts(c, s, p, g);
    OneHeader(c, s, p, f.header, g.header);
  }

  /** A frame that is there is not waited for. */
  lemma StandsOrWaits(c: Config, s: seq<byte>, p: nat, f: Frame)
    requires StandsAt(c, s, p, f)
    ensures !Awaited(c, s, p)
  {
    if Awaited(c, s, p) {
      Parts(c, s, p, f);
      var h :| HeaderAt(c, s, p, h) && |s| < p + HEADLEN + h.datalen + 2;
      OneHeader(c, s, p, f.header, h);
      assert false;
    }
  }

  // ---------- one reading ----------

  ghost predicate Agree(fs: seq<Frame>, ps: seq<nat>, gs: seq<Frame>, qs: seq<nat>, i: nat)
    requires |fs| == |ps| && |gs| == |qs|
  {
    i <= |fs| && i <= |gs| && forall j :: 0 <= j < i ==> fs[j] == gs[j] && ps[j] == qs[j]
  }

  lemma BeforeNext(fs: seq<Frame>, ps: seq<nat>, w: nat, gs: seq<Frame>, qs: seq<nat>, v: nat, i: nat)
    requires InOrder(0, fs, ps, w) && InOrder(0, gs, qs, v) && Agree(fs, ps, gs, qs, i) && i < |fs| && v < ps[i]
    ensures !Inside(fs, ps, v)
  {
  }

  lemma AtNext(fs: seq<Frame>, ps: seq<nat>, w: nat, gs: seq<Frame>, qs: seq<nat>, v: nat, i: nat)
    requires InOrder(0, fs, ps, w) && InOrder(0, gs, qs, v) && Agree(fs, ps, gs, qs, i) && i < |fs|
    requires Inside(gs, qs, ps[i])
    ensures i < |gs| && qs[i] <= ps[i]
  {
    var j :| 0 <= j < |qs| && qs[j] <= ps[i] < qs[j] + Size(gs[j]);
    assert j >= i;
  }

  /** Two readings that agree so far: what the one takes next, the other does not wait before, nor pass over. */
  lemma NotBehind(c: Config, s: seq<byte>, fs: seq<Frame>, ps: seq<nat>, w: nat, gs: seq<Frame>, qs: seq<nat>, v: nat,
                  i: nat)
    requires Reading(c, s, 0, fs, ps, w) && Reading(c, s, 0, gs, qs, v) && Agree(fs, ps, gs, qs, i) && i < |fs|
    ensures i < |gs| && qs[i] <= ps[i]
  {
    var p := ps[i];
    StandsOrWaits(c, s, p, fs[i]);
    if v < p {
      assert Starts(c, s, v);
      BeforeNext(fs, ps, w, gs, qs, v, i);
      assert false;
    }
    assert Starts(c, s, p);
    AtNext(fs, ps, w, gs, qs, v, i);
  }

  lemma {:induction false} SameSoFar(c: Config, s: seq<byte>, fs: seq<Frame>, ps: seq<nat>, w: nat, gs: seq<Frame>,
                                     qs: seq<nat>, v: nat, i: nat)
    requires Reading(c, s, 0, fs, ps, w) && Reading(c, s, 0, gs, qs, v) && i <= |fs|
    ensures Agree(fs, ps, gs, qs, i)
  {
    if i > 0 {
      SameSoFar(c, s, fs, ps, w, gs, qs, v, i - 1);
      NotBehind(c, s, fs, ps, w, gs, qs, v, i - 1);
      NotBehind(c, s, gs, qs, v, fs, ps, w, i - 1);
      NextAgrees(c, s, fs, ps, gs, qs, i - 1);
    }
  }

  lemma NextAgrees(c: Config, s: seq<byte>, fs: seq<Frame>, ps: seq<nat>, gs: seq<Frame>, qs: seq<nat>, i: nat)
    requires |fs| == |ps| && |gs| == |qs| && Agree(fs, ps, gs, qs, i) && i < |fs| && i < |gs| && ps[i] == qs[i]
    requires AllStand(c, s, fs, ps) && AllStand(c, s, gs, qs)
    ensures Agree(fs, ps, gs, qs, i + 1)
  {
    OneFrame(c, s, ps[i], fs[i], gs[i]);
  }

  /** The readings wait at the same position. */
  lemma NotBefore(c: Config, s: seq<byte>, fs: seq<Frame>, ps: seq<nat>, w: nat, v: nat)
    requires Reading(c, s, 0, fs, ps, w) && Reading(c, s, 0, fs, ps, v)
    ensures v <= w
  {
    if w < v {
      assert Starts(c, s, w);
    }
  }

  /** A stream has one reading: the frames, their positions and the position of the waiting are determined. */
  lemma OneReading(c: Config, s: seq<byte>, fs: seq<Frame>, ps: seq<nat>, w: nat, gs: seq<Frame>, qs: seq<nat>, v: nat)
    requires Reading(c, s, 0, fs, ps, w) && Reading(c, s, 0, gs, qs, v)
    ensures fs == gs && ps == qs && w == v
  {
    SameSoFar(c, s, fs, ps, w, gs, qs, v, |fs|);
    SameSoFar(c, s, gs, qs, v, fs, ps, w, |gs|);
    NotBefore(c, s, fs, ps, w, v);
    NotBefore(c, s, fs, ps, v, w);
  }

  // ---------- the scan finds it ----------

  /** The header that is read behind a head byte is the only one that can be there. */
  lemma HeaderThere(c: Config, s: seq<byte>, p: nat)
    requires p + 1 + HEADLEN <= |s| && s[p] == c.head
    ensures HeaderFits(c, HeaderOf(c, s[p..])) ==> HeaderAt(c, s, p, HeaderOf(c, s[p..]))
    ensures forall h :: HeaderAt(c, s, p, h) ==> h == HeaderOf(c, s[p..]) && HeaderFits(c, h)
  {
    var b := s[p + 1..p + 1 + HEADLEN];
    assert s[p..][1..1 + HEADLEN] == b;
    HeaderWritten(c.little, b);
    forall h | HeaderAt(c, s, p, h)
      ensures h == HeaderOf(c, s[p..]) && HeaderFits(c, h)
    {
      HeaderRoundTrip(c.little, h);
    }
  }

  lemma NoHead(c: Config, s: seq<byte>, p: nat)
    requires p < |s| && s[p] != c.head
    ensures !Starts(c, s, p)
  {
    if f :| StandsAt(c, s, p, f) {
      Parts(c, s, p, f);
      assert false;
    }
  }

  /** An ill-fitting header, or an ill-fitting tail byte where the header says that it is. */
  lemma NoFrame(c: Config, s: seq<byte>, p: nat)
    requires p < |s| && s[p] == c.head && c.tail < 128 && AllThere(c, s[p..]) && !Fits(c, s[p..])
    ensures !Starts(c, s, p)
  {
    HeaderThere(c, s, p);
    if f :| StandsAt(c, s, p, f) {
      Parts(c, s, p, f);
      assert false;
    }
  }

  lemma Passed(c: Config, s: seq<byte>, k: nat, fs: seq<Frame>, ps: seq<nat>, w: nat)
    requires k < |s| && !Starts(c, s, k) && Reading(c, s, k + 1, fs, ps, w)
    ensures Reading(c, s, k, fs, ps, w)
  {
  }

  lemma TakenInside(f: Frame, fs: seq<Frame>, k: nat, ps: seq<nat>, p: nat)
    requires |fs| == |ps| && (k <= p < k + Size(f) || Inside(fs, ps, p))
    ensures Inside([f] + fs, [k] + ps, p)
  {
    var gs, qs := [f] + fs, [k] + ps;
    if Inside(fs, ps, p) {
      var i :| 0 <= i < |ps| && ps[i] <= p < ps[i] + Size(fs[i]);
      assert qs[i + 1] <= p < qs[i + 1] + Size(gs[i + 1]);
    } else {
      assert qs[0] <= p < qs[0] + Size(gs[0]);
    }
  }

  lemma Taken(c: Config, s: seq<byte>, k: nat, f: Frame, fs: seq<Frame>, ps: seq<nat>, w: nat)
    requires StandsAt(c, s, k, f) && Reading(c, s, k + Size(f), fs, ps, w)
    ensures Reading(c, s, k, [f] + fs, [k] + ps, w)
  {
    InOrderWith(k, f, fs, ps, w);
    AllStandWith(c, s, k, f, fs, ps);
    forall p | k <= p < w && Starts(c, s, p)
      ensures Inside([f] + fs, [k] + ps, p)
    {
      TakenInside(f, fs, k, ps, p);
    }
  }

  lemma InOrderWith(k: nat, f: Frame, fs: seq<Frame>, ps: seq<nat>, w: nat)
    requires InOrder(k + Size(f), fs, ps, w) && k + Size(f) <= w
    ensures InOrder(k, [f] + fs, [k] + ps, w)
  {
  }

  lemma AllStandWith(c: Config, s: seq<byte>, k: nat, f: Frame, fs: seq<Frame>, ps: seq<nat>)
    requires |fs| == |ps| && AllStand(c, s, fs, ps) && StandsAt(c, s, k, f)
    ensures AllStand(c, s, [f] + fs, [k] + ps)
  {
    var gs, qs := [f] + fs, [k] + ps;
    forall i | 0 <= i < |gs|
      ensures StandsAt(c, s, qs[i], gs[i])
    {
      if i > 0 {
        assert gs[i] == fs[i - 1] && qs[i] == ps[i - 1];
      }
    }
  }

  /** What the scan does at a position: it takes a frame, or waits, or passes the position over. */
  lemma Looks(c: Config, s: seq<byte>, k: nat) returns (f: Option<Frame>)
    requires c.tail < 128 && k < |s|
    ensures f.Some? ==> StandsAt(c, s, k, f.value) && k + Size(f.value) <= |s| &&
                        Scan(c, s[k..]).frames == [f.value] + Scan(c, s[k + Size(f.value)..]).frames
    ensures f.None? && Awaited(c, s, k) ==> Scan(c, s[k..]).frames == []
    ensures f.None? && !Awaited(c, s, k) ==>
              !Starts(c, s, k) && Scan(c, s[k..]).frames == Scan(c, s[k + 1..]).frames
  {
    var t := s[k..];
    f := None;
    if t[0] != c.head {
      NoHead(c, s, k);
      Passes(c, s, k);
    } else if !AllThere(c, t) {
      ScanUnsettled(c, t);
      Waits(c, s, k);
    } else if !Fits(c, t) {
      NoFrame(c, s, k);
      Passes(c, s, k);
    } else {
      var found := Takes(c, s, k);
      f := Some(found);
    }
  }

  lemma Waits(c: Config, s: seq<byte>, k: nat)
    requires k < |s| && s[k] == c.head && !AllThere(c, s[k..])
    ensures Awaited(c, s, k)
  {
    if |s| >= k + 1 + HEADLEN {
      HeaderThere(c, s, k);
    }
  }

  lemma Passes(c: Config, s: seq<byte>, k: nat)
    requires k < |s| && (s[k] != c.head || (AllThere(c, s[k..]) && !Fits(c, s[k..])))
    ensures Scan(c, s[k..]) == Scan(c, s[k + 1..])
  {
    ScanPasses(c, s[k..]);
    From(s, k, 1);
  }

  lemma From(s: seq<byte>, k: nat, n: nat)
    requires k + n <= |s|
    ensures s[k..][n..] == s[k + n..]
  {
  }

  lemma FromTo(s: seq<byte>, k: nat, i: nat, j: nat)
    requires i <= j && k + j <= |s|
    ensures s[k..][i..j] == s[k + i..k + j]
  {
    assert forall n :: 0 <= n < j - i ==> s[k..][i..j][n] == s[k..][i + n] == s[k + i..k + j][n];
  }

  lemma Takes(c: Config, s: seq<byte>, k: nat) returns (f: Frame)
    requires c.tail < 128 && k < |s| && s[k] == c.head && AllThere(c, s[k..]) && Fits(c, s[k..])
    ensures StandsAt(c, s, k, f) && k + Size(f) <= |s|
    ensures Scan(c, s[k..]).frames == [f] + Scan(c, s[k + Size(f)..]).frames
  {
    f := Front(c, s[k..]);
    ScanTakes(c, s[k..]);
    From(s, k, Size(f));
    FrontStands(c, s, k, f);
  }

  lemma FrontStands(c: Config, s: seq<byte>, k: nat, f: Frame)
    requires c.tail < 128 && k < |s| && s[k] == c.head && AllThere(c, s[k..]) && Fits(c, s[k..]) && f == Front(c, s[k..])
    ensures StandsAt(c, s, k, f)
  {
    HeaderThere(c, s, k);
    FromTo(s, k, 1 + HEADLEN, 1 + HEADLEN + f.header.datalen);
    Whole(c, s, k, f);
  }

  /** For tail bytes below 128 (see `DeliveredIffLowTail`): the frames that the scan finds from `k` on. */
  lemma {:induction false} ScanReads(c: Config, s: seq<byte>, k: nat) returns (ps: seq<nat>, w: nat)
    requires c.tail < 128 && k <= |s|
    ensures Reading(c, s, k, Scan(c, s[k..]).frames, ps, w)
    decreases |s| - k
  {
    ps, w := [], k;
    if k < |s| {
      var f := Looks(c, s, k);
      if f.Some? {
        ps, w := ScanReads(c, s, k + Size(f.value));
        Taken(c, s, k, f.value, Scan(c, s[k + Size(f.value)..]).frames, ps, w);
        ps := [k] + ps;
      } else if !Awaited(c, s, k) {
        ps, w := ScanReads(c, s, k + 1);
        Passed(c, s, k, Scan(c, s[k + 1..]).frames, ps, w);
      }
    }
  }

  lemma ScanDelivers(c: Config, s: seq<byte>)
    ensures if c.tail < 128 then Delivers(c, s, Scan(c, s).frames) else Scan(c, s).frames == []
  {
    if c.tail < 128 {
      var ps, w := ScanReads(c, s, 0);
      assert s[0..] == s;
    } else {
      HighTailDeliversNothing(c, s);
    }
  }
}
