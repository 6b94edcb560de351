/** The incremental decoder: two byte buffers and two parse states, proved against the reference scan. */
module PacketSync {
  import opened Basics
  import opened NetPacket
  import opened FrameMeaning
  import opened FrameScan

  const BUFFER_SIZE := 10240

  /** The encoder: appends to a string, and zeroes the check bytes of the header if there is no data. */
  method PacketData(little: bool, packet: Header, data: seq<byte>) returns (s: seq<byte>, packet': Header)
    requires packet.Valid() && |data| == packet.datalen
    ensures packet' == if packet.datalen == 0 then packet.(check := seq(16, _ => 0)) else packet
    ensures s == [packet.header] + HeaderBytes(little, packet') + data + [packet.tail]
    ensures s == PacketBytes(little, packet, data) && packet' == Sealed(packet)
  {
    packet' := packet;
    if packet.datalen == 0 {
      packet' := packet.(check := seq(16, _ => 0));
    }
    s := [];
    s := s + [packet'.header];
    s := s + HeaderBytes(little, packet');
    s := s + data;
    s := s + [packet'.tail];
  }

  class PacketSync {
    const c: Config
    var read: array<byte>        // thread_readdata
    var have: int                // truepacketlen: how much of it is valid
    var pack: array<byte>        // thread_packetdata
    var got: int                 // getdatalen: how much of the packet's data and tail byte is there
    var headpos: int
    var parsed: bool             // parsetype == PARSE_HEAD
    var next: Header             // theNexPacket

    constructor (c0: Config)
      ensures Valid() && Waiting() && c == c0 && Pending() == [] && fresh(read) && fresh(pack)
    {
      c := c0;
      read, pack := new byte[BUFFER_SIZE], new byte[BUFFER_SIZE];
      have, got, headpos, parsed := 0, 0, -1, false;
      next := Header(0, 0, 0, seq(16, _ => 0), 0, 0, 0);
    }

    ghost predicate BuffersOk()
      reads this`read, this`pack, this`have
    {
      read != pack && BUFFER_SIZE <= read.Length && 0 <= have <= read.Length
    }

    ghost predicate Valid()
      reads this, read, pack
    {
      && BuffersOk()
      && (parsed ==>
            0 <= headpos <= have && 0 <= got <= pack.Length && next.datalen < pack.Length &&
            PartlyRead(c, read[headpos..have], next, pack[..got]))
    }

    /** The bytes received and not yet used up. */
    ghost function Pending(): seq<byte>
      requires Valid()
      reads this, read, pack
    {
      if parsed then Joined(read[headpos..have], pack[..got]) else read[..have]
    }

    /** Between two passes a parsed packet is never complete. */
    ghost predicate Waiting()
      reads this
    {
      parsed ==> got < next.datalen + 1
    }

    // ---------- the read buffer ----------

    /** Fills the read buffer as far as it goes. */
    method Append(data: seq<byte>, iret: int) returns (iret': int)
      requires BuffersOk() && 0 <= iret <= |data|
      modifies this`have, read
      ensures BuffersOk() && iret <= iret' <= |data| && old(have) <= have
      ensures read[..have] == old(read[..have]) + data[iret..iret']
      ensures old(have) < read.Length && iret < |data| ==> iret < iret'
    {
      var n := if read.Length - have >= |data| - iret then |data| - iret else read.Length - have;
      forall i | 0 <= i < n {
        read[have + i] := data[iret + i];
      }
      have := have + n;
      iret' := iret + n;
    }

    /** The first head byte in the read buffer, or -1. */
    method FindHead() returns (pos: int)
      requires BuffersOk()
      ensures -1 <= pos < have
      ensures if pos == -1 then c.head !in read[..have] else read[pos] == c.head && c.head !in read[..pos]
    {
      pos := 0;
      while pos < have
        invariant 0 <= pos <= have && c.head !in read[..pos]
      {
        if read[pos] == c.head {
          return;
        }
        pos := pos + 1;
      }
      pos := -1;
    }

    /** The first `k` bytes of the read buffer go. */
    method Drop(k: int)
      requires BuffersOk() && 0 <= k <= have
      modifies this`have, read
      ensures BuffersOk() && have == old(have) - k && read[..have] == old(read[k..have])
    {
      var n := have - k;
      forall i | 0 <= i < n {
        read[i] := read[k + i];
      }
      have := n;
    }

    // ---------- one pass of the loop ----------

    /** Takes in bytes and looks for a head byte with a whole header behind it. With `retry` the pass is over. */
    method Locate(data: seq<byte>, iret: int) returns (iret': int, retry: bool)
      requires BuffersOk() && 0 <= iret <= |data| && (iret < |data| || have >= HEADLEN + 2)
      modifies this`have, this`headpos, read
      ensures BuffersOk() && iret <= iret' <= |data|
      ensures retry ==> Scan(c, old(read[..have]) + data[iret..]) == Scan(c, read[..have] + data[iret'..])
      ensures retry ==> have - iret' < old(have) - iret || (have - iret' == old(have) - iret && iret < iret')
      ensures !retry ==> 0 <= headpos && headpos + 1 + HEADLEN <= have && read[headpos] == c.head
      ensures !retry ==> Scan(c, old(read[..have]) + data[iret..]) == Scan(c, read[headpos..have] + data[iret'..])
      ensures !retry ==> have - iret' == old(have) - iret
    {
      iret' := Append(data, iret);
      ghost var all, rest := read[..have], data[iret'..];
      assert old(read[..have]) + data[iret..] == all + rest;
      headpos := FindHead();
      if headpos == -1 {
        have := 0;
        retry := true;
        ScanSkip(c, all, rest);
        assert [] + rest == rest;
        return;
      }
      SkipToHead(c, all, headpos, rest);
      retry := have - headpos - 1 < HEADLEN;
      if retry && headpos != 0 {
        Drop(headpos);
      }
    }

    /** Looks for a header in the read buffer. With `retry` the pass is over. */
    method ParseHead(data: seq<byte>, iret: int) returns (iret': int, retry: bool)
      requires Valid() && !parsed && 0 <= iret <= |data| && (iret < |data| || have >= HEADLEN + 2)
      modifies this`have, this`headpos, this`parsed, this`next, this`got, this`pack, read, pack
      ensures Valid() && (pack == old(pack) || fresh(pack)) && iret <= iret' <= |data|
      ensures retry == !parsed
      ensures Scan(c, old(Pending()) + data[iret..]) == Scan(c, Pending() + data[iret'..])
      ensures retry ==> |Pending()| - iret' < |old(Pending())| - iret ||
                        (|Pending()| - iret' == |old(Pending())| - iret && iret < iret')
      ensures !retry ==> |Pending()| - iret' <= |old(Pending())| - iret
    {
      iret', retry := Locate(data, iret);
      if !retry {
        ghost var front, rest := read[headpos..have], data[iret'..];
        retry := CheckHeader(front);
        if retry {
          BadHeader(c, front, rest);
        }
      }
    }

    /** A whole header is there: either it starts a packet, or the head byte goes. */
    method CheckHeader(ghost front: seq<byte>) returns (retry: bool)
      requires BuffersOk() && !parsed && 0 <= headpos && headpos + 1 + HEADLEN <= have
      requires front == read[headpos..have] && front[0] == c.head
      modifies this`have, this`parsed, this`next, this`got, this`pack, read, pack
      ensures Valid() && (pack == old(pack) || fresh(pack)) && retry == !parsed
      ensures if retry then !HeaderFits(c, HeaderOf(c, front)) && Pending() == front[1..] else Pending() == front
    {
      ReadHeader(front);
      retry := next.header != c.head || next.tail != c.tail || next.datalen < 0;
      if retry {
        DropFront(1);
      } else {
        MakeRoom();
        assert read[headpos..have] == front;
        TakeOver(front);
      }
    }

    method ReadHeader(ghost front: seq<byte>)
      requires BuffersOk() && 0 <= headpos && headpos + 1 + HEADLEN <= have && front == read[headpos..have]
      modifies this`next
      ensures next == HeaderOf(c, front)
    {
      SliceOfSlice(read[..], headpos, have, 1, 1 + HEADLEN);
      next := BytesHeader(c.little, read[headpos + 1..headpos + 1 + HEADLEN]);
    }

    /** Makes room for the data and the tail byte. */
    method MakeRoom()
      requires BuffersOk() && next.datalen >= 0
      modifies this`pack
      ensures BuffersOk() && next.datalen < pack.Length && (pack == old(pack) || fresh(pack))
    {
      if pack.Length < next.datalen + 1 {
        pack := Realloc(pack, next.datalen + 1);
      }
    }

    /** Takes over what the read buffer has of the data and the tail byte. */
    method TakeOver(ghost front: seq<byte>)
      requires BuffersOk() && 0 <= headpos && headpos + 1 + HEADLEN <= have && front == read[headpos..have]
      requires front[0] == c.head && next == HeaderOf(c, front) && HeaderFits(c, next) && next.datalen < pack.Length
      modifies this`parsed, this`got, pack
      ensures Valid() && parsed && Pending() == front
    {
      CopyOver(front);
      parsed := true;
      TakenOver(c, front, next, got);
    }

    method CopyOver(ghost front: seq<byte>)
      requires BuffersOk() && 0 <= headpos && headpos + 1 + HEADLEN <= have && front == read[headpos..have]
      requires 0 <= next.datalen < pack.Length
      modifies this`got, pack
      ensures got == if |front| - 1 - HEADLEN < next.datalen + 1 then |front| - 1 - HEADLEN else next.datalen + 1
      ensures pack[..got] == front[1 + HEADLEN..1 + HEADLEN + got] && read[headpos..have] == front
    {
      var avail := have - headpos - 1 - HEADLEN;
      got := if avail < next.datalen + 1 then avail else next.datalen + 1;
      SliceOfSlice(read[..], headpos, have, 1 + HEADLEN, 1 + HEADLEN + got);
      Copy(pack, 0, read[headpos + 1 + HEADLEN..headpos + 1 + HEADLEN + got]);
      assert read[headpos..have] == front;
    }

    /** Takes data and tail byte of the packet directly from the caller. With `wait` they are not all there. */
    method TakeData(data: seq<byte>, iret: int) returns (iret': int, wait: bool)
      requires Valid() && parsed && 0 <= iret <= |data|
      modifies this`got, pack
      ensures Valid() && parsed && iret <= iret' <= |data|
      ensures Pending() + data[iret'..] == old(Pending()) + data[iret..]
      ensures if wait then iret' == |data| && got < next.datalen + 1 else got == next.datalen + 1
    {
      iret', wait := iret, false;
      if got < next.datalen + 1 {
        var n := next.datalen + 1 - got;
        wait := |data| - iret < n;
        if wait {
          n := |data| - iret;
        }
        ghost var front, part := read[headpos..have], pack[..got];
        Copy(pack, got, data[iret..iret + n]);
        got, iret' := got + n, iret + n;
        MoreData(c, front, next, part, data[iret..iret']);
        assert read[headpos..have] == front && pack[..got] == part + data[iret..iret'];
        Regroup(Joined(front, part), data, iret, iret');
      }
    }

    /** All of the packet is there: hands it out if its tail byte fits, else goes on one byte past the head. */
    method Finish(ghost rest: seq<byte>) returns (fs: seq<Frame>)
      requires Valid() && parsed && got == next.datalen + 1
      modifies this`have, this`parsed, this`read, read
      ensures Valid() && !parsed && (read == old(read) || fresh(read)) && |Pending()| < |old(Pending())|
      ensures Scan(c, old(Pending()) + rest) == Prepend(fs, Scan(c, Pending() + rest))
    {
      ghost var front, part := read[headpos..have], pack[..got];
      Complete(c, front, next, part, rest);
      assert pack[..next.datalen] == part[..next.datalen];
      if !TailFits(c, pack[next.datalen]) {
        StepBack();
        fs := [];
        PrependNothing(Scan(c, Pending() + rest));
      } else {
        StepOver();
        fs := [Frame(next, pack[..next.datalen])];
      }
    }

    /** Only the head byte goes. */
    method StepBack()
      requires Valid() && parsed && got == next.datalen + 1
      modifies this`have, this`parsed, this`read, read
      ensures Valid() && !parsed && (read == old(read) || fresh(read))
      ensures Pending() == old(Pending())[1..]
    {
      if have - headpos - 1 - HEADLEN >= next.datalen + 1 {
        WholeFront(c, read[headpos..have], next, pack[..got]);
        DropFront(1);
      } else {
        PutBackAll();
      }
      parsed := false;
    }

    /** The first bytes from the head on go. */
    method DropFront(k: int)
      requires BuffersOk() && 0 <= headpos && 0 <= k <= have - headpos
      modifies this`have, read
      ensures BuffersOk() && read[..have] == old(read[headpos..have])[k..]
    {
      SliceOfSlice(read[..], headpos, have, k, have - headpos);
      Drop(headpos + k);
    }

    method PutBackAll()
      requires Valid() && parsed && got == next.datalen + 1 && have - headpos - 1 - HEADLEN < got
      modifies this`have, this`read, read
      ensures BuffersOk() && (read == old(read) || fresh(read))
      ensures read[..have] == old(Pending())[1..]
    {
      ghost var front, data := read[headpos..have], pack[..got];
      SliceOfSlice(read[..], headpos, have, 1, 1 + HEADLEN);
      PutBack();
      assert read[..have] == front[1..1 + HEADLEN] + data;
      JoinedTail(front, data);
    }

    /** The header moves to the front of the read buffer, and the data and tail byte follow it there. */
    method PutBack()
      requires BuffersOk() && 0 <= headpos && headpos + 1 + HEADLEN <= have && 0 < got <= pack.Length
      requires got == next.datalen + 1
      modifies this`have, this`read, read
      ensures BuffersOk() && (read == old(read) || fresh(read)) && pack[..got] == old(pack[..got])
      ensures read[..have] == old(read[headpos + 1..headpos + 1 + HEADLEN]) + pack[..got]
    {
      ghost var head := read[headpos + 1..headpos + 1 + HEADLEN];
      if read.Length < HEADLEN + next.datalen + 1 {
        read := Realloc(read, HEADLEN + next.datalen + 1);
      }
      Copy(read, 0, read[headpos + 1..headpos + 1 + HEADLEN]);
      assert read[..HEADLEN] == head;
      Copy(read, HEADLEN, pack[..next.datalen + 1]);
      have := HEADLEN + next.datalen + 1;
    }

    /** The whole packet goes. */
    method StepOver()
      requires Valid() && parsed && got == next.datalen + 1
      modifies this`have, this`parsed, read
      ensures Valid() && !parsed
      ensures Pending() == old(Pending())[HEADLEN + next.datalen + 2..]
    {
      if have - headpos - 1 - HEADLEN >= next.datalen + 1 {
        WholeFront(c, read[headpos..have], next, pack[..got]);
        DropFront(HEADLEN + next.datalen + 2);
      } else {
        have := 0;
      }
      parsed := false;
    }

    /** An incomplete packet, or less than the shortest frame, holds no frame. */
    lemma NothingMore()
      requires Valid() && Waiting() && (parsed || have < HEADLEN + 2)
      ensures Scan(c, Pending()).frames == []
    {
      if parsed {
        Incomplete(c, read[headpos..have], next, pack[..got]);
      } else {
        ScanShort(c, Pending());
      }
    }

    /** One pass of the receive loop. With `wait` it ends the call. */
    method Pass(data: seq<byte>, iret: int) returns (iret': int, wait: bool, fs: seq<Frame>)
      requires Valid() && Waiting() && 0 <= iret <= |data| && (iret < |data| || have >= HEADLEN + 2)
      modifies this`have, this`headpos, this`parsed, this`next, this`got, this`pack, this`read, read, pack
      ensures Valid() && (read == old(read) || fresh(read)) && (pack == old(pack) || fresh(pack))
      ensures Waiting() && iret <= iret' <= |data| && (wait ==> parsed && iret' == |data|)
      ensures Scan(c, old(Pending()) + data[iret..]) == Prepend(fs, Scan(c, Pending() + data[iret'..]))
      ensures !wait ==> |Pending()| - iret' < |old(Pending())| - iret ||
                        (|Pending()| - iret' == |old(Pending())| - iret && iret < iret')
    {
      iret', wait, fs := iret, false, [];
      if !parsed {
        var retry;
        iret', retry := ParseHead(data, iret);
        if retry {
          PrependNothing(Scan(c, Pending() + data[iret'..]));
          return;
        }
      }
      iret', wait := TakeData(data, iret');
      if wait {
        PrependNothing(Scan(c, Pending() + data[iret'..]));
      } else {
        fs := Finish(data[iret'..]);
      }
    }

    /** recvdata: the frames handed out are those that stand in the bytes received, the pending ones and the new, and
        what stays behind reads on the same way. */
    method Recv(data: seq<byte>) returns (fs: seq<Frame>)
      requires Valid() && Waiting()
      modifies this`have, this`headpos, this`parsed, this`next, this`got, this`pack, this`read, read, pack
      ensures Valid() && Waiting() && (read == old(read) || fresh(read)) && (pack == old(pack) || fresh(pack))
      ensures Scan(c, old(Pending()) + data) == Prepend(fs, Scan(c, Pending()))
      ensures Scan(c, Pending()).frames == []
      ensures if c.tail < 128 then Delivers(c, old(Pending()) + data, fs) else fs == []
    {
      var iret, wait := 0, false;
      fs := [];
      ghost var was := Scan(c, Pending() + data);
      assert Pending() + data == Pending() + data[0..];
      PrependNothing(was);
      while !wait && (iret < |data| || have >= HEADLEN + 2)
        invariant 0 <= iret <= |data|
        invariant Valid() && (read == old(read) || fresh(read)) && (pack == old(pack) || fresh(pack))
        invariant Waiting() && (wait ==> parsed && iret == |data|)
        invariant was == Prepend(fs, Scan(c, Pending() + data[iret..]))
        decreases !wait, |Pending()| + |data| - iret, |data| - iret
      {
        var found: seq<Frame>;
        iret, wait, found := Pass(data, iret);
        PrependTwice(fs, found, Scan(c, Pending() + data[iret..]));
        fs := fs + found;
      }
      assert Pending() + data[iret..] == Pending();
      NothingMore();
      NothingAhead(fs, Scan(c, Pending()));
      ScanDelivers(c, old(Pending()) + data);
    }
  }

  lemma NothingAhead(fs: seq<Frame>, r: Scanned)
    requires r.frames == []
    ensures Prepend(fs, r).frames == fs
  {
  }

  // ---------- the two buffers as one stream ----------

  /** `front` is the read buffer from the head byte on, `data` what has been taken of the packet's data and
      tail byte, from the read buffer first and then directly from the caller. */
  predicate PartlyRead(c: Config, front: seq<byte>, h: Header, data: seq<byte>) {
    && |front| >= 1 + HEADLEN && front[0] == c.head && h == HeaderOf(c, front) && HeaderFits(c, h)
    && |data| <= h.datalen + 1
    && (if |data| < |front| - 1 - HEADLEN then |data| == h.datalen + 1 && data <= front[1 + HEADLEN..]
        else front[1 + HEADLEN..] <= data)
  }

  function Joined(front: seq<byte>, data: seq<byte>): seq<byte>
    requires |front| >= 1 + HEADLEN
  {
    if |data| < |front| - 1 - HEADLEN then front else front[..1 + HEADLEN] + data
  }

  lemma JoinedTail(front: seq<byte>, data: seq<byte>)
    requires |front| >= 1 + HEADLEN && |data| >= |front| - 1 - HEADLEN
    ensures Joined(front, data)[1..] == front[1..1 + HEADLEN] + data
  {
  }

  /** If the read buffer holds the packet, it holds all that is pending. */
  lemma WholeFront(c: Config, front: seq<byte>, h: Header, data: seq<byte>)
    requires PartlyRead(c, front, h, data) && |data| <= |front| - 1 - HEADLEN
    ensures Joined(front, data) == front
  {
    assert front == front[..1 + HEADLEN] + front[1 + HEADLEN..];
  }

  lemma TakenOver(c: Config, front: seq<byte>, h: Header, got: int)
    requires |front| >= 1 + HEADLEN && front[0] == c.head && h == HeaderOf(c, front) && HeaderFits(c, h)
    requires got == if |front| - 1 - HEADLEN < h.datalen + 1 then |front| - 1 - HEADLEN else h.datalen + 1
    ensures PartlyRead(c, front, h, front[1 + HEADLEN..1 + HEADLEN + got])
    ensures Joined(front, front[1 + HEADLEN..1 + HEADLEN + got]) == front
  {
    assert front == front[..1 + HEADLEN] + front[1 + HEADLEN..];
  }

  lemma SliceOfSlice<T>(s: seq<T>, lo: int, hi: int, i: int, j: int)
    requires 0 <= lo <= hi <= |s| && 0 <= i <= j <= hi - lo
    ensures s[lo..hi][i..j] == s[lo + i..lo + j]
  {
    assert forall k :: 0 <= k < j - i ==> s[lo..hi][i..j][k] == s[lo..hi][i + k] == s[lo + i..lo + j][k];
  }

  lemma MoreData(c: Config, front: seq<byte>, h: Header, data: seq<byte>, more: seq<byte>)
    requires PartlyRead(c, front, h, data) && |data| < h.datalen + 1 && |data| + |more| <= h.datalen + 1
    ensures PartlyRead(c, front, h, data + more)
    ensures Joined(front, data + more) == Joined(front, data) + more
  {
  }

  lemma Regroup<T>(a: seq<T>, data: seq<T>, i: int, j: int)
    requires 0 <= i <= j <= |data|
    ensures (a + data[i..j]) + data[j..] == a + data[i..]
  {
    assert data[i..] == data[i..j] + data[j..];
  }

  /** memcpy from elsewhere. */
  method Copy(a: array<byte>, at: int, bytes: seq<byte>)
    requires 0 <= at && at + |bytes| <= a.Length
    modifies a
    ensures a[..at] == old(a[..at]) && a[at..at + |bytes|] == bytes
    ensures a[..at + |bytes|] == old(a[..at]) + bytes
  {
    forall i | 0 <= i < |bytes| {
      a[at + i] := bytes[i];
    }
  }

  /** What the reference scan does with a complete packet at the front. */
  lemma Complete(c: Config, front: seq<byte>, h: Header, data: seq<byte>, rest: seq<byte>)
    requires PartlyRead(c, front, h, data) && |data| == h.datalen + 1
    ensures |Joined(front, data)| >= HEADLEN + h.datalen + 2
    ensures var all := Joined(front, data);
            Scan(c, all + rest) ==
            if TailFits(c, data[h.datalen]) then
              Prepend([Frame(h, data[..h.datalen])], Scan(c, all[HEADLEN + h.datalen + 2..] + rest))
            else Scan(c, all[1..] + rest)
  {
    var all, n := Joined(front, data), h.datalen;
    assert all[1..1 + HEADLEN] == front[1..1 + HEADLEN];
    assert all[1 + HEADLEN..HEADLEN + n + 2] == data;
    assert all[1 + HEADLEN + n] == data[n] && all[1 + HEADLEN..1 + HEADLEN + n] == data[..n];
    CompleteAhead(c, all, h, rest);
  }

  /** The same in terms of the bytes at the front of a stream. */
  lemma CompleteAhead(c: Config, all: seq<byte>, h: Header, rest: seq<byte>)
    requires |all| >= 1 + HEADLEN && all[0] == c.head && h == HeaderOf(c, all) && HeaderFits(c, h)
    requires |all| >= HEADLEN + h.datalen + 2
    ensures Scan(c, all + rest) ==
            if TailFits(c, all[1 + HEADLEN + h.datalen]) then
              Prepend([Frame(h, all[1 + HEADLEN..1 + HEADLEN + h.datalen])], Scan(c, all[HEADLEN + h.datalen + 2..] + rest))
            else Scan(c, all[1..] + rest)
  {
    var n := h.datalen;
    SettledStays(c, all, rest);
    assert (all + rest)[1 + HEADLEN + n] == all[1 + HEADLEN + n];
    assert (all + rest)[1 + HEADLEN..1 + HEADLEN + n] == all[1 + HEADLEN..1 + HEADLEN + n];
    assert (all + rest)[1..] == all[1..] + rest;
    assert (all + rest)[HEADLEN + n + 2..] == all[HEADLEN + n + 2..] + rest;
  }

  lemma Incomplete(c: Config, front: seq<byte>, h: Header, data: seq<byte>)
    requires PartlyRead(c, front, h, data) && |data| < h.datalen + 1
    ensures Scan(c, Joined(front, data)) == Scanned([], Joined(front, data))
  {
    assert Joined(front, data)[1..1 + HEADLEN] == front[1..1 + HEADLEN];
    ScanUnsettled(c, Joined(front, data));
  }

  lemma SkipToHead(c: Config, all: seq<byte>, pos: int, rest: seq<byte>)
    requires 0 <= pos < |all| && c.head !in all[..pos]
    ensures Scan(c, all + rest) == Scan(c, all[pos..] + rest)
  {
    ScanSkip(c, all[..pos], all[pos..] + rest);
    assert all + rest == all[..pos] + (all[pos..] + rest);
  }

  /** A head byte followed by an ill-fitting header is passed over. */
  lemma BadHeader(c: Config, front: seq<byte>, rest: seq<byte>)
    requires |front| >= 1 + HEADLEN && front[0] == c.head && !HeaderFits(c, HeaderOf(c, front))
    ensures Scan(c, front + rest) == Scan(c, front[1..] + rest)
  {
    SettledStays(c, front, rest);
    assert (front + rest)[1..] == front[1..] + rest;
  }

  /** A larger buffer with the same contents at its front. */
  method Realloc(a: array<byte>, n: int) returns (b: array<byte>)
    requires a.Length <= n
    ensures fresh(b) && b.Length == n && b[..a.Length] == a[..]
  {
    b := new byte[n];
    forall i | 0 <= i < a.Length {
      b[i] := a[i];
    }
  }

  function Flatten(chunks: seq<seq<byte>>): seq<byte> {
    if chunks == [] then [] else Flatten(chunks[..|chunks| - 1]) + chunks[|chunks| - 1]
  }

  lemma FlattenNext(chunks: seq<seq<byte>>, i: int)
    requires 0 <= i < |chunks|
    ensures Flatten(chunks[..i + 1]) == Flatten(chunks[..i]) + chunks[i]
  {
    assert chunks[..i + 1][..i] == chunks[..i];
  }

  /** A whole connection: however the bytes are cut into calls, the frames are those that stand in all of them, as the
      reference scan finds them. */
  method RecvAll(c: Config, chunks: seq<seq<byte>>) returns (fs: seq<Frame>)
    ensures fs == Scan(c, Flatten(chunks)).frames
    ensures if c.tail < 128 then Delivers(c, Flatten(chunks), fs) else fs == []
  {
    var d := new PacketSync(c);
    fs := [];
    PrependNothing(Scan(c, []));
    for i := 0 to |chunks|
      invariant d.Valid() && d.Waiting() && fresh(d) && fresh(d.read) && fresh(d.pack) && d.c == c
      invariant Scan(c, Flatten(chunks[..i])) == Prepend(fs, Scan(c, d.Pending()))
      invariant Scan(c, d.Pending()).frames == []
    {
      ghost var before, was := d.Pending(), fs;
      var more := d.Recv(chunks[i]);
      fs := fs + more;
      FlattenNext(chunks, i);
      OneMore(c, Flatten(chunks[..i]), was, before, chunks[i], more, d.Pending());
    }
    assert chunks[..|chunks|] == chunks;
    ScanDelivers(c, Flatten(chunks));
  }

  lemma OneMore(c: Config, all: seq<byte>, fs: seq<Frame>, before: seq<byte>, chunk: seq<byte>, more: seq<Frame>,
                after: seq<byte>)
    requires Scan(c, all) == Prepend(fs, Scan(c, before)) && Scan(c, before).frames == []
    requires Scan(c, before + chunk) == Prepend(more, Scan(c, after))
    ensures Scan(c, all + chunk) == Prepend(fs + more, Scan(c, after))
  {
    var rest := Scan(c, before).rest;
    assert Scan(c, all) == Scanned(fs, rest) && Scan(c, before) == Scanned([], rest);
    ContinueScan(c, all, fs, rest, chunk);
    ContinueScan(c, before, [], rest, chunk);
    PrependNothing(Scan(c, rest + chunk));
    PrependTwice(fs, more, Scan(c, after));
  }

  lemma ContinueScan(c: Config, all: seq<byte>, fs: seq<Frame>, rest: seq<byte>, chunk: seq<byte>)
    requires Scan(c, all) == Scanned(fs, rest)
    ensures Scan(c, all + chunk) == Prepend(fs, Scan(c, rest + chunk))
  {
    ScanInPieces(c, all, chunk);
  }
}
