/** The ring buffer between the caller of Send and the loop thread, with its two flags. */
module RingBuffer {
  import opened Basics

  class RingBuffer<T(0)> {
    const buf: array<T>
    var readPos: int
    var writePos: int
    var empty: bool
    var full: bool

    constructor (capacity: nat)
      ensures Valid() && Contents() == [] && buf.Length == capacity && fresh(buf)
    {
      buf := new T[capacity];
      readPos, writePos, empty, full := 0, 0, true, false;
    }

    predicate Valid()
      reads this
    {
      && InRange(readPos) && InRange(writePos)
      && !(empty && full) && (empty || full <==> readPos == writePos)
    }

    predicate InRange(pos: int) {
      0 <= pos < buf.Length || (pos == 0 && buf.Length == 0)
    }

    /** What has been written and not yet read, oldest first. */
    ghost function Contents(): seq<T>
      requires Valid()
      reads this, buf
    {
      if empty then [] else Held(buf[..], readPos, writePos)
    }

    function Size(): (n: int)
      requires Valid()
      reads this, buf
      ensures n == |Contents()|
    {
      if empty then 0
      else if full then buf.Length
      else if readPos < writePos then writePos - readPos
      else buf.Length - readPos + writePos
    }

    /** The flags tell the truth about the contents (a buffer of no capacity is full once written to). */
    lemma Flags()
      requires Valid()
      ensures |Contents()| <= buf.Length
      ensures empty ==> Contents() == []
      ensures full ==> |Contents()| == buf.Length
      ensures buf.Length > 0 ==> (empty <==> Contents() == []) && (full <==> |Contents()| == buf.Length)
    {
    }

    method Clear()
      requires Valid()
      modifies this
      ensures Valid() && Contents() == []
    {
      readPos, writePos, empty, full := 0, 0, true, false;
    }

    method CopyIn(pos: int, xs: seq<T>)
      requires 0 <= pos && pos + |xs| <= buf.Length
      modifies buf
      ensures buf[..] == Patched(old(buf[..]), pos, xs)
    {
      forall i | 0 <= i < |xs| {
        buf[pos + i] := xs[i];
      }
    }

    method CopyOut(pos: int, n: int) returns (xs: seq<T>)
      requires 0 <= pos && 0 <= n && pos + n <= buf.Length
      ensures xs == buf[..][pos..pos + n]
    {
      xs := buf[pos..pos + n];
    }

    /** Appends the first of the given items, as many as there is room for. */
    method Write(items: seq<T>, count: int) returns (n: int)
      requires Valid() && count <= |items|
      modifies this`writePos, this`empty, this`full, buf
      ensures Valid() && n == Least(if count < 0 then 0 else count, buf.Length - |old(Contents())|)
      ensures 0 <= n <= |items| && Contents() == old(Contents()) + items[..n]
    {
      if count <= 0 {
        return 0;
      }
      if full {
        return 0;
      }
      empty := false;
      if readPos == writePos {
        n := WriteEmpty(items, count);
      } else if readPos < writePos {
        n := WriteAround(items, count);
      } else {
        n := WriteGap(items, count);
      }
    }

    method WriteEmpty(items: seq<T>, count: int) returns (n: int)
      requires InRange(readPos) && writePos == readPos && !empty && !full && 0 < count <= |items|
      modifies this`writePos, this`full, buf
      ensures Valid() && n == Least(count, buf.Length) && Contents() == items[..n]
    {
      ghost var b, w := buf[..], writePos;
      var left := buf.Length - writePos;
      if left > count {
        CopyIn(writePos, items[..count]);
        writePos := writePos + count;
        Extended(b, readPos, w, items[..count]);
        return count;
      } else {
        CopyAround(items, left, if readPos > count - left then count - left else writePos);
        full := writePos == readPos;
        return left + writePos;
      }
    }

    method WriteAround(items: seq<T>, count: int) returns (n: int)
      requires Valid() && readPos < writePos && 0 < count <= |items|
      modifies this`writePos, this`full, buf
      ensures Valid() && n == Least(count, buf.Length - |old(Contents())|)
      ensures Contents() == old(Contents()) + items[..n]
    {
      ghost var b, w := buf[..], writePos;
      var left := buf.Length - writePos;
      if left > count {
        CopyIn(writePos, items[..count]);
        writePos := writePos + count;
        full := readPos == writePos;
        Extended(b, readPos, w, items[..count]);
        return count;
      } else {
        CopyAround(items, left, if readPos >= count - left then count - left else readPos);
        full := readPos == writePos;
        return left + writePos;
      }
    }

    /** Writes to the end of the array and on from its start. */
    method CopyAround(items: seq<T>, left: int, again: int)
      requires 0 <= readPos <= writePos && writePos + left == buf.Length
      requires 0 <= left && 0 <= again <= readPos && left + again <= |items|
      modifies this`writePos, buf
      ensures writePos == again
      ensures Held(buf[..], readPos, writePos) == old(buf[readPos..writePos]) + items[..left + again]
    {
      Wrapped(buf[..], readPos, writePos, items[..left], items[left..left + again]);
      TakeTwice(items, left, left + again);
      CopyIn(writePos, items[..left]);
      writePos := again;
      CopyIn(0, items[left..left + again]);
    }

    method WriteGap(items: seq<T>, count: int) returns (n: int)
      requires Valid() && writePos < readPos && 0 < count <= |items|
      modifies this`writePos, this`full, buf
      ensures Valid() && n == Least(count, buf.Length - |old(Contents())|)
      ensures Contents() == old(Contents()) + items[..n]
    {
      ghost var b, w := buf[..], writePos;
      var left := readPos - writePos;
      if left > count {
        CopyIn(writePos, items[..count]);
        writePos := writePos + count;
        full := readPos == writePos;
        InGap(b, readPos, w, items[..count]);
        return count;
      } else {
        CopyIn(writePos, items[..left]);
        InGap(b, readPos, w, items[..left]);
        writePos := writePos + left;
        full := readPos == writePos;
        assert full;
        return left;
      }
    }

    /** Takes the oldest items, as many as there are. */
    method Read(count: int) returns (items: seq<T>)
      requires Valid()
      modifies this`readPos, this`empty, this`full
      ensures Valid() && |items| == Least(if count < 0 then 0 else count, |old(Contents())|)
      ensures old(Contents()) == items + Contents()
    {
      if count <= 0 {
        return [];
      }
      if empty {
        return [];
      }
      full := false;
      if readPos == writePos {
        var left := buf.Length - readPos;
        if left > count {
          items := ReadOn(count);
        } else {
          items := ReadAround(if writePos > count - left then count - left else writePos);
        }
      } else if readPos < writePos {
        var left := writePos - readPos;
        items := ReadFront(if left > count then count else left);
      } else {
        var left := buf.Length - readPos;
        if left > count {
          items := ReadOn(count);
        } else {
          items := ReadAround(if writePos >= count - left then count - left else writePos);
        }
      }
    }

    /** Reads from items that lie in one piece. */
    method ReadFront(n: int) returns (items: seq<T>)
      requires InRange(readPos) && InRange(writePos) && readPos < writePos && !empty && !full
      requires 0 < n <= writePos - readPos
      modifies this`readPos, this`empty
      ensures Valid() && |items| == n && Held(buf[..], old(readPos), writePos) == items + Contents()
    {
      items := CopyOut(readPos, n);
      FromFront(buf[..], readPos, writePos, n);
      readPos := readPos + n;
      empty := readPos == writePos;
    }

    /** Reads without reaching the end of the array. */
    method ReadOn(count: int) returns (items: seq<T>)
      requires InRange(readPos) && InRange(writePos) && writePos <= readPos && !empty && !full
      requires 0 < count < buf.Length - readPos
      modifies this`readPos, this`empty
      ensures Valid() && |items| == count && Held(buf[..], old(readPos), writePos) == items + Contents()
    {
      items := CopyOut(readPos, count);
      FromTop(buf[..], readPos, writePos, count);
      readPos := readPos + count;
      empty := readPos == writePos;
    }

    /** Reads to the end of the array and on from its start. */
    method ReadAround(again: int) returns (items: seq<T>)
      requires InRange(readPos) && InRange(writePos) && writePos <= readPos && !empty && !full
      requires 0 <= again <= writePos
      modifies this`readPos, this`empty
      ensures Valid() && |items| == buf.Length - old(readPos) + again
      ensures Held(buf[..], old(readPos), writePos) == items + Contents()
    {
      var left := buf.Length - readPos;
      items := CopyOut(readPos, left);
      var more := CopyOut(0, again);
      Around(buf[..], readPos, writePos, again);
      WholeSlices(buf[..], readPos, again);
      readPos := again;
      items := items + more;
      empty := readPos == writePos;
    }
  }

  // ---------- the array as a value ----------

  /** The items held when the buffer is not empty. */
  function Held<T>(b: seq<T>, r: int, w: int): seq<T>
    requires 0 <= r <= |b| && 0 <= w <= |b|
  {
    if r < w then b[r..w] else b[r..] + b[..w]
  }

  function Patched<T>(b: seq<T>, pos: int, xs: seq<T>): (c: seq<T>)
    requires 0 <= pos && pos + |xs| <= |b|
    ensures |c| == |b|
  {
    b[..pos] + xs + b[pos + |xs|..]
  }

  lemma Extended<T>(b: seq<T>, r: int, w: int, xs: seq<T>)
    requires 0 <= r <= w && w + |xs| <= |b| && xs != []
    ensures Held(Patched(b, w, xs), r, w + |xs|) == b[r..w] + xs
  {
  }

  lemma Wrapped<T>(b: seq<T>, r: int, w: int, xs: seq<T>, ys: seq<T>)
    requires 0 <= r <= w && w + |xs| == |b| && |ys| <= r
    ensures Held(Patched(Patched(b, w, xs), 0, ys), r, |ys|) == b[r..w] + (xs + ys)
  {
    PatchedTop(b, w, xs, r);
    PatchedBottom(Patched(b, w, xs), ys, r);
    Associates(b[r..w], xs, ys);
  }

  lemma TakeTwice<T>(s: seq<T>, i: int, j: int)
    requires 0 <= i <= j <= |s|
    ensures s[..i] + s[i..j] == s[..j]
  {
  }

  lemma PatchedTop<T>(b: seq<T>, w: int, xs: seq<T>, r: int)
    requires 0 <= r <= w && w + |xs| == |b|
    ensures Patched(b, w, xs)[r..] == b[r..w] + xs
  {
  }

  lemma PatchedBottom<T>(b: seq<T>, ys: seq<T>, r: int)
    requires |ys| <= r <= |b|
    ensures Patched(b, 0, ys)[r..] == b[r..] && Patched(b, 0, ys)[..|ys|] == ys
  {
  }

  lemma InGap<T>(b: seq<T>, r: int, w: int, xs: seq<T>)
    requires 0 <= w < r <= |b| && w + |xs| <= r
    ensures Held(Patched(b, w, xs), r, w + |xs|) == Held(b, r, w) + xs
  {
    var c := Patched(b, w, xs);
    assert c[r..] == b[r..] && c[..w + |xs|] == b[..w] + xs;
  }

  lemma FromFront<T>(b: seq<T>, r: int, w: int, n: int)
    requires 0 <= r < w <= |b| && 0 <= n <= w - r
    ensures Held(b, r, w) == b[r..r + n] + (if r + n == w then [] else Held(b, r + n, w))
  {
  }

  lemma FromTop<T>(b: seq<T>, r: int, w: int, n: int)
    requires 0 <= w <= r && 0 <= n && r + n <= |b|
    ensures Held(b, r, w) == b[r..r + n] + (b[r + n..] + b[..w])
  {
  }

  lemma WholeSlices<T>(b: seq<T>, r: int, w: int)
    requires 0 <= r <= |b| && 0 <= w <= |b|
    ensures b[r..r + (|b| - r)] == b[r..] && b[0..0 + w] == b[..w]
  {
  }

  lemma Around<T>(b: seq<T>, r: int, w: int, again: int)
    requires 0 <= w <= r <= |b| && 0 <= again <= w
    ensures Held(b, r, w) == (b[r..] + b[..again]) + (if again == w then [] else Held(b, again, w))
  {
  }

  function Least(a: int, b: int): int {
    if a < b then a else b
  }
}
