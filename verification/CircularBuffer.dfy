/** The circular buffer between driver and client, and the two copies in and out of it. */
module CircularBuffer {
  import opened Cyclic
  import opened StreamLayout
  import opened RawRecord

  /** The byte at stream position x. */
  function At(buf: seq<Byte>, x: nat): Byte
    requires |buf| > 0
  {
    buf[x % |buf|]
  }

  /** n bytes from stream position x on. */
  function Read(buf: seq<Byte>, x: nat, n: nat): (bs: seq<Byte>)
    requires |buf| > 0
    ensures |bs| == n
  {
    seq(n, (i: nat) => At(buf, x + i))
  }

  /** The buffer after the bytes bs went to stream position x. */
  function Write(buf: seq<Byte>, x: nat, bs: seq<Byte>): (out: seq<Byte>)
    requires |buf| > 0 && |bs| <= |buf|
    ensures |out| == |buf|
  {
    seq(|buf|, (j: nat) requires j < |buf| =>
      var i := Distance(x % |buf|, j, |buf|);
      if i < |bs| then bs[i] else buf[j])
  }

  lemma {:induction false} WrittenByte(buf: seq<Byte>, x: nat, bs: seq<Byte>, y: nat)
    requires |buf| > 0 && |bs| <= |buf| && x <= y < x + |buf|
    ensures At(Write(buf, x, bs), y) == if y - x < |bs| then bs[y - x] else At(buf, y)
  {
    DistanceOfPositions(x, y, |buf|);
  }

  /** The same for a position before x but less than a lap behind its end. */
  lemma {:induction false} ByteBefore(buf: seq<Byte>, x: nat, bs: seq<Byte>, y: nat)
    requires |buf| > 0 && |bs| <= |buf| && y < x && x + |bs| <= y + |buf|
    ensures At(Write(buf, x, bs), y) == At(buf, y)
  {
    AddPeriod(y, |buf|);
    WrittenByte(buf, x, bs, y + |buf|);
  }

  lemma WriteWrapped(buf: seq<Byte>, x: nat, bs: seq<Byte>)
    requires |buf| > 0 && |bs| <= |buf|
    ensures Write(buf, x % |buf|, bs) == Write(buf, x, bs)
  {
    DivModUnique(x % |buf|, 0, x % |buf|, |buf|);
  }

  /** Two writes one after the other are one write of both. */
  lemma {:induction false} WriteTwice(buf: seq<Byte>, x: nat, a: seq<Byte>, b: seq<Byte>)
    requires |buf| > 0 && |a| + |b| <= |buf|
    ensures Write(Write(buf, x, a), x + |a|, b) == Write(buf, x, a + b)
  {
    var n := |buf|;
    var once, twice := Write(buf, x, a + b), Write(Write(buf, x, a), x + |a|, b);
    forall j | 0 <= j < n ensures twice[j] == once[j] {
      var y := x + Distance(x % n, j, n);
      OffsetAhead(x, j, n);
      assert At(once, y) == once[j] && At(twice, y) == twice[j];
      WrittenByte(buf, x, a + b, y);
      WrittenByte(buf, x, a, y);
      if y < x + |a| {
        ByteBefore(Write(buf, x, a), x + |a|, b, y);
      } else {
        WrittenByte(Write(buf, x, a), x + |a|, b, y);
      }
    }
  }

  lemma OffsetAhead(x: nat, j: nat, n: nat)
    requires j < n
    ensures (x + Distance(x % n, j, n)) % n == j
    ensures Distance(x % n, j, n) < n
  {
    var d := Distance(x % n, j, n);
    AddWrapped(x, d, n);
    if x % n <= j {
      DivModUnique(j, 0, j, n);
    } else {
      DivModUnique(n + j, 1, j, n);
    }
  }

  // ----- Block copies -----

  /** `memcpy` of bs to dst + at. */
  function Overlay(dst: seq<Byte>, at: nat, bs: seq<Byte>): (out: seq<Byte>)
    requires at + |bs| <= |dst|
    ensures |out| == |dst|
  {
    dst[..at] + bs + dst[at + |bs|..]
  }

  method Memcpy(dst: array<Byte>, at: nat, bs: seq<Byte>)
    requires at + |bs| <= dst.Length
    modifies dst
    ensures dst[..] == Overlay(old(dst[..]), at, bs)
  {
    forall i | 0 <= i < |bs| {
      dst[at + i] := bs[i];
    }
  }

  // ----- Driver side -----

  lemma WriteIndex(buf: seq<Byte>, off: nat, bs: seq<Byte>, j: nat)
    requires off < |buf| && |bs| <= |buf| && j < |buf|
    ensures Write(buf, off, bs)[j] ==
              if off <= j < off + |bs| then bs[j - off]
              else if j + |buf| < off + |bs| then bs[j + |buf| - off]
              else buf[j]
  {
    DivModUnique(off, 0, off, |buf|);
  }

  lemma {:induction false} WriteByBlocks(buf: seq<Byte>, off: nat, bs: seq<Byte>)
    requires off < |buf| && |bs| <= |buf|
    ensures Write(buf, off, bs) ==
              if off + |bs| > |buf| then
                Overlay(Overlay(buf, off, bs[..|buf| - off]), 0, bs[|buf| - off..])
              else Overlay(buf, off, bs)
  {
    hide Write;
    var n, m := |buf|, |bs|;
    forall j | 0 <= j < n
      ensures Write(buf, off, bs)[j] ==
                if off <= j < off + m then bs[j - off]
                else if j + n < off + m then bs[j + n - off]
                else buf[j]
    {
      WriteIndex(buf, off, bs, j);
    }
    if off + m > n {
      OverlayTwice(buf, off, bs);
    }
  }

  lemma OverlayAt(dst: seq<Byte>, at: nat, bs: seq<Byte>, j: nat)
    requires at + |bs| <= |dst| && j < |dst|
    ensures Overlay(dst, at, bs)[j] == if at <= j < at + |bs| then bs[j - at] else dst[j]
  {
  }

  lemma OverlayTwice(buf: seq<Byte>, off: nat, bs: seq<Byte>)
    requires off < |buf| && |buf| < off + |bs| && |bs| <= |buf|
    ensures forall j :: 0 <= j < |buf| ==>
              Overlay(Overlay(buf, off, bs[..|buf| - off]), 0, bs[|buf| - off..])[j] ==
                if off <= j then bs[j - off]
                else if j + |buf| < off + |bs| then bs[j + |buf| - off]
                else buf[j]
  {
    var aux := |buf| - off;
    forall j | 0 <= j < |buf|
      ensures Overlay(Overlay(buf, off, bs[..aux]), 0, bs[aux..])[j] ==
                if off <= j then bs[j - off]
                else if j + |buf| < off + |bs| then bs[j + |buf| - off]
                else buf[j]
    {
      OverlayAt(buf, off, bs[..aux], j);
      OverlayAt(Overlay(buf, off, bs[..aux]), 0, bs[aux..], j);
    }
  }

  /** `copy_to_circular_buffer`: its one or two block copies put every byte in its place. */
  method CopyToCircularBuffer(dst: array<Byte>, dstOffset: nat, src: seq<Byte>) returns (newOffset: nat)
    requires dstOffset < dst.Length && |src| <= dst.Length
    modifies dst
    ensures dst[..] == Write(old(dst[..]), dstOffset, src)
    ensures newOffset == (dstOffset + |src|) % dst.Length
  {
    WriteByBlocks(dst[..], dstOffset, src);
    if dstOffset + |src| > dst.Length {
      var aux := dst.Length - dstOffset;
      Memcpy(dst, dstOffset, src[..aux]);
      Memcpy(dst, 0, src[aux..]);
    } else {
      Memcpy(dst, dstOffset, src);
    }
    newOffset := (dstOffset + |src|) % dst.Length;
  }

  // ----- Client side -----

  /** What `copy_from_circ_buffer` leaves in its destination.  The second block copy of a wrapped
      range goes to the start of the destination; its comment asks for the place after the first. */
  function CopiedOut(reading: Reading, src: seq<Byte>, srcOffset: nat, dst: seq<Byte>, n: nat): (out: seq<Byte>)
    requires srcOffset < |src| && n <= |src| && n <= |dst|
    ensures |out| == |dst|
  {
    if srcOffset + n > |src| then
      var aux := |src| - srcOffset;
      Overlay(Overlay(dst, 0, src[srcOffset..]), if reading.AsCoded? then 0 else aux, src[..n - aux])
    else Overlay(dst, 0, src[srcOffset..srcOffset + n])
  }

  method CopyFromCircBuffer(reading: Reading, src: array<Byte>, srcOffset: nat, dst: array<Byte>, toCopy: nat)
    returns (newOffset: nat)
    requires src != dst && srcOffset < src.Length && toCopy <= src.Length && toCopy <= dst.Length
    modifies dst
    ensures dst[..] == CopiedOut(reading, src[..], srcOffset, old(dst[..]), toCopy)
    ensures newOffset == (srcOffset + toCopy) % src.Length
  {
    hide Overlay;
    if srcOffset + toCopy > src.Length {
      var aux := src.Length - srcOffset;
      Memcpy(dst, 0, src[srcOffset..]);
      Memcpy(dst, if reading.AsCoded? then 0 else aux, src[..toCopy - aux]);
      newOffset := toCopy - aux;
      DivModUnique(srcOffset + toCopy, 1, toCopy - aux, src.Length);
    } else {
      Memcpy(dst, 0, src[srcOffset..srcOffset + toCopy]);
      newOffset := (srcOffset + toCopy) % src.Length;
    }
  }

  lemma {:induction false} ReadAcrossEnd(src: seq<Byte>, off: nat, n: nat)
    requires off < |src| && n <= |src|
    ensures Read(src, off, n) ==
              if off + n > |src| then src[off..] + src[..n - (|src| - off)] else src[off..off + n]
  {
    var out := if off + n > |src| then src[off..] + src[..n - (|src| - off)] else src[off..off + n];
    forall i | 0 <= i < n ensures Read(src, off, n)[i] == out[i] {
      assert Read(src, off, n)[i] == At(src, off + i);
      if off + i < |src| {
        DivModUnique(off + i, 0, off + i, |src|);
      } else {
        DivModUnique(off + i, 1, off + i - |src|, |src|);
      }
    }
  }

  /** The copy delivers the bytes of the range. */
  ghost predicate CopiesRange(reading: Reading, src: seq<Byte>, off: nat, dst: seq<Byte>, n: nat)
    requires off < |src| && n <= |src| && n <= |dst|
  {
    CopiedOut(reading, src, off, dst, n)[..n] == Read(src, off, n)
  }

  /** The copy of a range is right for every content of the buffer exactly when the range does not
      wrap (or the destination of the second block is the documented one). */
  lemma {:induction false} CopyRightIffNoWrap(reading: Reading, size: nat, off: nat, n: nat)
    requires off < size && n <= size
    ensures (forall src: seq<Byte>, dst: seq<Byte> | |src| == size && |dst| >= n ::
               CopiesRange(reading, src, off, dst, n))
            <==> reading.AsDocumented? || off + n <= size
  {
    if reading.AsDocumented? || off + n <= size {
      forall src: seq<Byte>, dst: seq<Byte> | |src| == size && |dst| >= n
        ensures CopiesRange(reading, src, off, dst, n)
      {
        CopyRight(reading, src, off, dst, n);
      }
    } else {
      var src: seq<Byte> := seq(size, (i: nat) => if i < off then 0 else 1);
      var dst: seq<Byte> := seq(n, (i: nat) => 0);
      ReadAcrossEnd(src, off, n);
      assert Read(src, off, n)[0] == 1;
      assert CopiedOut(reading, src, off, dst, n)[0] == src[0] == 0;
      assert !CopiesRange(reading, src, off, dst, n);
    }
  }

  lemma {:induction false} CopyRight(reading: Reading, src: seq<Byte>, off: nat, dst: seq<Byte>, n: nat)
    requires off < |src| && n <= |src| && n <= |dst|
    requires reading.AsDocumented? || off + n <= |src|
    ensures CopiesRange(reading, src, off, dst, n)
  {
    ReadAcrossEnd(src, off, n);
  }
}
