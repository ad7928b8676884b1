/** Several threads copying into the buffer at once: once all copies have finished, the buffer is the same in
    whatever order, and in whatever pieces, the bytes were written. */
module WriteOrder {
  import opened Cyclic
  import opened StreamLayout
  import opened FileLayout
  import opened RawRecord
  import opened CircularBuffer
  import opened ByteStream
  import opened RxWriter
  import opened FrameLog
  import opened RxLoop
  import RC = RxCalls

  // ----- Lists of block writes -----

  predicate Covers(put: Put, y: nat) {
    put.pos <= y < put.End()
  }

  /** The writes lie in [low, low + size), one lap of the buffer. */
  ghost predicate InWindow(puts: seq<Put>, low: nat, size: nat) {
    forall p :: p in puts ==> low <= p.pos && p.End() <= low + size
  }

  /** Where two of the writes meet they write the same byte. */
  ghost predicate Consistent(a: seq<Put>, b: seq<Put>) {
    forall p, q, y: nat :: p in a && q in b && Covers(p, y) && Covers(q, y) ==>
      p.bytes[y - p.pos] == q.bytes[y - q.pos]
  }

  lemma OneWrite(buf: seq<Byte>, put: Put, low: nat, y: nat)
    requires |buf| > 0 && low <= put.pos && put.End() <= low + |buf| && low <= y < low + |buf|
    ensures At(Write(buf, put.pos, put.bytes), y) == if Covers(put, y) then put.bytes[y - put.pos] else At(buf, y)
  {
    if y < put.pos {
      ByteBefore(buf, put.pos, put.bytes, y);
    } else {
      WrittenByte(buf, put.pos, put.bytes, y);
    }
  }

  lemma WindowSizes(puts: seq<Put>, low: nat, size: nat)
    requires InWindow(puts, low, size)
    ensures forall i :: 0 <= i < |puts| ==> |puts[i].bytes| <= size
  {
    forall i | 0 <= i < |puts| ensures |puts[i].bytes| <= size {
      assert puts[i] in puts;
    }
  }

  lemma {:induction false} Untouched(buf: seq<Byte>, puts: seq<Put>, low: nat, y: nat)
    requires |buf| > 0 && InWindow(puts, low, |buf|) && low <= y < low + |buf|
    requires forall i :: 0 <= i < |puts| ==> |puts[i].bytes| <= |buf|
    requires forall p :: p in puts ==> !Covers(p, y)
    ensures At(WriteAll(buf, puts), y) == At(buf, y)
    decreases |puts|
  {
    hide At, Write;
    if |puts| > 0 {
      var n := |puts| - 1;
      Untouched(buf, puts[..n], low, y);
      assert puts[n] in puts;
      OneWrite(WriteAll(buf, puts[..n]), puts[n], low, y);
    }
  }

  lemma {:induction false} Touched(buf: seq<Byte>, puts: seq<Put>, low: nat, p: Put, y: nat)
    requires |buf| > 0 && InWindow(puts, low, |buf|) && low <= y < low + |buf|
    requires forall i :: 0 <= i < |puts| ==> |puts[i].bytes| <= |buf|
    requires Consistent(puts, puts) && p in puts && Covers(p, y)
    ensures At(WriteAll(buf, puts), y) == p.bytes[y - p.pos]
    decreases |puts|
  {
    hide At, Write;
    var n := |puts| - 1;
    assert puts[n] in puts;
    OneWrite(WriteAll(buf, puts[..n]), puts[n], low, y);
    if !Covers(puts[n], y) {
      Touched(buf, puts[..n], low, p, y);
    }
  }

  lemma {:induction false} SameByte(buf: seq<Byte>, a: seq<Put>, b: seq<Put>, low: nat, y: nat)
    requires |buf| > 0 && InWindow(a, low, |buf|) && InWindow(b, low, |buf|) && low <= y < low + |buf|
    requires forall i :: 0 <= i < |a| ==> |a[i].bytes| <= |buf|
    requires forall i :: 0 <= i < |b| ==> |b[i].bytes| <= |buf|
    requires Consistent(a, a) && Consistent(b, b) && Consistent(a, b)
    requires (exists p :: p in a && Covers(p, y)) <==> (exists q :: q in b && Covers(q, y))
    ensures At(WriteAll(buf, a), y) == At(WriteAll(buf, b), y)
  {
    hide At, WriteAll;
    if p :| p in a && Covers(p, y) {
      var q :| q in b && Covers(q, y);
      Touched(buf, a, low, p, y);
      Touched(buf, b, low, q, y);
    } else {
      Untouched(buf, a, low, y);
      Untouched(buf, b, low, y);
    }
  }

  /** Each q is a part of one of the writes, and every byte of them is in some q. */
  ghost predicate Splits(order: seq<Put>, puts: seq<Put>) {
    && (forall q :: q in order ==> exists p :: p in puts && PartOf(q, p))
    && (forall p, y: nat :: p in puts && Covers(p, y) ==> exists q :: q in order && Covers(q, y))
  }

  predicate PartOf(q: Put, p: Put) {
    && p.pos <= q.pos && q.End() <= p.End()
    && q.bytes == p.bytes[q.pos - p.pos..q.End() - p.pos]
  }

  /** Different writes have no byte in common. */
  ghost predicate Separate(puts: seq<Put>) {
    forall p, q :: p in puts && q in puts ==> p == q || p.End() <= q.pos || q.End() <= p.pos
  }

  lemma SeparateIsConsistent(puts: seq<Put>)
    requires Separate(puts)
    ensures Consistent(puts, puts)
  {
  }

  lemma PartByte(q: Put, p: Put, y: nat)
    requires PartOf(q, p) && Covers(q, y)
    ensures Covers(p, y) && q.bytes[y - q.pos] == p.bytes[y - p.pos]
  {
  }

  lemma OneCovers(puts: seq<Put>, p: Put, o: Put, y: nat)
    requires Separate(puts) && p in puts && o in puts && Covers(p, y) && Covers(o, y)
    ensures p == o
  {
  }

  lemma {:induction false} PartsAreConsistent(order: seq<Put>, puts: seq<Put>)
    requires Separate(puts) && Splits(order, puts)
    ensures Consistent(order, order) && Consistent(puts, order)
  {
    hide PartOf, Separate;
    forall q, r, y: nat | q in order && r in order && Covers(q, y) && Covers(r, y)
      ensures q.bytes[y - q.pos] == r.bytes[y - r.pos]
    {
      var p :| p in puts && PartOf(q, p);
      var o :| o in puts && PartOf(r, o);
      PartByte(q, p, y);
      PartByte(r, o, y);
      OneCovers(puts, p, o, y);
    }
    forall p, q, y: nat | p in puts && q in order && Covers(p, y) && Covers(q, y)
      ensures p.bytes[y - p.pos] == q.bytes[y - q.pos]
    {
      var o :| o in puts && PartOf(q, o);
      PartByte(q, o, y);
      OneCovers(puts, p, o, y);
    }
  }

  lemma {:induction false} PartsInWindow(order: seq<Put>, puts: seq<Put>, low: nat, size: nat)
    requires Splits(order, puts) && InWindow(puts, low, size)
    ensures InWindow(order, low, size)
  {
    forall q | q in order ensures low <= q.pos && q.End() <= low + size {
      var p :| p in puts && PartOf(q, p);
    }
  }

  /** Writes that have no byte in common, inside one lap, may be made in any order, in any pieces, and a piece
      more than once. */
  lemma {:induction false} AnyOrder(buf: seq<Byte>, puts: seq<Put>, order: seq<Put>, low: nat)
    requires |buf| > 0 && InWindow(puts, low, |buf|) && Separate(puts) && Splits(order, puts)
    ensures forall i :: 0 <= i < |puts| ==> |puts[i].bytes| <= |buf|
    ensures forall i :: 0 <= i < |order| ==> |order[i].bytes| <= |buf|
    ensures WriteAll(buf, order) == WriteAll(buf, puts)
  {
    hide WriteAll, Consistent;
    PartsInWindow(order, puts, low, |buf|);
    WindowSizes(puts, low, |buf|);
    WindowSizes(order, low, |buf|);
    SeparateIsConsistent(puts);
    PartsAreConsistent(order, puts);
    var n := |buf|;
    forall j | 0 <= j < n ensures WriteAll(buf, puts)[j] == WriteAll(buf, order)[j] {
      OffsetAhead(low, j, n);
      var y := low + Distance(low % n, j, n);
      SameCover(order, puts, y);
      SameByte(buf, puts, order, low, y);
    }
  }

  lemma {:induction false} SameCover(order: seq<Put>, puts: seq<Put>, y: nat)
    requires Splits(order, puts)
    ensures (exists p :: p in puts && Covers(p, y)) <==> (exists q :: q in order && Covers(q, y))
  {
    if q :| q in order && Covers(q, y) {
      var p :| p in puts && PartOf(q, p);
      assert Covers(p, y);
    }
  }

  // ----- What the threads write -----

  /** The block writes of a list of trips that starts at position p. */
  function AllPuts(cfg: Config, p: nat, trips: seq<Frame>): (puts: seq<Put>)
    requires cfg.Valid() && AllFit(cfg, trips)
    ensures forall i :: 0 <= i < |puts| ==> |puts[i].bytes| <= cfg.most
    decreases |trips|
  {
    if |trips| == 0 then []
    else
      ReserveWritable(cfg, p, trips[0].Size());
      Puts(Reserve(cfg, p, trips[0].Size()), trips[0]) + AllPuts(cfg, p + trips[0].Size(), trips[1..])
  }

  lemma {:induction false} TripsWriteAll(cfg: Config, buf: seq<Byte>, p: nat, trips: seq<Frame>)
    requires cfg.Valid() && |buf| == cfg.buffer && cfg.most <= |buf| && AllFit(cfg, trips)
    ensures WriteTrips(cfg, buf, p, trips) == WriteAll(buf, AllPuts(cfg, p, trips))
    decreases |trips|
  {
    hide WriteAll, Reserve, Puts;
    if |trips| == 0 {
      WriteNothing(buf);
    } else {
      ReserveWritable(cfg, p, trips[0].Size());
      var first := Puts(Reserve(cfg, p, trips[0].Size()), trips[0]);
      var rest := AllPuts(cfg, p + trips[0].Size(), trips[1..]);
      TripsWriteAll(cfg, WriteAll(buf, first), p + trips[0].Size(), trips[1..]);
      WriteAllAppend(buf, first, rest);
    }
  }

  lemma WriteNothing(buf: seq<Byte>)
    requires |buf| > 0
    ensures WriteAll(buf, []) == buf
  {
  }

  lemma {:induction false} PlacedAppend(a: seq<Put>, b: seq<Put>, low: nat, mid: nat, high: nat)
    requires Placed(a, low, mid) && Placed(b, mid, high)
    ensures Placed(a + b, low, high)
    decreases |b|
  {
    if |b| == 0 {
      assert a + b == a;
      PlacedHigher(a, low, mid, high);
    } else {
      assert (a + b)[..|a + b| - 1] == a + b[..|b| - 1];
      PlacedAppend(a, b[..|b| - 1], low, mid, b[|b| - 1].pos);
    }
  }

  lemma PlacedHigher(a: seq<Put>, low: nat, mid: nat, high: nat)
    requires Placed(a, low, mid) && mid <= high
    ensures Placed(a, low, high)
  {
  }

  lemma {:induction false} PlacedIsSeparate(puts: seq<Put>, low: nat, high: nat)
    requires Placed(puts, low, high)
    ensures Separate(puts)
    ensures forall p :: p in puts ==> low <= p.pos && p.End() <= high
    decreases |puts|
  {
    if |puts| > 0 {
      var n := |puts| - 1;
      PlacedIsSeparate(puts[..n], low, puts[n].pos);
      PlacedAt(puts, low, high, n);
    }
  }

  lemma {:induction false} FirstOfMore(cfg: Config, before: seq<Frame>, trips: seq<Frame>)
    requires |trips| > 0 && Sound(cfg, before + trips)
    ensures TripOk(cfg, Reserved(before), trips[0])
    ensures before + trips == (before + [trips[0]]) + trips[1..]
    ensures Reserved(before + [trips[0]]) == Reserved(before) + trips[0].Size()
  {
    assert before + trips == (before + [trips[0]]) + trips[1..];
    RC.SoundUpTo(cfg, before + [trips[0]], trips[1..]);
    SoundPrefix(cfg, before, trips[0]);
    SizesAppend(before, trips[0]);
  }

  lemma {:induction false} AllPutsPlaced(cfg: Config, before: seq<Frame>, trips: seq<Frame>)
    requires cfg.Valid() && AllFit(cfg, trips) && Sound(cfg, before + trips)
    ensures Placed(AllPuts(cfg, Reserved(before), trips), Stable(cfg, Reserved(before)),
                   Stable(cfg, Reserved(before + trips)))
    decreases |trips|
  {
    hide Sound, Reserved, Stable, Reserve, Puts, Placed;
    if |trips| == 0 {
      assert before + trips == before;
      PlacedNone(Stable(cfg, Reserved(before)));
    } else {
      FirstOfMore(cfg, before, trips);
      var frame := trips[0];
      ReserveWritable(cfg, Reserved(before), frame.Size());
      TripPlaces(cfg, Reserved(before), frame);
      AllPutsPlaced(cfg, before + [frame], trips[1..]);
      PlacedAppend(Puts(Reserve(cfg, Reserved(before), frame.Size()), frame),
                   AllPuts(cfg, Reserved(before) + frame.Size(), trips[1..]),
                   Stable(cfg, Reserved(before)), Stable(cfg, Reserved(before + [frame])),
                   Stable(cfg, Reserved(before + trips)));
    }
  }

  lemma PlacedNone(x: nat)
    ensures Placed([], x, x)
  {
  }

  /** The trips of all threads since some moment, within one lap of what was final then: however the threads'
      copies interleave, the buffer ends up as if one thread had made the trips one after the other.  So all
      that is proved of that buffer holds of theirs, once the copies have finished. */
  lemma {:induction false} TripsCommute(
    cfg: Config, buf: seq<Byte>, before: seq<Frame>, trips: seq<Frame>, order: seq<Put>)
    requires cfg.Valid() && |buf| == cfg.buffer && cfg.most <= |buf| && AllFit(cfg, trips)
    requires Sound(cfg, before + trips)
    requires Stable(cfg, Reserved(before + trips)) <= Stable(cfg, Reserved(before)) + |buf|
    requires Splits(order, AllPuts(cfg, Reserved(before), trips))
    ensures forall i :: 0 <= i < |order| ==> |order[i].bytes| <= |buf|
    ensures WriteAll(buf, order) == WriteTrips(cfg, buf, Reserved(before), trips)
  {
    hide Sound, Reserved, Stable, Splits, AllPuts, WriteTrips, Placed, Separate;
    var low := Stable(cfg, Reserved(before));
    AllPutsPlaced(cfg, before, trips);
    PlacedIsSeparate(AllPuts(cfg, Reserved(before), trips), low, Stable(cfg, Reserved(before + trips)));
    TripsWriteAll(cfg, buf, Reserved(before), trips);
    AnyOrder(buf, AllPuts(cfg, Reserved(before), trips), order, low);
  }
}
