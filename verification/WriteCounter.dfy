/** The 32-bit atomic counter that hands out stream positions. */
module WriteCounter {
  import opened Cyclic
  import opened StreamLayout

  const TWO_31 := 0x8000_0000
  const TWO_32 := 0x1_0000_0000
  const TWO_64 := 0x1_0000_0000_0000_0000

  /** The value of an `int` after wrap-around. */
  function ToInt32(x: int): (v: int)
    ensures -TWO_31 <= v < TWO_31
  {
    var m := x % TWO_32;
    if m < TWO_31 then m else m - TWO_32
  }

  /** An `int` or a difference assigned to a `size_t`: sign extension, then wrap-around. */
  function ToSizeT(x: int): (v: nat)
    ensures v < TWO_64
  {
    x % TWO_64
  }

  /** `atomic_add_return`. */
  function AddReturn(counter: int, w: nat): int {
    ToInt32(counter + w)
  }

  function Run(ws: seq<nat>): int {
    if |ws| == 0 then 0 else AddReturn(Run(ws[..|ws| - 1]), ws[|ws| - 1])
  }

  lemma Int32Residue(x: int)
    ensures ToInt32(x) % TWO_32 == x % TWO_32
  {
    var m := x % TWO_32;
    AddMultiple(m, -1, TWO_32);
  }

  lemma Int32Add(x: int, w: nat)
    ensures AddReturn(ToInt32(x), w) == ToInt32(x + w)
  {
    Int32Residue(x);
    AddWrapped(ToInt32(x), w, TWO_32);
    AddWrapped(x, w, TWO_32);
  }

  lemma {:induction false} CounterIsWrappedTotal(ws: seq<nat>)
    ensures Run(ws) == ToInt32(Total(ws))
  {
    if |ws| > 0 {
      CounterIsWrappedTotal(ws[..|ws| - 1]);
      Int32Add(Total(ws[..|ws| - 1]), ws[|ws| - 1]);
    }
  }

  /** Any position computed from the counter has the right offset in a file or buffer whose size
      divides 2^32, whatever the sign of the counter and whichever way the difference wraps. */
  lemma {:induction false} OffsetFromCounter(p: int, d: int, size: nat)
    requires size > 0 && TWO_32 % size == 0
    ensures ToSizeT(ToInt32(p) + d) % size == (p + d) % size
    ensures ToSizeT(ToSizeT(ToInt32(p)) + d) % size == (p + d) % size
  {
    assert TWO_64 == TWO_32 * TWO_32;
    var k := TWO_32 / size;
    assert TWO_32 == k * size;
    Regroup(0, 1, TWO_32, TWO_32);
    assert TWO_64 == (TWO_32 * k) * size;
    DivModUnique(TWO_64, TWO_32 * k, 0, size);
    var c := ToInt32(p);
    ModOfMultiple(c + d, TWO_64, size);
    AddWrapped(c, d, TWO_64);
    ModOfMultiple(c, TWO_32, size);
    ModOfMultiple(p, TWO_32, size);
    Int32Residue(p);
    AddWrapped(c, d, size);
    AddWrapped(p, d, size);
  }

  /** Further unsigned arithmetic on such a position keeps its residue. */
  lemma {:induction false} SizeTKeeps(x: int, p: int, d: int, size: nat)
    requires size > 0 && TWO_32 % size == 0 && x % size == p % size
    ensures ToSizeT(x + d) % size == (p + d) % size
  {
    var k := TWO_32 / size;
    assert TWO_32 == k * size;
    assert TWO_64 == TWO_32 * TWO_32;
    Regroup(0, 1, TWO_32, TWO_32);
    assert TWO_64 == (TWO_32 * k) * size;
    DivModUnique(TWO_64, TWO_32 * k, 0, size);
    ModOfMultiple(x + d, TWO_64, size);
    AddWrapped(x, d, size);
    AddWrapped(p, d, size);
  }

  /** The end and the start of a reservation, as computed from the counter after the add. */
  lemma {:induction false} ReservationOffsets(p: nat, w: nat, size: nat)
    requires size > 0 && TWO_32 % size == 0
    ensures ToSizeT(AddReturn(ToInt32(p), w)) % size == (p + w) % size
    ensures ToSizeT(ToSizeT(AddReturn(ToInt32(p), w)) - w) % size == p % size
  {
    Int32Add(p, w);
    OffsetFromCounter(p + w, 0, size);
    OffsetFromCounter(p + w, 0 - w, size);
  }

  /** The counter's offsets follow the unbounded byte count for good exactly when the size divides
      2^32, as the comment in the receive loop asks. */
  lemma {:induction false} OffsetsFollowIffDivides(size: nat)
    requires size > 0
    ensures (forall p: nat :: ToSizeT(ToInt32(p)) % size == p % size) <==> TWO_32 % size == 0
  {
    if TWO_32 % size == 0 {
      forall p: nat ensures ToSizeT(ToInt32(p)) % size == p % size {
        OffsetFromCounter(p, 0, size);
      }
    } else {
      assert ToInt32(TWO_32) == 0 && ToSizeT(0) == 0;
      DivModUnique(0, 0, 0, size);
      assert ToSizeT(ToInt32(TWO_32)) % size != TWO_32 % size;
    }
  }
}
