/** The invariant of the descriptor protocol is kept by every step of every thread and of the NIC. */
module RingSafety {
  import opened Cyclic
  import opened Geometry
  import opened RingProtocol

  // ----- Consumers in a circle -----

  lemma PreviousOfNext(g: Geometry, t: nat)
    requires g.Valid()
    ensures PreviousConsumer(g, (t + 1) % g.consumers) == t % g.consumers
  {
    var n := g.consumers;
    AddWrapped(t + 1, n - 1, n);
    assert (t + 1) % n + n - 1 == (t + 1) % n + (n - 1);
    AddPeriod(t, n);
  }

  lemma PreviousInjective(g: Geometry, a: nat, b: nat)
    requires g.Valid() && a < g.consumers && b < g.consumers
    requires PreviousConsumer(g, a) == PreviousConsumer(g, b)
    ensures a == b
  {
    var n := g.consumers;
    if a <= b {
      SameOffset(a + n - 1, b + n - 1, n);
    } else {
      SameOffset(b + n - 1, a + n - 1, n);
    }
  }

  // ----- What was taken out of the ring -----

  lemma {:induction false} FramesSkip(g: Geometry, c: nat, from: nat, a: nat, b: nat)
    requires g.Valid() && a <= b
    requires forall k :: a <= k < b ==> Owner(g, k) != c
    ensures Frames(g, c, from, b) == Frames(g, c, from, a)
  {
    if a < b && from < b {
      FramesSkip(g, c, from, a, b - 1);
    }
  }

  lemma FramesNext(g: Geometry, from: nat, j: nat)
    requires g.Valid() && from <= j
    ensures Frames(g, Owner(g, j), from, NextOwned(g, j)) == Frames(g, Owner(g, j), from, j) + [j]
  {
    NextSegment(g, j);
    forall k | j + 1 <= k < NextOwned(g, j) ensures Owner(g, k) != Owner(g, j) {
      NextOwnedIsNext(g, j, k);
    }
    FramesSkip(g, Owner(g, j), from, j + 1, NextOwned(g, j));
  }

  // ----- Consequences of the invariant -----

  /** No thread is behind what has been returned to the NIC. */
  lemma CursorsAboveReleased(g: Geometry, r: Ring, h: History, c: nat)
    requires Inv(g, r, h) && c < g.consumers
    ensures h.released <= h.cursor[c]
    ensures c != Holder(g, h) ==> Start(g, h.token + 1) <= h.cursor[c]
    ensures h.released < Start(g, h.token + 1)
    ensures SegmentOf(g, h.cursor[Holder(g, h)]) == h.token
  {
    var o := Holder(g, h);
    assert CursorOk(g, r, h, o) && CursorOk(g, r, h, c);
    var so, sc := SegmentOf(g, h.cursor[o]), SegmentOf(g, h.cursor[c]);
    SameOffset(h.token, so, g.consumers);
    SegmentBounds(g, h.cursor[o]);
    SegmentBounds(g, h.cursor[c]);
    StartOrder(g, h.token + 1, sc);
  }

  /** The head stays less than a lap ahead of every thread. */
  lemma HeadInLap(g: Geometry, r: Ring, h: History, c: nat)
    requires Inv(g, r, h) && c < g.consumers
    ensures r.head < g.Size() + h.cursor[c]
    ensures h.cursor[c] < r.head + g.Size()
  {
    CursorsAboveReleased(g, r, h, c);
    assert CursorOk(g, r, h, c);
    SegmentBounds(g, h.cursor[c]);
    StartOrder(g, SegmentOf(g, h.cursor[c]) + 1, h.token + g.consumers);
    StartOrder(g, h.token, h.token);
  }

  /** A thread's next descriptor is marked done exactly when its next frame has arrived, and then it
      holds that very frame. */
  lemma {:induction false} DoneMeansArrived(g: Geometry, r: Ring, h: History, c: nat)
    requires Inv(g, r, h) && c < g.consumers
    ensures r.slots[r.threads[c].next].done <==> h.cursor[c] < r.head
    ensures r.slots[r.threads[c].next].done ==> r.slots[r.threads[c].next].frame == h.cursor[c]
  {
    HeadInLap(g, r, h, c);
    assert CursorOk(g, r, h, c);
    var j := h.cursor[c];
    if j < r.head {
      AddPeriod(j, g.Size());
      OwnerPeriod(g, j);
      assert SlotOk(g, r, h, j + g.Size());
    } else {
      assert SlotOk(g, r, h, j);
    }
  }

  lemma OwnerPeriod(g: Geometry, j: nat)
    requires g.Valid()
    ensures Owner(g, j + g.Size()) == Owner(g, j)
    ensures Slot(g, j + g.Size()) == Slot(g, j)
  {
    AddPeriod(j, g.Size());
    ConsumerOfSlot(g, j);
    ConsumerOfSlot(g, j + g.Size());
  }

  lemma SlotsDiffer(g: Geometry, a: nat, b: nat)
    requires g.Valid() && a != b && a < b + g.Size() && b < a + g.Size()
    ensures Slot(g, a) != Slot(g, b)
  {
    if Slot(g, a) == Slot(g, b) {
      if a < b {
        SameOffset(a, b, g.Size());
      } else {
        SameOffset(b, a, g.Size());
      }
    }
  }

  /** The frame the NIC fills next is not ahead of its owner. */
  lemma HeadNotRead(g: Geometry, r: Ring, h: History)
    requires Inv(g, r, h)
    ensures h.cursor[Owner(g, r.head)] <= r.head
  {
    var c := Owner(g, r.head);
    assert CursorOk(g, r, h, c);
    if h.cursor[c] > r.head {
      var s, k := SegmentOf(g, h.cursor[c]), SegmentOf(g, r.head);
      SegmentBounds(g, h.cursor[c]);
      SegmentBounds(g, r.head);
      StartOrder(g, s, k);
      StartOrder(g, k + 1, h.token);
      SameOffset(k, s, g.consumers);
      assert false;
    }
  }

  lemma {:induction false} NicKeepsInv(g: Geometry, r: Ring, h: History)
    requires Inv(g, r, h) && NicCanFill(g, r)
    ensures Inv(g, NicFill(g, r), h)
    ensures !r.slots[Slot(g, r.head)].done
  {
    var r' := NicFill(g, r);
    var o := Owner(g, r.head);
    HeadInLap(g, r, h, o);
    HeadNotRead(g, r, h);
    assert SlotOk(g, r, h, r.head);
    assert r.head < h.tailPos;
    forall c | 0 <= c < g.consumers ensures CursorOk(g, r', h, c) && Quiet(g, r', h, c) {
      assert CursorOk(g, r, h, c) && Quiet(g, r, h, c);
    }
    forall j | r'.head <= j < r'.head + g.Size() ensures SlotOk(g, r', h, j) {
      if j == r.head + g.Size() {
        OwnerPeriod(g, r.head);
      } else {
        assert SlotOk(g, r, h, j);
        SlotsDiffer(g, r.head, j);
      }
    }
  }

  // ----- Taking a frame -----

  ghost function AfterTake(g: Geometry, h: History, c: nat): History
    requires g.Valid() && |h.cursor| == |h.last| == g.consumers && c < g.consumers
  {
    h.(cursor := h.cursor[c := NextOwned(g, h.cursor[c])], last := h.last[c := h.cursor[c]])
  }

  /** Between taking frame h.last[c] and releasing it. */
  ghost predicate Taken(g: Geometry, r: Ring, h: History, c: nat) {
    && r.Shape(g)
    && |h.cursor| == |h.last| == g.consumers && c < g.consumers
    && Tokens(g, r, h)
    && (forall d :: 0 <= d < g.consumers && d != c ==> CursorOk(g, r, h, d) && Quiet(g, r, h, d))
    && (var frame := h.last[c];
        && r.threads[c].count > 0
        && r.threads[c].last == Slot(g, frame)
        && Owner(g, frame) == c
        && h.first <= frame < r.head
        && h.token <= SegmentOf(g, frame) < h.token + g.consumers
        && h.cursor[c] == NextOwned(g, frame)
        && r.threads[c].next == Slot(g, h.cursor[c])
        && r.delivered[c] == Frames(g, c, h.first, h.cursor[c])
        && (EndsSegment(g, frame) ==> c == Holder(g, h))
        && (c != Holder(g, h) ==> Place(g, h.cursor[c]) + LOCK_DISTANCE < g.segment)
        && Start(g, h.token) <= h.released
        && h.released <= (if c == Holder(g, h) then frame + 1 else h.cursor[Holder(g, h)]))
    && ReleaseRange(g, r, h)
    && (c == Holder(g, h) && h.released == h.last[c] + 1 ==> h.tailPos == RoundedTail(g, h.released))
    && (c != Holder(g, h) ==> Releases(g, r, h))
    && (forall j :: r.head <= j < r.head + g.Size() ==> SlotOk(g, r, h, j))
  }

  ghost predicate ReleaseRange(g: Geometry, r: Ring, h: History)
    requires r.Shape(g)
  {
    && h.released <= r.head <= h.tailPos
    && r.tail == Slot(g, h.tailPos)
    && g.Size() + h.released <= h.tailPos + TAIL_GRAIN
    && h.tailPos < g.Size() + h.released
    && h.tailPos <= RoundedTail(g, h.released + 1)
  }

  lemma {:induction false} LockedOut(g: Geometry, r: Ring, h: History, c: nat)
    requires Inv(g, r, h) && c < g.consumers
    ensures MayRelease(g, r, c) <==> c == Holder(g, h)
    ensures CanLockRing(g, r, r.threads[c].next, c) <==>
              c != Holder(g, h) && g.segment - Place(g, h.cursor[c]) <= 9
  {
    if r.freedLast[PreviousConsumer(g, c)] {
      PreviousInjective(g, c, Holder(g, h));
    }
    assert CursorOk(g, r, h, c);
    LastDescriptorMeaning(g, h.cursor[c]);
  }

  lemma {:induction false} TakeKeepsSlots(g: Geometry, r: Ring, h: History, c: nat, j: nat)
    requires Inv(g, r, h) && c < g.consumers && CanRead(g, r, c)
    requires r.head <= j < r.head + g.Size()
    ensures SlotOk(g, Take(g, r, c), AfterTake(g, h, c), j)
  {
    var r', h' := Take(g, r, c), AfterTake(g, h, c);
    var frame := h.cursor[c];
    var n := g.Size();
    DoneMeansArrived(g, r, h, c);
    HeadInLap(g, r, h, c);
    assert CursorOk(g, r, h, c);
    NextSegment(g, frame);
    OwnerPeriod(g, frame);
    assert SlotOk(g, r, h, j);
    if j == frame + n {
    } else {
      SlotsDiffer(g, j, frame + n);
      if Owner(g, j) == c && j >= n + frame {
        OwnerPeriod(g, j - n);
        if j < n + NextOwned(g, frame) {
          NextOwnedIsNext(g, frame, j - n);
        }
      }
    }
  }

  lemma {:induction false} TakeReaches(g: Geometry, r: Ring, h: History, c: nat)
    requires Inv(g, r, h) && c < g.consumers && CanRead(g, r, c)
    ensures Taken(g, Take(g, r, c), AfterTake(g, h, c), c)
  {
    var r', h' := Take(g, r, c), AfterTake(g, h, c);
    var frame := h.cursor[c];
    assert CursorOk(g, r, h, c);
    DoneMeansArrived(g, r, h, c);
    LockedOut(g, r, h, c);
    CalcNextIsNextOwned(g, frame);
    NextSegment(g, frame);
    SlotOfSlot(g, h'.cursor[c]);
    FramesNext(g, h.first, frame);
    CursorsAboveReleased(g, r, h, c);
    forall d | 0 <= d < g.consumers && d != c ensures CursorOk(g, r', h', d) && Quiet(g, r', h', d) {
      assert CursorOk(g, r, h, d) && Quiet(g, r, h, d);
    }
    forall j | r'.head <= j < r'.head + g.Size() ensures SlotOk(g, r', h', j) {
      TakeKeepsSlots(g, r, h, c, j);
    }
  }

  lemma {:induction false} TakenWithoutRelease(g: Geometry, r: Ring, h: History, c: nat)
    requires Taken(g, r, h, c) && !EndsSegment(g, h.last[c])
    ensures Inv(g, r, h)
  {
    NextSegment(g, h.last[c]);
    assert h.cursor[c] == h.last[c] + 1;
  }

  // ----- Releasing -----

  ghost function AfterRelease(g: Geometry, h: History, c: nat): History
    requires g.Valid() && |h.last| == g.consumers && c < g.consumers
    requires RoundedTail(g, h.last[c] + 1) >= 0
  {
    h.(released := h.last[c] + 1,
       tailPos := RoundedTail(g, h.last[c] + 1),
       token := h.token + (if EndsSegment(g, h.last[c]) then 1 else 0))
  }

  lemma GrainStep(x: nat)
    ensures (x + 1) % TAIL_GRAIN <= x % TAIL_GRAIN + 1
  {
  }

  lemma RoundingStep(g: Geometry, a: nat)
    requires g.Valid() && a > 0
    ensures RoundedTail(g, a) <= RoundedTail(g, a + 1)
  {
    var n := g.Size();
    var x := Slot(g, a - 1);
    AddWrapped(a - 1, 1, n);
    if x + 1 < n {
      DivModUnique(x + 1, 0, x + 1, n);
      GrainStep(x);
    } else {
      DivModUnique(x + 1, 1, 0, n);
    }
  }

  /** The rounding to the grain never moves the tail back and trails by less than the grain. */
  lemma {:induction false} RoundingTrails(g: Geometry, a: nat, b: nat)
    requires g.Valid() && 0 < a <= b
    ensures RoundedTail(g, a) <= RoundedTail(g, b)
    ensures g.Size() + b <= RoundedTail(g, b) + TAIL_GRAIN
    ensures RoundedTail(g, b) < g.Size() + b
    decreases b
  {
    if a < b {
      RoundingTrails(g, a, b - 1);
      RoundingStep(g, b - 1);
    }
  }

  lemma RoundedTailSlot(g: Geometry, frame: nat)
    requires g.Valid()
    ensures RoundedTail(g, frame + 1) >= 0
    ensures Slot(g, RoundedTail(g, frame + 1)) == Slot(g, frame) / TAIL_GRAIN * TAIL_GRAIN
  {
    var n := g.Size();
    var s := Slot(g, frame);
    DivModExpand(frame, n);
    assert s == s / TAIL_GRAIN * TAIL_GRAIN + s % TAIL_GRAIN;
    var q := frame / n + 1;
    Regroup(frame / n, 1, 1, n);
    DivModUnique(RoundedTail(g, frame + 1), q, s / TAIL_GRAIN * TAIL_GRAIN, n);
  }

  lemma {:induction false} TailAdvances(g: Geometry, h: History, c: nat)
    requires g.Valid() && |h.last| == g.consumers && c < g.consumers
    requires h.released <= h.last[c] + 1
    requires h.tailPos <= RoundedTail(g, h.released + 1)
    requires h.released == h.last[c] + 1 ==> h.tailPos == RoundedTail(g, h.released)
    ensures h.tailPos <= RoundedTail(g, h.last[c] + 1) <= RoundedTail(g, h.last[c] + 2)
  {
    var frame := h.last[c];
    RoundingTrails(g, frame + 1, frame + 2);
    if h.released <= frame {
      RoundingTrails(g, h.released + 1, frame + 1);
    }
  }

  lemma {:induction false} TailWritten(g: Geometry, r: Ring, h: History, c: nat)
    requires Taken(g, r, h, c) && c == Holder(g, h)
    ensures RoundedTail(g, h.last[c] + 1) >= 0
    ensures ReleaseRange(g, Advance(g, r, c), AfterRelease(g, h, c))
    ensures h.tailPos <= AfterRelease(g, h, c).tailPos
  {
    var frame := h.last[c];
    RoundedTailSlot(g, frame);
    TailAdvances(g, h, c);
    RoundingTrails(g, frame + 1, frame + 1);
  }

  lemma PreviousOfSelf(g: Geometry, c: nat)
    requires g.Valid() && c < g.consumers
    ensures PreviousConsumer(g, c) == c <==> g.consumers == 1
  {
    if g.consumers > 1 {
      OwnersDiffer(g, c, g.consumers - 1);
      DivModUnique(c, 0, c, g.consumers);
    }
  }

  lemma {:induction false} TokenMoves(g: Geometry, r: Ring, h: History, c: nat)
    requires Taken(g, r, h, c) && c == Holder(g, h)
    requires RoundedTail(g, h.last[c] + 1) >= 0
    ensures Tokens(g, Advance(g, r, c), AfterRelease(g, h, c))
    ensures Holder(g, AfterRelease(g, h, c)) == c ==>
              EndsSegment(g, h.last[c]) == !Advance(g, r, c).canFree[c]
  {
    LastDescriptorMeaning(g, h.last[c]);
    PreviousOfNext(g, h.token);
    PreviousOfSelf(g, c);
    PreviousOfSelf(g, (h.token + 1) % g.consumers);
  }

  lemma {:induction false} AdvanceIdle(g: Geometry, r: Ring, h: History, c: nat)
    requires r.Shape(g) && Tokens(g, r, h) && c < g.consumers && c != Holder(g, h)
    ensures Advance(g, r, c) == r
  {
    if r.freedLast[PreviousConsumer(g, c)] {
      PreviousInjective(g, c, Holder(g, h));
    }
  }

  lemma {:induction false} AdvanceInsideSegment(g: Geometry, r: Ring, h: History, c: nat)
    requires Taken(g, r, h, c) && c == Holder(g, h) && !EndsSegment(g, h.last[c])
    ensures RoundedTail(g, h.last[c] + 1) >= 0
    ensures Inv(g, Advance(g, r, c), AfterRelease(g, h, c))
    ensures Advance(g, r, c).canFree[c]
  {
    TailWritten(g, r, h, c);
    TokenMoves(g, r, h, c);
    NextSegment(g, h.last[c]);
    var r', h' := Advance(g, r, c), AfterRelease(g, h, c);
    forall d | 0 <= d < g.consumers && d != c ensures CursorOk(g, r', h', d) && Quiet(g, r', h', d) {
      assert CursorOk(g, r, h, d) && Quiet(g, r, h, d);
    }
    forall j | r'.head <= j < r'.head + g.Size() ensures SlotOk(g, r', h', j) {
      assert SlotOk(g, r, h, j);
    }
  }

  lemma {:induction false} OthersPastSegment(g: Geometry, r: Ring, h: History, c: nat, d: nat)
    requires Taken(g, r, h, c) && c == Holder(g, h) && d < g.consumers && d != c
    ensures h.token < SegmentOf(g, h.cursor[d]) < h.token + g.consumers
    ensures Start(g, h.token + 1) <= h.cursor[d]
    ensures r.threads[d].count > 0 && !EndsSegment(g, h.last[d]) ==> Start(g, h.token + 1) <= h.last[d]
  {
    assert CursorOk(g, r, h, d);
    SegmentBounds(g, h.cursor[d]);
    StartOrder(g, h.token + 1, SegmentOf(g, h.cursor[d]));
    if r.threads[d].count > 0 {
      NextSegment(g, h.last[d]);
      SegmentBounds(g, h.last[d]);
    }
  }

  lemma {:induction false} LastOfTokenSegment(g: Geometry, r: Ring, h: History, c: nat)
    requires Taken(g, r, h, c) && c == Holder(g, h) && EndsSegment(g, h.last[c])
    ensures h.last[c] + 1 == Start(g, h.token + 1)
    ensures SegmentOf(g, h.cursor[c]) == h.token + g.consumers && Place(g, h.cursor[c]) == 0
    ensures h.cursor[c] == Start(g, h.token + g.consumers)
  {
    var frame := h.last[c];
    NextSegment(g, frame);
    SegmentBounds(g, frame);
    SameOffset(h.token, SegmentOf(g, frame), g.consumers);
  }

  lemma {:induction false} PassOnCursor(g: Geometry, r: Ring, h: History, c: nat, d: nat)
    requires Taken(g, r, h, c) && c == Holder(g, h) && EndsSegment(g, h.last[c]) && d < g.consumers
    requires RoundedTail(g, h.last[c] + 1) >= 0
    ensures CursorOk(g, Advance(g, r, c), AfterRelease(g, h, c), d)
  {
    LastOfTokenSegment(g, r, h, c);
    if d != c {
      assert CursorOk(g, r, h, d);
      OthersPastSegment(g, r, h, c, d);
    } else {
      LastDescriptorMeaning(g, h.last[c]);
      NextSegment(g, h.last[c]);
    }
  }

  lemma {:induction false} PassOnReleases(g: Geometry, r: Ring, h: History, c: nat)
    requires Taken(g, r, h, c) && c == Holder(g, h) && EndsSegment(g, h.last[c])
    requires RoundedTail(g, h.last[c] + 1) >= 0
    ensures Releases(g, Advance(g, r, c), AfterRelease(g, h, c))
  {
    var h' := AfterRelease(g, h, c);
    var o := Holder(g, h');
    TailWritten(g, r, h, c);
    LastOfTokenSegment(g, r, h, c);
    StartOrder(g, h'.token, h.token + g.consumers);
    if o != c {
      OthersPastSegment(g, r, h, c, o);
    }
  }

  lemma {:induction false} AdvanceEndsSegment(g: Geometry, r: Ring, h: History, c: nat)
    requires Taken(g, r, h, c) && c == Holder(g, h) && EndsSegment(g, h.last[c])
    ensures RoundedTail(g, h.last[c] + 1) >= 0
    ensures Inv(g, Advance(g, r, c), AfterRelease(g, h, c))
  {
    TailWritten(g, r, h, c);
    TokenMoves(g, r, h, c);
    LastDescriptorMeaning(g, h.last[c]);
    LastOfTokenSegment(g, r, h, c);
    PassOnReleases(g, r, h, c);
    var r', h' := Advance(g, r, c), AfterRelease(g, h, c);
    forall d | 0 <= d < g.consumers ensures CursorOk(g, r', h', d) && Quiet(g, r', h', d) {
      PassOnCursor(g, r, h, c, d);
      if d != c {
        assert CursorOk(g, r, h, d) && Quiet(g, r, h, d);
      }
    }
    forall j | r'.head <= j < r'.head + g.Size() ensures SlotOk(g, r', h', j) {
      assert SlotOk(g, r, h, j);
    }
  }

  /** What a release does to the history, whether or not thread c may do it. */
  ghost function Released(g: Geometry, h: History, c: nat): History
    requires g.Valid() && |h.last| == g.consumers && c < g.consumers
  {
    RoundedTailSlot(g, h.last[c]);
    if c == Holder(g, h) then AfterRelease(g, h, c) else h
  }

  lemma {:induction false} AdvanceKeepsInv(g: Geometry, r: Ring, h: History, c: nat)
    requires Taken(g, r, h, c)
    ensures Inv(g, Advance(g, r, c), Released(g, h, c))
    ensures h.tailPos <= Released(g, h, c).tailPos
    ensures !EndsSegment(g, h.last[c]) && c == Holder(g, h) ==> Advance(g, r, c).canFree[c]
  {
    if c != Holder(g, h) {
      AdvanceIdle(g, r, h, c);
      TakenWithoutRelease(g, r, h, c);
    } else {
      TailWritten(g, r, h, c);
      if EndsSegment(g, h.last[c]) {
        AdvanceEndsSegment(g, r, h, c);
      } else {
        AdvanceInsideSegment(g, r, h, c);
      }
    }
  }

  // ----- The two kinds of thread step -----

  ghost function AfterRead(g: Geometry, r: Ring, h: History, c: nat): History
    requires r.Shape(g) && |h.cursor| == |h.last| == g.consumers && c < g.consumers
  {
    var h' := AfterTake(g, h, c);
    if ReturnsNow(g, Take(g, r, c).threads[c], c) then Released(g, h', c) else h'
  }

  lemma {:induction false} ReadKeepsInv(g: Geometry, r: Ring, h: History, c: nat)
    requires Inv(g, r, h) && c < g.consumers && CanRead(g, r, c)
    ensures Inv(g, Read(g, r, c), AfterRead(g, r, h, c))
    ensures Read(g, r, c).delivered == r.delivered[c := r.delivered[c] + [h.cursor[c]]]
    ensures h.tailPos <= AfterRead(g, r, h, c).tailPos
  {
    TakeReaches(g, r, h, c);
    DoneMeansArrived(g, r, h, c);
    var r', h' := Take(g, r, c), AfterTake(g, h, c);
    if ReturnsNow(g, r'.threads[c], c) {
      AdvanceKeepsInv(g, r', h', c);
    } else {
      LastDescriptorMeaning(g, h'.last[c]);
      TakenWithoutRelease(g, r', h', c);
    }
  }

  lemma {:induction false} MidCallPlace(g: Geometry, r: Ring, h: History, c: nat)
    requires Inv(g, r, h) && c < g.consumers
    requires r.threads[c].count > 0 && !EndsSegment(g, h.last[c])
    ensures h.cursor[c] == h.last[c] + 1
    ensures SegmentOf(g, h.last[c]) == SegmentOf(g, h.cursor[c])
    ensures c != Holder(g, h) ==> Place(g, h.cursor[c]) + LOCK_DISTANCE < g.segment
    ensures h.first <= h.last[c]
  {
    assert CursorOk(g, r, h, c) && Quiet(g, r, h, c);
    NextSegment(g, h.last[c]);
  }

  /** In the middle of a call a thread may release again. */
  lemma {:induction false} MidCall(g: Geometry, r: Ring, h: History, c: nat)
    requires Inv(g, r, h) && c < g.consumers
    requires r.threads[c].count > 0 && !EndsSegment(g, h.last[c])
    ensures Taken(g, r, h, c)
  {
    assert CursorOk(g, r, h, c);
    MidCallPlace(g, r, h, c);
  }

  function Hangup(g: Geometry, r: Ring, c: nat): Ring
    requires r.Shape(g) && c < g.consumers
  {
    r.(threads := r.threads[c := r.threads[c].(count := 0)])
  }

  lemma {:induction false} HangupKeepsInv(g: Geometry, r: Ring, h: History, c: nat)
    requires Inv(g, r, h) && c < g.consumers
    requires c == Holder(g, h) && r.canFree[c] ==> h.released == h.cursor[c]
    requires c == Holder(g, h) && !r.canFree[c] ==>
               Place(g, h.cursor[c]) == 0 || Place(g, h.cursor[c]) + LOCK_DISTANCE < g.segment
    ensures Inv(g, Hangup(g, r, c), h)
  {
    var r' := Hangup(g, r, c);
    forall d | 0 <= d < g.consumers ensures CursorOk(g, r', h, d) && Quiet(g, r', h, d) {
      assert CursorOk(g, r, h, d) && Quiet(g, r, h, d);
    }
    forall j | r'.head <= j < r'.head + g.Size() ensures SlotOk(g, r', h, j) {
      assert SlotOk(g, r, h, j);
    }
  }

  ghost function AfterFinish(g: Geometry, r: Ring, h: History, c: nat): History
    requires r.Shape(g) && |h.last| == g.consumers && c < g.consumers
  {
    if r.threads[c].count > 0 && !EndsSegment(g, h.last[c]) then Released(g, h, c) else h
  }

  lemma {:induction false} LastIsLast(g: Geometry, r: Ring, h: History, c: nat)
    requires Inv(g, r, h) && c < g.consumers && r.threads[c].count > 0
    ensures IsLastOf(g, r.threads[c].last, c) <==> EndsSegment(g, h.last[c])
  {
    assert CursorOk(g, r, h, c);
    LastDescriptorMeaning(g, h.last[c]);
  }

  /** A thread that has the ring to itself and has just read its last descriptor has also returned it. */
  lemma {:induction false} AloneHasReturned(g: Geometry, r: Ring, h: History, c: nat)
    requires Inv(g, r, h) && c < g.consumers == 1 && r.threads[c].count > 0 && EndsSegment(g, h.last[c])
    ensures Advance(g, r, c) == r && !r.canFree[c] && Place(g, h.cursor[c]) == 0
  {
    var frame := h.last[c];
    assert CursorOk(g, r, h, c) && Quiet(g, r, h, c);
    LastIsLast(g, r, h, c);
    NextSegment(g, frame);
    SegmentBounds(g, frame);
    SegmentBounds(g, h.cursor[c]);
    assert h.released == frame + 1;
    RoundedTailSlot(g, frame);
    PreviousOfSelf(g, c);
  }

  /** The release after the loop, when the last trip ended a segment: it only ends the call, exactly as
      long as the token has not come back to the thread.  Other threads and the NIC may run in between. */
  lemma {:induction false} LateReleaseIdleIff(g: Geometry, r: Ring, h: History, c: nat)
    requires Inv(g, r, h) && c < g.consumers && r.threads[c].count > 0 && EndsSegment(g, h.last[c])
    ensures Finish(g, r, c) == Hangup(g, r, c) <==> g.consumers == 1 || !MayRelease(g, r, c)
    ensures TooLate(g, r, c) <==> g.consumers > 1 && MayRelease(g, r, c)
  {
    LastIsLast(g, r, h, c);
    PreviousOfSelf(g, c);
    if g.consumers == 1 {
      AloneHasReturned(g, r, h, c);
    } else if MayRelease(g, r, c) {
      LockedOut(g, r, h, c);
      assert Quiet(g, r, h, c);
      assert Finish(g, r, c).freedLast[c] && !r.freedLast[c];
    }
  }

  /** Leaving in time after the last descriptor of a segment. */
  lemma {:induction false} LeaveInTime(g: Geometry, r: Ring, h: History, c: nat)
    requires Inv(g, r, h) && c < g.consumers && r.threads[c].count > 0 && EndsSegment(g, h.last[c])
    requires !TooLate(g, r, c)
    ensures Inv(g, Finish(g, r, c), h)
  {
    LateReleaseIdleIff(g, r, h, c);
    LockedOut(g, r, h, c);
    if g.consumers == 1 {
      AloneHasReturned(g, r, h, c);
    }
    HangupKeepsInv(g, r, h, c);
  }

  lemma {:induction false} FinishKeepsInv(g: Geometry, r: Ring, h: History, c: nat)
    requires Inv(g, r, h) && c < g.consumers && !TooLate(g, r, c)
    ensures Inv(g, Finish(g, r, c), AfterFinish(g, r, h, c))
    ensures h.tailPos <= AfterFinish(g, r, h, c).tailPos
  {
    assert CursorOk(g, r, h, c) && Quiet(g, r, h, c);
    if r.threads[c].count > 0 && EndsSegment(g, h.last[c]) {
      LeaveInTime(g, r, h, c);
    } else if r.threads[c].count > 0 {
      LastDescriptorMeaning(g, h.last[c]);
      MidCall(g, r, h, c);
      AdvanceKeepsInv(g, r, h, c);
      NextSegment(g, h.last[c]);
      HangupKeepsInv(g, Advance(g, r, c), Released(g, h, c), c);
    } else {
      HangupKeepsInv(g, r, h, c);
    }
  }

  /** Right after the last descriptor of a segment, the release that follows the loop repeats the one
      inside it and changes nothing. */
  lemma {:induction false} SecondReleaseIdle(g: Geometry, r: Ring, c: nat)
    requires r.Shape(g) && c < g.consumers
    requires MayRelease(g, r, c) && IsLastOf(g, r.threads[c].last, c)
    requires g.consumers > 1 ==> !Advance(g, r, c).freedLast[PreviousConsumer(g, c)]
    ensures Advance(g, Advance(g, r, c), c) == Advance(g, r, c)
  {
    PreviousOfSelf(g, c);
  }

  /** The history after a trip that ends the call. */
  ghost function AfterBoth(g: Geometry, h: History, c: nat): History
    requires g.Valid() && |h.cursor| == |h.last| == g.consumers && c < g.consumers
  {
    Released(g, AfterTake(g, h, c), c)
  }

  lemma {:induction false} EndOfSegmentFinish(g: Geometry, r: Ring, h: History, c: nat)
    requires Inv(g, r, h) && c < g.consumers && CanRead(g, r, c) && EndsSegment(g, h.cursor[c])
    ensures Finish(g, Read(g, r, c), c) == Hangup(g, Read(g, r, c), c)
    ensures Read(g, r, c) == Advance(g, Take(g, r, c), c)
    ensures !Read(g, r, c).canFree[c] && c == Holder(g, h)
  {
    assert CursorOk(g, r, h, c);
    LockedOut(g, r, h, c);
    LastDescriptorMeaning(g, h.cursor[c]);
    PreviousOfSelf(g, c);
    SecondReleaseIdle(g, Take(g, r, c), c);
  }

  lemma {:induction false} EndAndFinishKeepsInv(g: Geometry, r: Ring, h: History, c: nat)
    requires Inv(g, r, h) && c < g.consumers && CanRead(g, r, c) && EndsSegment(g, h.cursor[c])
    ensures Inv(g, Finish(g, Read(g, r, c), c), AfterBoth(g, h, c))
    ensures h.tailPos <= AfterBoth(g, h, c).tailPos
  {
    hide Read, Finish, CanRead, Tokens, Releases, CursorOk, Quiet, SlotOk;
    EndOfSegmentFinish(g, r, h, c);
    TakeReaches(g, r, h, c);
    AdvanceKeepsInv(g, Take(g, r, c), AfterTake(g, h, c), c);
    NextSegment(g, h.cursor[c]);
    HangupKeepsInv(g, Read(g, r, c), AfterBoth(g, h, c), c);
  }

  lemma {:induction false} InsideAndFinishKeepsInv(g: Geometry, r: Ring, h: History, c: nat)
    requires Inv(g, r, h) && c < g.consumers && CanRead(g, r, c) && !EndsSegment(g, h.cursor[c])
    ensures Inv(g, Finish(g, Read(g, r, c), c), AfterBoth(g, h, c))
    ensures h.tailPos <= AfterBoth(g, h, c).tailPos
  {
    hide Finish, CanRead, Tokens, Releases, CursorOk, Quiet, SlotOk;
    ReadKeepsInv(g, r, h, c);
    LastIsLast(g, Read(g, r, c), AfterRead(g, r, h, c), c);
    FinishKeepsInv(g, Read(g, r, c), AfterRead(g, r, h, c), c);
  }

  lemma {:induction false} ReadAndFinishKeepsInv(g: Geometry, r: Ring, h: History, c: nat)
    requires Inv(g, r, h) && c < g.consumers && CanRead(g, r, c)
    ensures Inv(g, Finish(g, Read(g, r, c), c), AfterBoth(g, h, c))
    ensures h.tailPos <= AfterBoth(g, h, c).tailPos
  {
    hide Read, Finish, CanRead, Tokens, Releases, CursorOk, Quiet, SlotOk, Released;
    if EndsSegment(g, h.cursor[c]) {
      EndAndFinishKeepsInv(g, r, h, c);
    } else {
      InsideAndFinishKeepsInv(g, r, h, c);
    }
  }
}
