/** What the descriptor protocol cannot do: rings too small to go on, and releases that come too late. */
module RingLimits {
  import opened Cyclic
  import opened Geometry
  import opened RingProtocol
  import opened RingSafety
  import opened RingRuns

  // ----- A ring before any frame arrives -----

  /** The ring as the driver configures it before any frame arrives: N - 1 descriptors posted. */
  function Fresh(g: Geometry): (r: Ring)
    requires g.Valid()
    ensures r.Shape(g)
  {
    Ring(seq(g.Size(), (i: nat) => Descriptor(false, 0)), 0, g.Size() - 1,
         seq(g.consumers, (c: nat) => Thread(FreshIndex(g, c), 0, 0)),
         seq(g.consumers, (c: nat) => c == 0), seq(g.consumers, (c: nat) => false),
         seq(g.consumers, (c: nat) => []))
  }

  function FreshIndex(g: Geometry, c: nat): (i: nat)
    requires g.Valid()
    ensures i < g.Size()
    ensures c < g.consumers ==> i == c * g.segment
  {
    StartOrder(g, c, g.consumers);
    if c < g.consumers then c * g.segment else 0
  }

  lemma {:induction false} FreshIsLaunched(g: Geometry)
    requires g.Valid()
    ensures Launched(g, Fresh(g), 0) && NicReady(g, Fresh(g), 0, g.Size() - 1)
  {
    DivModUnique(g.Size() - 1, 0, g.Size() - 1, g.Size());
    DivModUnique(0, 0, 0, g.Size());
    DivModUnique(0, 0, 0, g.segment);
  }

  // ----- Frames that are read as they arrive -----

  /** After k frames, each read as soon as it came.  Every thread but `stays` has left its call; that one
      is still in the call in which it read the last frame of its first segment.  With
      `stays == g.consumers` all have left. */
  ghost predicate InLockstep(g: Geometry, r: Ring, h: History, k: nat, stays: nat) {
    && Inv(g, r, h)
    && r.head == h.released == k
    && h.tailPos == (if k == 0 then g.Size() - 1 else RoundedTail(g, k))
    && (forall d :: 0 <= d < g.consumers && d != stays ==> r.threads[d].count == 0)
    && (stays < g.consumers && Start(g, stays + 1) <= k ==>
          r.threads[stays].count > 0 && h.last[stays] == Start(g, stays + 1) - 1)
  }

  lemma {:induction false} LockstepCursor(g: Geometry, r: Ring, h: History, k: nat, stays: nat)
    requires InLockstep(g, r, h, k, stays)
    ensures h.cursor[Holder(g, h)] == k && Holder(g, h) == Owner(g, k) && SegmentOf(g, k) == h.token
  {
    var c := Holder(g, h);
    assert CursorOk(g, r, h, c);
    CursorsAboveReleased(g, r, h, c);
    SegmentBounds(g, h.cursor[c]);
  }

  lemma {:induction false} LockstepRests(g: Geometry, r: Ring, h: History, k: nat)
    requires InLockstep(g, r, h, k, g.consumers)
    ensures Resting(g, r)
  {
    forall s | 0 <= s < g.Size() ensures !r.slots[s].done {
      if r.slots[s].done {
        DoneIsUnread(g, r, h, s);
        CursorsAboveReleased(g, r, h, Owner(g, r.slots[s].frame));
        assert false;
      }
    }
  }

  /** In a ring of eight descriptors or fewer the rounded tail stays at 0 once the first frame is back. */
  lemma {:induction false} LockstepTail(g: Geometry, r: Ring, h: History, k: nat, stays: nat)
    requires InLockstep(g, r, h, k, stays) && k <= g.Size() <= TAIL_GRAIN
    ensures r.tail == if k == 0 then g.Size() - 1 else 0
    ensures NicCanFill(g, r) <==> k < g.Size() && g.Size() > 1
  {
    hide CursorOk, Quiet, SlotOk, Tokens, RoundedTail;
    var n := g.Size();
    if k == 0 {
      DivModUnique(n - 1, 0, n - 1, n);
      DivModUnique(0, 0, 0, n);
    } else {
      RoundedTailSlot(g, k - 1);
      DivModUnique(k - 1, 0, k - 1, n);
      if k == n {
        DivModUnique(k, 1, 0, n);
      } else {
        DivModUnique(k, 0, k, n);
      }
    }
  }

  lemma NicGoesOn(g: Geometry, r: Ring, h: History)
    requires Inv(g, r, h) && r.head < h.tailPos
    ensures NicCanFill(g, r)
  {
    if NicCanFill(g, r) {
    } else {
      SameOffset(r.head, h.tailPos, g.Size());
      assert false;
    }
  }

  lemma {:induction false} LockstepGoing(g: Geometry, r: Ring, h: History, k: nat, stays: nat)
    requires InLockstep(g, r, h, k, stays) && g.Size() > 1
    requires g.Size() > TAIL_GRAIN || k < g.Size()
    ensures NicCanFill(g, r)
  {
    if g.Size() <= TAIL_GRAIN {
      LockstepTail(g, r, h, k, stays);
    } else {
      if k > 0 {
        RoundingTrails(g, k, k);
      }
      NicGoesOn(g, r, h);
    }
  }

  lemma {:induction false} LockstepFills(g: Geometry, r: Ring, h: History, k: nat, stays: nat)
    requires InLockstep(g, r, h, k, stays) && NicCanFill(g, r)
    ensures var r1 := NicFill(g, r);
            && Enabled(g, r, Nic) && Perform(g, r, Nic) == r1
            && Inv(g, r1, h)
            && CanRead(g, r1, Owner(g, k))
  {
    var c := Owner(g, k);
    LockstepCursor(g, r, h, k, stays);
    NicKeepsInv(g, r, h);
    var r1 := NicFill(g, r);
    LockedOut(g, r1, h, c);
    DoneMeansArrived(g, r1, h, c);
    assert CursorOk(g, r, h, c);
  }

  /** The step that reads frame k. */
  function Reader(g: Geometry, k: nat, stays: nat): Action
    requires g.Valid()
  {
    if stays < g.consumers && k + 1 == Start(g, stays + 1) then Poll(Owner(g, k)) else PollAndLeave(Owner(g, k))
  }

  lemma StaysReads(g: Geometry, k: nat, stays: nat)
    requires g.Valid() && stays < g.consumers
    ensures k + 1 == Start(g, stays + 1) ==> Owner(g, k) == stays && EndsSegment(g, k)
    ensures Start(g, stays + 1) <= k < Start(g, stays + g.consumers) ==> Owner(g, k) != stays
  {
    DivModUnique(stays, 0, stays, g.consumers);
    if k + 1 == Start(g, stays + 1) {
      StartOrder(g, stays, stays);
      SegmentUnique(g, stays, g.segment - 1);
    } else if Start(g, stays + 1) <= k < Start(g, stays + g.consumers) {
      var s := SegmentOf(g, k);
      SegmentBounds(g, k);
      StartOrder(g, s + 1, stays + 1);
      StartOrder(g, stays + g.consumers, s);
      OwnersDiffer(g, stays, s - stays);
    }
  }

  lemma {:induction false} LockstepLeaves(g: Geometry, r: Ring, h: History, k: nat)
    requires Inv(g, r, h) && h.cursor[Holder(g, h)] == k && Holder(g, h) == Owner(g, k)
    requires r.head == k + 1 && CanRead(g, r, Owner(g, k))
    ensures var c, r', h' := Owner(g, k), Perform(g, r, PollAndLeave(Owner(g, k))), AfterBoth(g, h, Owner(g, k));
            && Inv(g, r', h')
            && r'.head == h'.released == k + 1 && h'.tailPos == RoundedTail(g, k + 1)
            && r'.threads[c].count == 0
            && (forall d :: 0 <= d < g.consumers && d != c ==> r'.threads[d] == r.threads[d] && h'.last[d] == h.last[d])
  {
    ReadAndFinishKeepsInv(g, r, h, Owner(g, k));
    hide Inv;
  }

  lemma {:induction false} LockstepStays(g: Geometry, r: Ring, h: History, k: nat)
    requires Inv(g, r, h) && h.cursor[Holder(g, h)] == k && Holder(g, h) == Owner(g, k)
    requires r.head == k + 1 && CanRead(g, r, Owner(g, k)) && EndsSegment(g, k)
    ensures var c, r', h' := Owner(g, k), Perform(g, r, Poll(Owner(g, k))), AfterBoth(g, h, Owner(g, k));
            && Inv(g, r', h')
            && r'.head == h'.released == k + 1 && h'.tailPos == RoundedTail(g, k + 1)
            && r'.threads[c].count > 0 && h'.last[c] == k
            && (forall d :: 0 <= d < g.consumers && d != c ==> r'.threads[d] == r.threads[d] && h'.last[d] == h.last[d])
  {
    var c := Owner(g, k);
    assert CursorOk(g, r, h, c);
    LastDescriptorMeaning(g, k);
    ReadKeepsInv(g, r, h, c);
    hide Inv, CursorOk;
  }

  lemma {:induction false} LockstepReads(g: Geometry, r: Ring, h: History, k: nat, stays: nat)
    requires InLockstep(g, r, h, k, stays) && NicCanFill(g, r)
    requires stays < g.consumers ==> k < Start(g, stays + g.consumers)
    requires Inv(g, NicFill(g, r), h) && CanRead(g, NicFill(g, r), Owner(g, k))
    ensures Enabled(g, NicFill(g, r), Reader(g, k, stays))
    ensures InLockstep(g, Perform(g, NicFill(g, r), Reader(g, k, stays)), AfterBoth(g, h, Owner(g, k)), k + 1, stays)
  {
    var r1 := NicFill(g, r);
    LockstepCursor(g, r, h, k, stays);
    if stays < g.consumers {
      StaysReads(g, k, stays);
    }
    hide Inv, CanRead, Finish, Read;
    if Reader(g, k, stays).Poll? {
      LockstepStays(g, r1, h, k);
    } else {
      LockstepLeaves(g, r1, h, k);
    }
  }

  lemma {:induction false} LockstepRound(g: Geometry, r: Ring, h: History, k: nat, stays: nat)
    requires InLockstep(g, r, h, k, stays) && NicCanFill(g, r)
    requires stays < g.consumers ==> k < Start(g, stays + g.consumers)
    ensures var round := [Nic, Reader(g, k, stays)];
            && Legal(g, r, round)
            && InLockstep(g, After(g, r, round), AfterBoth(g, h, Owner(g, k)), k + 1, stays)
  {
    LockstepFills(g, r, h, k, stays);
    LockstepReads(g, r, h, k, stays);
    hide *;
    var a := Reader(g, k, stays);
    OneStep(g, NicFill(g, r), a);
    Prepend(g, r, Nic, [a]);
    assert [Nic] + [a] == [Nic, a];
  }

  ghost predicate RunsTo(g: Geometry, steps: seq<Action>, h: History, k: nat, stays: nat)
    requires g.Valid()
  {
    Legal(g, Fresh(g), steps) && InLockstep(g, After(g, Fresh(g), steps), h, k, stays)
  }

  ghost predicate CanRun(g: Geometry, k: nat, stays: nat)
    requires g.Valid()
  {
    exists steps, h :: RunsTo(g, steps, h, k, stays)
  }

  lemma {:induction false} LockstepBegins(g: Geometry, stays: nat)
    requires g.Valid()
    ensures CanRun(g, 0, stays)
  {
    FreshIsLaunched(g);
    LaunchEstablishesInv(g, Fresh(g), 0, g.Size() - 1);
    StartOrder(g, 0, stays + 1);
    assert RunsTo(g, [], LaunchHistory(g, 0, g.Size() - 1), 0, stays);
  }

  lemma {:induction false} LockstepGoesOn(g: Geometry, steps: seq<Action>, h: History, k: nat, stays: nat)
    requires g.Valid() && g.Size() > 1 && (g.Size() > TAIL_GRAIN || k < g.Size())
    requires stays < g.consumers ==> k < Start(g, stays + g.consumers)
    requires RunsTo(g, steps, h, k, stays)
    ensures CanRun(g, k + 1, stays)
  {
    var r := After(g, Fresh(g), steps);
    LockstepGoing(g, r, h, k, stays);
    LockstepRound(g, r, h, k, stays);
    hide InLockstep, Legal, After;
    LegalAppend(g, Fresh(g), steps, [Nic, Reader(g, k, stays)]);
    assert RunsTo(g, steps + [Nic, Reader(g, k, stays)], AfterBoth(g, h, Owner(g, k)), k + 1, stays);
  }

  lemma {:induction false} LockstepRuns(g: Geometry, k: nat, stays: nat)
    requires g.Valid() && g.Size() > 1 && (g.Size() > TAIL_GRAIN || k <= g.Size())
    requires stays < g.consumers ==> k <= Start(g, stays + g.consumers)
    ensures CanRun(g, k, stays)
    decreases k
  {
    hide RunsTo;
    if k == 0 {
      LockstepBegins(g, stays);
    } else {
      LockstepRuns(g, k - 1, stays);
      var steps, h :| RunsTo(g, steps, h, k - 1, stays);
      LockstepGoesOn(g, steps, h, k - 1, stays);
    }
  }

  // ----- How many descriptors a ring needs -----

  /** No frame waits, no call is open and the NIC has no descriptor: nothing will ever happen. */
  ghost predicate Stalled(g: Geometry, r: Ring)
    requires r.Shape(g)
  {
    Resting(g, r) && !NicCanFill(g, r)
  }

  /** While no departure comes too late, the rounding of the tail to eight is what limits the ring: a run can
      come to a stop for good exactly when the ring has eight descriptors or fewer. */
  lemma {:induction false} StallsIffTailCannotMove(g: Geometry)
    requires g.Valid()
    ensures (exists steps :: Legal(g, Fresh(g), steps) && Stalled(g, After(g, Fresh(g), steps)))
            <==> g.Size() <= TAIL_GRAIN
  {
    FreshIsLaunched(g);
    if g.Size() > TAIL_GRAIN {
      forall steps | Legal(g, Fresh(g), steps) ensures !Stalled(g, After(g, Fresh(g), steps)) {
        RunsNeverStall(g, Fresh(g), 0, g.Size() - 1, steps);
      }
    } else {
      SmallRingStalls(g);
    }
  }

  lemma {:induction false} SmallRingStalls(g: Geometry)
    requires g.Valid() && g.Size() <= TAIL_GRAIN
    ensures exists steps :: Legal(g, Fresh(g), steps) && Stalled(g, After(g, Fresh(g), steps))
  {
    if g.Size() == 1 {
      hide Perform, Enabled;
      assert Legal(g, Fresh(g), []) && After(g, Fresh(g), []) == Fresh(g);
      DivModUnique(0, 0, 0, 1);
      assert Stalled(g, After(g, Fresh(g), []));
    } else {
      LockstepRuns(g, g.Size(), g.consumers);
      hide Fresh, Perform, Enabled, Inv;
      var steps, h :| RunsTo(g, steps, h, g.Size(), g.consumers);
      LockstepTail(g, After(g, Fresh(g), steps), h, g.Size(), g.consumers);
      LockstepRests(g, After(g, Fresh(g), steps), h, g.Size());
      assert Stalled(g, After(g, Fresh(g), steps));
    }
  }

  // ----- The release that comes too late -----

  /** Where a late release puts the tail: at the end of the segment the thread has yet to read. */
  lemma {:induction false} LateTail(g: Geometry, r: Ring, h: History, c: nat)
    requires Inv(g, r, h) && c < g.consumers && TooLate(g, r, c)
    ensures c == Holder(g, h) && r.threads[c].last == Slot(g, h.last[c])
    ensures h.cursor[c] == Start(g, h.token) && g.Size() + h.last[c] + 1 == Start(g, h.token) + g.segment
    ensures RoundedTail(g, h.last[c] + 1) >= 0
    ensures var r' := Finish(g, r, c);
            && r'.slots == r.slots && r'.head == r.head
            && r'.tail == Slot(g, RoundedTail(g, h.last[c] + 1))
  {
    var last := h.last[c];
    assert CursorOk(g, r, h, c);
    LastIsLast(g, r, h, c);
    LockedOut(g, r, h, c);
    CursorsAboveReleased(g, r, h, c);
    NextSegment(g, last);
    SegmentBounds(g, last);
    SegmentBounds(g, h.cursor[c]);
    StartOrder(g, SegmentOf(g, last), SegmentOf(g, last));
    RoundedTailSlot(g, last);
  }

  /** The NIC is at most at the late tail or within a lap beyond it. */
  lemma {:induction false} LateRange(g: Geometry, r: Ring, h: History, c: nat)
    requires Inv(g, r, h) && c < g.consumers && TooLate(g, r, c)
    ensures var p := RoundedTail(g, h.last[c] + 1);
            && p < Start(g, h.token) + g.segment <= r.head + g.segment
            && r.head <= p + g.Size()
            && (Start(g, h.token) < p <==> r.threads[c].last % TAIL_GRAIN + 1 < g.segment)
  {
    var last, n := h.last[c], g.Size();
    LateTail(g, r, h, c);
    HeadInLap(g, r, h, c);
    OwnerPeriod(g, last);
    var p := RoundedTail(g, last + 1);
    assert RoundedTail(g, n + last + 1) == p + n;
    RoundingTrails(g, h.released + 1, n + last + 1);
  }

  lemma {:induction false} LateWindow(g: Geometry, r: Ring, h: History, c: nat)
    requires Inv(g, r, h) && c < g.consumers && TooLate(g, r, c)
    ensures var p := RoundedTail(g, h.last[c] + 1);
            && p < Start(g, h.token) + g.segment && r.head <= p + g.Size()
            && Distance(Slot(g, r.head), Finish(g, r, c).tail, g.Size()) ==
                 if r.head <= p then p - r.head else p + g.Size() - r.head
  {
    var p, n := RoundedTail(g, h.last[c] + 1), g.Size();
    LateTail(g, r, h, c);
    LateRange(g, r, h, c);
    hide Inv, Finish, RoundedTail, TooLate;
    OwnerPeriod(g, p);
    if r.head <= p {
      DistanceOfPositions(r.head, p, n);
    } else if r.head < p + n {
      DistanceOfPositions(r.head, p + n, n);
    }
  }

  lemma {:induction false} LateSafe(g: Geometry, r: Ring, h: History, c: nat)
    requires Inv(g, r, h) && c < g.consumers && TooLate(g, r, c)
    requires var p := RoundedTail(g, h.last[c] + 1); r.head <= p || p <= Start(g, h.token)
    ensures TailIsSafe(g, Finish(g, r, c))
  {
    var n := g.Size();
    LateTail(g, r, h, c);
    LateWindow(g, r, h, c);
    var r' := Finish(g, r, c);
    hide Finish, RoundedTail, TooLate, Tokens, Releases, CursorOk, Quiet;
    forall j {:trigger Slot(g, j)} | r'.head <= j < r'.head + Distance(Slot(g, r'.head), r'.tail, n)
      ensures !r'.slots[Slot(g, j)].done
    {
      CursorsAboveReleased(g, r, h, Owner(g, j));
      assert SlotOk(g, r, h, j);
    }
  }

  lemma {:induction false} LateUnsafe(g: Geometry, r: Ring, h: History, c: nat)
    requires Inv(g, r, h) && c < g.consumers && TooLate(g, r, c)
    requires Start(g, h.token) < RoundedTail(g, h.last[c] + 1) < r.head
    ensures !TailIsSafe(g, Finish(g, r, c))
  {
    var p, n := RoundedTail(g, h.last[c] + 1), g.Size();
    LateTail(g, r, h, c);
    LateRange(g, r, h, c);
    HeadInLap(g, r, h, c);
    OwnerPeriod(g, p);
    DistanceOfPositions(r.head, p + n, n);
    var j := h.cursor[c] + n;
    assert CursorOk(g, r, h, c);
    OwnerPeriod(g, h.cursor[c]);
    assert SlotOk(g, r, h, j);
    assert Finish(g, r, c).slots[Slot(g, j)].done;
  }

  /** What a late release does at once: it hands out descriptors whose frames are unread exactly when the NIC
      has passed the rounded end of the thread's segment; a segment that lies inside one group of eight has no
      such place.  What becomes of the ring later, either way, is in `RingDepartures` and `RingLosses`. */
  lemma {:induction false} LateReleaseUnsafeIff(g: Geometry, r: Ring, h: History, c: nat)
    requires Inv(g, r, h) && c < g.consumers && TooLate(g, r, c)
    ensures !TailIsSafe(g, Finish(g, r, c)) <==>
              r.threads[c].last % TAIL_GRAIN + 1 < g.segment && RoundedTail(g, h.last[c] + 1) < r.head
  {
    LateRange(g, r, h, c);
    if Start(g, h.token) < RoundedTail(g, h.last[c] + 1) < r.head {
      LateUnsafe(g, r, h, c);
    } else {
      LateSafe(g, r, h, c);
    }
  }

  // ----- A run that gets there -----

  /** The last descriptor of thread c is not in the same group of eight as its first. */
  predicate Straddles(g: Geometry, c: nat)
    requires g.Valid()
  {
    LastDescriptorOf(g, c) % TAIL_GRAIN + 1 < g.segment
  }

  function Nics(n: nat): (steps: seq<Action>)
    ensures |steps| == n
  {
    if n == 0 then [] else [Nic] + Nics(n - 1)
  }

  lemma {:induction false} NicsFill(g: Geometry, r: Ring, h: History, n: nat)
    requires Inv(g, r, h) && r.head + n <= h.tailPos
    ensures Legal(g, r, Nics(n))
    ensures var r' := After(g, r, Nics(n));
            && Inv(g, r', h) && r'.head == r.head + n
            && r'.threads == r.threads
    decreases n
  {
    if n > 0 {
      NicGoesOn(g, r, h);
      NicKeepsInv(g, r, h);
      NicsFill(g, NicFill(g, r), h, n - 1);
      hide Inv;
      Prepend(g, r, Nic, Nics(n - 1));
    }
  }

  lemma SlotOfLast(g: Geometry, c: nat)
    requires g.Valid() && c < g.consumers
    ensures Start(g, c + 1) > 0 && Start(g, c + 1) <= g.Size()
    ensures LastDescriptorOf(g, c) == Start(g, c + 1) - 1 == Slot(g, Start(g, c + 1) - 1)
  {
    StartOrder(g, c + 1, g.consumers);
    StartOrder(g, 0, c + 1);
    DivModUnique(Start(g, c + 1) - 1, 0, Start(g, c + 1) - 1, g.Size());
  }

  /** When the token comes back to thread c, the tail is already past the rounded end of its segment. */
  lemma {:induction false} RoomToPass(g: Geometry, c: nat)
    requires g.Valid() && g.consumers > 1 && c < g.consumers && Straddles(g, c)
    ensures g.Size() > TAIL_GRAIN
    ensures Start(g, c + 1) > 0 && Start(g, c + g.consumers) > 0
    ensures Start(g, c + g.consumers) <= RoundedTail(g, Start(g, c + 1))
    ensures RoundedTail(g, Start(g, c + 1)) < RoundedTail(g, Start(g, c + g.consumers))
  {
    var n := g.Size();
    SlotOfLast(g, c);
    StartOrder(g, c, c);
    StartOrder(g, 2, g.consumers);
    StartOrder(g, 1, 1);
    var k := Start(g, c + g.consumers);
    if c == 0 {
      DivModUnique(k - 1, 0, k - 1, n);
    } else {
      StartOrder(g, 1, c);
      DivModUnique(k - 1, 1, Start(g, c) - 1, n);
    }
  }

  lemma {:induction false} LateReleaseReached(g: Geometry, c: nat)
    requires g.Valid() && g.consumers > 1 && c < g.consumers && Straddles(g, c)
    ensures exists steps :: Legal(g, Fresh(g), steps) && !TailIsSafe(g, Finish(g, After(g, Fresh(g), steps), c))
  {
    RoomToPass(g, c);
    var k := Start(g, c + g.consumers);
    hide RunsTo, RoundedTail, Straddles, TailIsSafe, Finish, Fresh;
    LockstepRuns(g, k, c);
    var steps, h :| RunsTo(g, steps, h, k, c);
    ReachedFrom(g, steps, h, k, c);
  }

  lemma {:induction false} PassesEnd(g: Geometry, r: Ring, h: History, k: nat, c: nat)
    requires g.consumers > 1 && c < g.consumers && InLockstep(g, r, h, k, c) && Straddles(g, c)
    requires k == Start(g, c + g.consumers) && k > 0 && Start(g, c + 1) > 0
    requires k <= RoundedTail(g, Start(g, c + 1)) < RoundedTail(g, k)
    ensures var steps := Nics(RoundedTail(g, Start(g, c + 1)) + 1 - k);
            Legal(g, r, steps) && !TailIsSafe(g, Finish(g, After(g, r, steps), c))
  {
    hide Perform, Enabled, TailIsSafe, Finish, RoundedTail, TooLate, Releases, Tokens, CursorOk, Quiet, SlotOk;
    var n := RoundedTail(g, Start(g, c + 1)) + 1 - k;
    StartOrder(g, c + 1, c + g.consumers);
    LockstepCursor(g, r, h, k, c);
    NicsFill(g, r, h, n);
    BackTooLate(g, After(g, r, Nics(n)), h, k, c);
    LateReleaseUnsafeIff(g, After(g, r, Nics(n)), h, c);
  }

  lemma {:induction false} ReachedFrom(g: Geometry, steps: seq<Action>, h: History, k: nat, c: nat)
    requires g.Valid() && g.consumers > 1 && c < g.consumers && Straddles(g, c)
    requires k == Start(g, c + g.consumers) && RunsTo(g, steps, h, k, c)
    requires k > 0 && Start(g, c + 1) > 0 && k <= RoundedTail(g, Start(g, c + 1)) < RoundedTail(g, k)
    ensures var all := steps + Nics(RoundedTail(g, Start(g, c + 1)) + 1 - k);
            Legal(g, Fresh(g), all) && !TailIsSafe(g, Finish(g, After(g, Fresh(g), all), c))
  {
    hide Fresh, InLockstep, TailIsSafe, Finish, RoundedTail, Legal, After, Straddles;
    PassesEnd(g, After(g, Fresh(g), steps), h, k, c);
    LegalAppend(g, Fresh(g), steps, Nics(RoundedTail(g, Start(g, c + 1)) + 1 - k));
  }

  lemma {:induction false} BackTooLate(g: Geometry, r: Ring, h: History, k: nat, c: nat)
    requires Inv(g, r, h) && g.consumers > 1 && c < g.consumers && k == Start(g, c + g.consumers)
    requires r.threads[c].count > 0 && h.last[c] == Start(g, c + 1) - 1 && Holder(g, h) == Owner(g, k)
    ensures TooLate(g, r, c) && r.threads[c].last == LastDescriptorOf(g, c)
  {
    assert CursorOk(g, r, h, c);
    SegmentUnique(g, c + g.consumers, 0);
    AddPeriod(c, g.consumers);
    DivModUnique(c, 0, c, g.consumers);
    SlotOfLast(g, c);
    StaysReads(g, h.last[c], c);
    LastIsLast(g, r, h, c);
    LockedOut(g, r, h, c);
  }

  /** From a fresh ring, the release after the loop can come to hand out unread descriptors itself exactly when
      several threads share the ring and some thread's segment straddles a group of eight: a thread that
      reads its segment's last frame and is held up before it leaves, while the others read theirs. */
  lemma {:induction false} LateReleaseLosesAtOnce(g: Geometry)
    requires g.Valid()
    ensures (exists steps, c :: Legal(g, Fresh(g), steps) && 0 <= c < g.consumers
                                && !TailIsSafe(g, Finish(g, After(g, Fresh(g), steps), c)))
            <==> g.consumers > 1 && exists c :: 0 <= c < g.consumers && Straddles(g, c)
  {
    if c :| g.consumers > 1 && 0 <= c < g.consumers && Straddles(g, c) {
      LateReleaseReached(g, c);
    }
    if steps, c :| Legal(g, Fresh(g), steps) && 0 <= c < g.consumers
                   && !TailIsSafe(g, Finish(g, After(g, Fresh(g), steps), c)) {
      OnlyTooLate(g, steps, c);
    }
  }

  lemma {:induction false} OnlyTooLate(g: Geometry, steps: seq<Action>, c: nat)
    requires g.Valid() && Legal(g, Fresh(g), steps) && c < g.consumers
    requires !TailIsSafe(g, Finish(g, After(g, Fresh(g), steps), c))
    ensures g.consumers > 1 && Straddles(g, c)
  {
    FreshIsLaunched(g);
    LaunchEstablishesInv(g, Fresh(g), 0, g.Size() - 1);
    hide Inv, Fresh, Perform, Enabled, TailIsSafe, Finish, Straddles, Legal, After, LaunchHistory;
    RunKeepsInv(g, Fresh(g), LaunchHistory(g, 0, g.Size() - 1), steps);
    var h :| Inv(g, After(g, Fresh(g), steps), h) && h.first == LaunchHistory(g, 0, g.Size() - 1).first;
    UnsafeIsTooLate(g, After(g, Fresh(g), steps), h, c);
  }

  lemma {:induction false} UnsafeIsTooLate(g: Geometry, r: Ring, h: History, c: nat)
    requires Inv(g, r, h) && c < g.consumers && !TailIsSafe(g, Finish(g, r, c))
    ensures g.consumers > 1 && Straddles(g, c)
  {
    if TooLate(g, r, c) {
      LateReleaseUnsafeIff(g, r, h, c);
      LastSlot(g, r, h, c);
    } else {
      FinishKeepsInv(g, r, h, c);
      InvMeansTailIsSafe(g, Finish(g, r, c), AfterFinish(g, r, h, c));
      assert false;
    }
  }

  lemma LastSlot(g: Geometry, r: Ring, h: History, c: nat)
    requires Inv(g, r, h) && c < g.consumers && TooLate(g, r, c)
    ensures r.threads[c].last == LastDescriptorOf(g, c)
  {
    DivModUnique(r.threads[c].last, 0, r.threads[c].last, g.Size());
  }
}
