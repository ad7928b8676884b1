/** How soon a thread with the token gives descriptors back: in blocks of 32 trips, and at the end of its
    segment. */
module RingPace {
  import opened Cyclic
  import opened Geometry
  import opened RingProtocol
  import opened RingSafety
  import opened RingRuns

  /** One trip moves the tail exactly if the thread may release and the trip fills a block of 32 in its call
      or reads the last frame of a segment; the tail then stands at the frame's descriptor, rounded down to
      eight. */
  lemma {:induction false} TripReturns(g: Geometry, r: Ring, h: History, c: nat)
    requires Inv(g, r, h) && c < g.consumers && CanRead(g, r, c)
    ensures Read(g, r, c).tail ==
              if MayRelease(g, r, c) && ((r.threads[c].count + 1) % 32 == 0 || EndsSegment(g, h.cursor[c]))
              then Slot(g, h.cursor[c]) - Slot(g, h.cursor[c]) % 8
              else r.tail
    ensures MayRelease(g, r, c) && EndsSegment(g, h.cursor[c]) ==>
              Read(g, r, c).freedLast[c] && !Read(g, r, c).canFree[c]
    ensures MayRelease(g, r, c) && (r.threads[c].count + 1) % 32 == 0 && !EndsSegment(g, h.cursor[c]) ==>
              Read(g, r, c).canFree[c]
  {
    assert CursorOk(g, r, h, c);
    LastDescriptorMeaning(g, h.cursor[c]);
    PreviousOfSelf(g, c);
    hide Inv, CanRead, CursorOk;
  }

  /** Away from a release, the thread with the token has read less than a block since the last one. */
  ghost predicate Paced(g: Geometry, r: Ring, h: History)
    requires r.Shape(g) && |h.cursor| == g.consumers
  {
    forall c :: 0 <= c < g.consumers && r.canFree[c] ==> h.cursor[c] <= h.released + r.threads[c].count % 32
  }

  lemma FinishPace(g: Geometry, r: Ring, c: nat)
    requires r.Shape(g) && c < g.consumers
    ensures var r' := Finish(g, r, c);
            && r'.threads[c].count == 0
            && forall d :: 0 <= d < g.consumers && d != c ==>
                 r'.threads[d] == r.threads[d] && (r'.canFree[d] <==> r.canFree[d])
  {
    hide IsLastOf, PreviousConsumer;
  }

  lemma ReadPace(g: Geometry, r: Ring, c: nat)
    requires r.Shape(g) && c < g.consumers
    ensures var r' := Read(g, r, c);
            && r'.threads[c].count == r.threads[c].count + 1
            && forall d :: 0 <= d < g.consumers && d != c ==>
                 r'.threads[d] == r.threads[d] && (r'.canFree[d] <==> r.canFree[d])
  {
    hide IsLastOf, PreviousConsumer, CalcNext;
  }

  /** Who has the token when thread c moves, and what the move leaves of the others. */
  lemma {:induction false} OthersKeepPace(g: Geometry, r: Ring, h: History, r': Ring, h': History, c: nat)
    requires Inv(g, r, h) && Paced(g, r, h) && Inv(g, r', h') && c < g.consumers
    requires forall d :: 0 <= d < g.consumers && d != c ==>
               r'.threads[d] == r.threads[d] && (r'.canFree[d] <==> r.canFree[d]) && h'.cursor[d] == h.cursor[d]
    requires c != Holder(g, h) ==> h'.released == h.released
    requires r'.canFree[c] ==> h'.cursor[c] <= h'.released + r'.threads[c].count % 32
    ensures Paced(g, r', h')
  {
    hide CursorOk, Quiet, Releases, SlotOk;
  }

  /** What a trip leaves its thread to give back: nothing, or one frame more than before. */
  lemma {:induction false} TripOwes(g: Geometry, r: Ring, h: History, c: nat)
    requires Inv(g, r, h) && c < g.consumers && CanRead(g, r, c)
    ensures var r', h' := Read(g, r, c), AfterRead(g, r, h, c);
            && (r'.canFree[c] ==>
                  || h'.cursor[c] == h'.released
                  || (r.canFree[c] && h'.cursor[c] == h.cursor[c] + 1 && h'.released == h.released
                      && (r.threads[c].count + 1) % 32 != 0))
            && (c != Holder(g, h) ==> h'.released == h.released)
            && forall d :: 0 <= d < g.consumers && d != c ==> h'.cursor[d] == h.cursor[d]
  {
    assert CursorOk(g, r, h, c);
    TripReturns(g, r, h, c);
    LockedOut(g, r, h, c);
    NextSegment(g, h.cursor[c]);
    LastDescriptorMeaning(g, h.cursor[c]);
    hide Inv, CanRead, CursorOk, RoundedTail, IsLastOf;
  }

  lemma {:induction false} PollPaced(g: Geometry, r: Ring, h: History, c: nat)
    requires Inv(g, r, h) && Paced(g, r, h) && c < g.consumers && CanRead(g, r, c)
    ensures Paced(g, Read(g, r, c), AfterRead(g, r, h, c))
  {
    hide Inv, CanRead, Read, AfterRead;
    InvHasShape(g, r, h);
    ReadKeepsInv(g, r, h, c);
    TripOwes(g, r, h, c);
    ReadPace(g, r, c);
    InvHasShape(g, Read(g, r, c), AfterRead(g, r, h, c));
    OthersKeepPace(g, r, h, Read(g, r, c), AfterRead(g, r, h, c), c);
  }

  lemma InvHasShape(g: Geometry, r: Ring, h: History)
    requires Inv(g, r, h)
    ensures r.Shape(g) && |h.cursor| == |h.last| == g.consumers
  {
  }

  lemma {:induction false} EndedPaced(g: Geometry, r: Ring, h: History, c: nat)
    requires Inv(g, r, h) && c < g.consumers && r.threads[c].count == 0 && r.canFree[c]
    ensures h.cursor[c] == h.released
  {
    assert Quiet(g, r, h, c);
  }

  lemma {:induction false} LeavePaced(g: Geometry, r: Ring, h: History, c: nat)
    requires Inv(g, r, h) && Paced(g, r, h) && c < g.consumers && !TooLate(g, r, c)
    ensures Paced(g, Finish(g, r, c), AfterFinish(g, r, h, c))
  {
    var r', h' := Finish(g, r, c), AfterFinish(g, r, h, c);
    FinishKeepsInv(g, r, h, c);
    FinishPace(g, r, c);
    hide Inv, Finish, RoundedTail;
    if r'.canFree[c] {
      EndedPaced(g, r', h', c);
    }
    OthersKeepPace(g, r, h, r', h', c);
  }

  lemma {:induction false} PollAndLeavePaced(g: Geometry, r: Ring, h: History, c: nat)
    requires Inv(g, r, h) && Paced(g, r, h) && c < g.consumers && CanRead(g, r, c)
    ensures Paced(g, Finish(g, Read(g, r, c), c), AfterBoth(g, h, c))
  {
    var r', h' := Finish(g, Read(g, r, c), c), AfterBoth(g, h, c);
    ReadAndFinishKeepsInv(g, r, h, c);
    ReadPace(g, r, c);
    FinishPace(g, Read(g, r, c), c);
    hide Inv, CanRead, Finish, Read, RoundedTail;
    if r'.canFree[c] {
      EndedPaced(g, r', h', c);
    }
    OthersKeepPace(g, r, h, r', h', c);
  }

  lemma {:induction false} StepPaced(g: Geometry, r: Ring, h: History, a: Action)
    requires Inv(g, r, h) && Paced(g, r, h) && Enabled(g, r, a)
    ensures Paced(g, Perform(g, r, a), NextHistory(g, r, h, a))
  {
    match a
    case Nic =>
    case Poll(c) => PollPaced(g, r, h, c);
    case Leave(c) => LeavePaced(g, r, h, c);
    case PollAndLeave(c) => PollAndLeavePaced(g, r, h, c);
  }

  lemma {:induction false} RunPaced(g: Geometry, r: Ring, h: History, steps: seq<Action>)
    requires Inv(g, r, h) && Paced(g, r, h) && Legal(g, r, steps)
    ensures exists h' :: Inv(g, After(g, r, steps), h') && Paced(g, After(g, r, steps), h') && h'.first == h.first
    decreases |steps|
  {
    if |steps| > 0 {
      StepKeepsInv(g, r, h, steps[0]);
      StepPaced(g, r, h, steps[0]);
      hide Inv, Paced, Perform, Enabled, NextHistory;
      RunPaced(g, Perform(g, r, steps[0]), NextHistory(g, r, h, steps[0]), steps[1..]);
    }
  }

  ghost predicate OwesLessThanBlock(g: Geometry, r: Ring, h: History)
    requires r.Shape(g) && |h.cursor| == g.consumers
  {
    forall c :: 0 <= c < g.consumers && r.canFree[c] ==> h.released <= h.cursor[c] < h.released + 32
  }

  lemma PacedOwes(g: Geometry, r: Ring, h: History)
    requires Inv(g, r, h) && Paced(g, r, h)
    ensures OwesLessThanBlock(g, r, h)
  {
    hide CursorOk, Quiet, SlotOk, RoundedTail;
  }

  /** In every state of every run a thread that has the token has read fewer than 32 frames that it has not
      given back. */
  lemma {:induction false} RunsReturnBlocks(g: Geometry, r: Ring, first: nat, tailPos: nat, steps: seq<Action>)
    requires Launched(g, r, first) && NicReady(g, r, first, tailPos) && Legal(g, r, steps)
    ensures exists h :: Inv(g, After(g, r, steps), h) && h.first == first
                        && OwesLessThanBlock(g, After(g, r, steps), h)
  {
    hide CursorOk, Quiet, SlotOk, Releases, Tokens, Paced, OwesLessThanBlock, Legal, After, Launched, NicReady;
    LaunchEstablishesInv(g, r, first, tailPos);
    LaunchPaced(g, r, first, tailPos);
    RunPaced(g, r, LaunchHistory(g, first, tailPos), steps);
    var r' := After(g, r, steps);
    var h :| Inv(g, r', h) && Paced(g, r', h) && h.first == first;
    PacedOwes(g, r', h);
  }

  /** On the ring itself, from a launch: the tail is never 40 descriptors behind the thread with the token,
      which is 31 frames not given back and 8 for the rounding. */
  lemma {:induction false} TailKeepsUp(g: Geometry, r: Ring, first: nat, tailPos: nat, steps: seq<Action>)
    requires Launched(g, r, first) && NicReady(g, r, first, tailPos) && Legal(g, r, steps)
    ensures var r' := After(g, r, steps);
            forall c :: 0 <= c < g.consumers && r'.canFree[c] ==>
              Distance(r'.tail, r'.threads[c].next, g.Size()) < 40
  {
    var h0 := LaunchHistory(g, first, tailPos);
    LaunchEstablishesInv(g, r, first, tailPos);
    LaunchPaced(g, r, first, tailPos);
    RunPaced(g, r, h0, steps);
    var r' := After(g, r, steps);
    var h :| Inv(g, r', h) && Paced(g, r', h) && h.first == first;
    hide Inv, Paced, Legal, After, Launched, NicReady;
    forall c | 0 <= c < g.consumers && r'.canFree[c] ensures Distance(r'.tail, r'.threads[c].next, g.Size()) < 40 {
      TailBehind(g, r', h, c);
    }
  }

  lemma {:induction false} LaunchPaced(g: Geometry, r: Ring, first: nat, tailPos: nat)
    requires Launched(g, r, first) && NicReady(g, r, first, tailPos)
    ensures r.Shape(g) && Paced(g, r, LaunchHistory(g, first, tailPos))
  {
    ConsumerOfSlot(g, first);
  }

  lemma {:induction false} TailBehind(g: Geometry, r: Ring, h: History, c: nat)
    requires Inv(g, r, h) && Paced(g, r, h) && c < g.consumers && r.canFree[c]
    ensures Distance(r.tail, r.threads[c].next, g.Size()) < 40
  {
    var n := g.Size();
    assert CursorOk(g, r, h, c) && Releases(g, r, h);
    assert h.cursor[c] <= h.released + 31;
    if h.tailPos <= h.cursor[c] + n && h.cursor[c] < h.tailPos {
      OwnerPeriod(g, h.cursor[c]);
      DistanceOfPositions(h.tailPos, h.cursor[c] + n, n);
    } else {
      assert n < 40;
    }
  }
}
