/** What becomes of the descriptor protocol when a call may end at any time: the release after its loop can
    then give away a segment the thread has yet to read. */
module RingDepartures {
  import opened Cyclic
  import opened Geometry
  import opened RingProtocol
  import opened RingSafety
  import opened RingRuns
  import opened RingLimits

  // ----- Runs with every departure -----

  predicate CodeLegal(g: Geometry, r: Ring, steps: seq<Action>)
    requires r.Shape(g)
    decreases |steps|
  {
    |steps| == 0 || (Possible(g, r, steps[0]) && CodeLegal(g, Perform(g, r, steps[0]), steps[1..]))
  }

  function CodeAfter(g: Geometry, r: Ring, steps: seq<Action>): (r': Ring)
    requires r.Shape(g) && CodeLegal(g, r, steps)
    ensures r'.Shape(g)
    decreases |steps|
  {
    if |steps| == 0 then r else CodeAfter(g, Perform(g, r, steps[0]), steps[1..])
  }

  /** No departure of the run comes too late. */
  predicate NeverLate(g: Geometry, r: Ring, steps: seq<Action>)
    requires r.Shape(g) && CodeLegal(g, r, steps)
    decreases |steps|
  {
    |steps| == 0 ||
    ((steps[0].Leave? ==> !TooLate(g, r, steps[0].c)) && NeverLate(g, Perform(g, r, steps[0]), steps[1..]))
  }

  /** The runs of `RingRuns` are those of the code in which no departure comes too late. */
  lemma {:induction false} LegalIffNeverLate(g: Geometry, r: Ring, steps: seq<Action>)
    requires r.Shape(g)
    ensures Legal(g, r, steps) <==> CodeLegal(g, r, steps) && NeverLate(g, r, steps)
    ensures Legal(g, r, steps) ==> CodeAfter(g, r, steps) == After(g, r, steps)
    decreases |steps|
  {
    hide Perform, TooLate;
    if |steps| > 0 && Possible(g, r, steps[0]) {
      LegalIffNeverLate(g, Perform(g, r, steps[0]), steps[1..]);
    }
  }

  lemma {:induction false} AloneNeverLate(g: Geometry, r: Ring, steps: seq<Action>)
    requires r.Shape(g) && g.consumers == 1 && CodeLegal(g, r, steps)
    ensures NeverLate(g, r, steps)
    decreases |steps|
  {
    hide Perform;
    if |steps| > 0 {
      AloneNeverLate(g, Perform(g, r, steps[0]), steps[1..]);
    }
  }

  lemma {:induction false} CodeAppend(g: Geometry, r: Ring, s: seq<Action>, t: seq<Action>)
    requires r.Shape(g) && CodeLegal(g, r, s) && CodeLegal(g, CodeAfter(g, r, s), t)
    ensures CodeLegal(g, r, s + t) && CodeAfter(g, r, s + t) == CodeAfter(g, CodeAfter(g, r, s), t)
    decreases |s|
  {
    if |s| == 0 {
      assert s + t == t;
    } else {
      hide Perform, Possible;
      assert (s + t)[1..] == s[1..] + t;
      CodeAppend(g, Perform(g, r, s[0]), s[1..], t);
    }
  }

  lemma CodeFirst(g: Geometry, r: Ring, a: Action, rest: seq<Action>)
    requires r.Shape(g) && Possible(g, r, a) && CodeLegal(g, Perform(g, r, a), rest)
    ensures CodeLegal(g, r, [a] + rest) && CodeAfter(g, r, [a] + rest) == CodeAfter(g, Perform(g, r, a), rest)
  {
    assert ([a] + rest)[1..] == rest;
  }

  // ----- A late departure leaves no history -----

  lemma {:induction false} FramesBelow(g: Geometry, c: nat, from: nat, to: nat)
    requires g.Valid()
    ensures forall k :: k in Frames(g, c, from, to) ==> from <= k < to
  {
    if from < to {
      FramesBelow(g, c, from, to - 1);
    }
  }

  lemma {:induction false} FramesHave(g: Geometry, c: nat, from: nat, to: nat, k: nat)
    requires g.Valid() && from <= k < to && Owner(g, k) == c
    ensures k in Frames(g, c, from, to)
  {
    if k < to - 1 {
      FramesHave(g, c, from, to - 1, k);
    }
  }

  lemma {:induction false} FramesTell(g: Geometry, c: nat, from: nat, x: nat, y: nat)
    requires g.Valid() && from <= x && from <= y && Owner(g, x) == c == Owner(g, y)
    requires Frames(g, c, from, x) == Frames(g, c, from, y)
    ensures x == y
  {
    FramesBelow(g, c, from, x);
    FramesBelow(g, c, from, y);
    if x < y {
      FramesHave(g, c, from, y, x);
    } else if y < x {
      FramesHave(g, c, from, x, y);
    }
  }

  /** What the threads have been given tells where they stand. */
  lemma {:induction false} SameCursor(g: Geometry, r: Ring, h: History, r': Ring, h': History, d: nat)
    requires Inv(g, r, h) && Inv(g, r', h') && h'.first == h.first && d < g.consumers
    requires r'.delivered == r.delivered
    ensures h'.cursor[d] == h.cursor[d]
  {
    assert CursorOk(g, r, h, d) && CursorOk(g, r', h', d);
    FramesTell(g, d, h.first, h.cursor[d], h'.cursor[d]);
  }

  lemma {:induction false} SegmentOfNext(g: Geometry, r: Ring, h: History)
    requires Inv(g, r, h) && g.consumers > 1
    ensures SegmentOf(g, h.cursor[(h.token + 1) % g.consumers]) == h.token + 1
    ensures SegmentOf(g, h.cursor[Holder(g, h)]) == h.token
    ensures PreviousConsumer(g, (h.token + 1) % g.consumers) == Holder(g, h)
  {
    var d := (h.token + 1) % g.consumers;
    assert CursorOk(g, r, h, d);
    CursorsAboveReleased(g, r, h, Holder(g, h));
    PreviousOfNext(g, h.token);
    OwnersDiffer(g, h.token, 1);
    SameOffset(h.token + 1, SegmentOf(g, h.cursor[d]), g.consumers);
  }

  lemma FinishFlags(g: Geometry, r: Ring, c: nat)
    requires r.Shape(g) && c < g.consumers && TooLate(g, r, c)
    ensures Finish(g, r, c).freedLast[c] && Finish(g, r, c).delivered == r.delivered
  {
  }

  lemma {:induction false} NoHistory(g: Geometry, r: Ring, h: History, c: nat, h': History)
    requires Inv(g, r, h) && c < g.consumers && TooLate(g, r, c)
    ensures !(Inv(g, Finish(g, r, c), h') && h'.first == h.first)
  {
    hide Finish, Releases, SlotOk, Quiet, RoundedTail;
    var r' := Finish(g, r, c);
    if Inv(g, r', h') && h'.first == h.first {
      FinishFlags(g, r, c);
      LateTail(g, r, h, c);
      SegmentOfNext(g, r, h);
      var d := (h.token + 1) % g.consumers;
      SameCursor(g, r, h, r', h', c);
      SameCursor(g, r, h, r', h', d);
      assert CursorOk(g, r', h', c) && CursorOk(g, r', h', d);
      PreviousInjective(g, Holder(g, h'), d);
      SameOffset(h'.token, h.token + 1, g.consumers);
      assert false;
    }
  }

  lemma InvShape(g: Geometry, r: Ring, h: History)
    requires Inv(g, r, h)
    ensures r.Shape(g) && |h.cursor| == |h.last| == g.consumers
  {
  }

  /** The end of a call keeps the protocol's invariant, for some history of the same ring, if and only if it
      does not come too late.  If it does, the oldest waiting frame belongs to the thread that has just given
      its token away, and nothing lets that thread release. */
  lemma {:induction false} LateReleaseBreaksInv(g: Geometry, r: Ring, h: History, c: nat)
    requires Inv(g, r, h) && c < g.consumers
    ensures (exists h': History :: h'.first == h.first && Inv(g, Finish(g, r, c), h')) <==> !TooLate(g, r, c)
    ensures TooLate(g, r, c) && h.cursor[c] < r.head ==>
              Oldest(g, Finish(g, r, c), c) && !MayRelease(g, Finish(g, r, c), c)
  {
    hide Inv, Finish, TooLate, MayRelease, Oldest;
    InvShape(g, r, h);
    if TooLate(g, r, c) {
      forall h': History ensures !(Inv(g, Finish(g, r, c), h') && h'.first == h.first) {
        NoHistory(g, r, h, c, h');
      }
      if h.cursor[c] < r.head {
        RobbedOfOldest(g, r, h, c);
      }
    } else {
      FinishKeepsInv(g, r, h, c);
      FinishKeepsFirst(g, r, h, c);
      assert Inv(g, Finish(g, r, c), AfterFinish(g, r, h, c));
    }
  }

  lemma FinishKeepsFirst(g: Geometry, r: Ring, h: History, c: nat)
    requires r.Shape(g) && |h.last| == g.consumers && c < g.consumers
    ensures AfterFinish(g, r, h, c).first == h.first
  {
    hide RoundedTail;
  }

  lemma {:induction false} RobbedOfOldest(g: Geometry, r: Ring, h: History, c: nat)
    requires Inv(g, r, h) && c < g.consumers && TooLate(g, r, c) && h.cursor[c] < r.head
    ensures Oldest(g, Finish(g, r, c), c) && !MayRelease(g, Finish(g, r, c), c)
  {
    LateTail(g, r, h, c);
    DoneMeansArrived(g, r, h, c);
    OldestIsReadable(g, r, h, r.threads[c].next);
    PreviousOfSelf(g, c);
    assert Tokens(g, r, h);
    hide Inv, CanRead, RoundedTail, CursorOk, Quiet, Releases, SlotOk;
  }

  // ----- Stopping for good -----

  /** The NIC has no descriptor, no call is open, and no thread can read: every frame that waits belongs to
      a thread that is locked out. */
  ghost predicate Dead(g: Geometry, r: Ring)
    requires r.Shape(g)
  {
    && !NicCanFill(g, r)
    && forall c :: 0 <= c < g.consumers ==> r.threads[c].count == 0 && !CanRead(g, r, c)
  }

  /** Nothing ever happens again. */
  lemma {:induction false} DeadForGood(g: Geometry, r: Ring, steps: seq<Action>)
    requires r.Shape(g) && Dead(g, r) && CodeLegal(g, r, steps)
    ensures CodeAfter(g, r, steps) == r
    decreases |steps|
  {
    if |steps| > 0 {
      var c := steps[0].c;
      assert steps[0] == Leave(c);
      assert r.threads[c := r.threads[c].(count := 0)] == r.threads;
      assert Perform(g, r, steps[0]) == r;
      DeadForGood(g, r, steps[1..]);
    }
  }

  lemma {:induction false} DeadIffStalled(g: Geometry, r: Ring, h: History)
    requires Inv(g, r, h)
    ensures Dead(g, r) <==> Stalled(g, r)
  {
    if Dead(g, r) && !Resting(g, r) {
      var s :| 0 <= s < g.Size() && r.slots[s].done;
      OldestIsReadable(g, r, h, s);
      assert false;
    }
  }

  /** Where the tail stays once thread 0 has given its second segment away unread. */
  function Stuck(g: Geometry): (b: nat)
    requires g.Valid()
    ensures b < g.segment
  {
    (g.segment - 1) / TAIL_GRAIN * TAIL_GRAIN
  }

  /** Thread 0 has given its second segment away: the NIC has filled n descriptors of it, thread 0 has read m
      of them, and nobody else has anything to read. */
  ghost predicate Robbed(g: Geometry, r: Ring, m: nat, n: nat) {
    && r.Shape(g) && g.consumers > 1
    && m <= n <= Stuck(g)
    && r.head == g.Size() + n && r.tail == Stuck(g)
    && (forall s :: 0 <= s < g.Size() ==> (r.slots[s].done <==> m <= s < n))
    && (forall d :: 0 <= d < g.consumers ==> r.threads[d].count == 0 && !r.canFree[d])
    && (forall d :: 0 <= d < g.consumers ==> r.threads[d].next == if d == 0 then m else Start(g, d))
    && (forall d :: 0 <= d < g.consumers ==> (r.freedLast[d] <==> d == 0))
  }

  lemma SecondLap(g: Geometry, n: nat)
    requires g.Valid() && n < g.Size()
    ensures Slot(g, g.Size() + n) == n
  {
    DivModUnique(g.Size() + n, 1, n, g.Size());
  }

  lemma {:induction false} LockstepStarts(g: Geometry, r: Ring, h: History, d: nat)
    requires g.consumers > 1 && InLockstep(g, r, h, g.Size(), 0) && d < g.consumers
    ensures r.threads[d].next == Start(g, d)
    ensures h.token == g.consumers && Holder(g, h) == 0
  {
    var n := g.Size();
    LockstepCursor(g, r, h, n, 0);
    StartOrder(g, 0, 0);
    SegmentUnique(g, g.consumers, 0);
    DivModUnique(g.consumers, 1, 0, g.consumers);
    assert CursorOk(g, r, h, d);
    CursorsAboveReleased(g, r, h, d);
    SegmentBounds(g, h.cursor[d]);
    var s := SegmentOf(g, h.cursor[d]);
    DivModUnique(d, 0, d, g.consumers);
    AddPeriod(d, g.consumers);
    SameOffset(if s <= d + g.consumers then s else d + g.consumers, if s <= d + g.consumers then d + g.consumers else s,
               g.consumers);
    StartOrder(g, d, g.consumers);
    StartOrder(g, g.consumers + 1, s);
    SecondLap(g, Start(g, d));
  }

  lemma {:induction false} LockstepEmpty(g: Geometry, r: Ring, h: History, k: nat, stays: nat)
    requires InLockstep(g, r, h, k, stays)
    ensures forall s :: 0 <= s < g.Size() ==> !r.slots[s].done
  {
    forall s | 0 <= s < g.Size() ensures !r.slots[s].done {
      if r.slots[s].done {
        DoneIsUnread(g, r, h, s);
        CursorsAboveReleased(g, r, h, Owner(g, r.slots[s].frame));
        assert false;
      }
    }
  }

  /** The flags and the tail after thread 0 has left too late. */
  lemma {:induction false} LateFlags(g: Geometry, r: Ring, h: History, c: nat)
    requires Inv(g, r, h) && c < g.consumers && TooLate(g, r, c)
    ensures var r' := Finish(g, r, c);
            && r'.tail == LastDescriptorOf(g, c) / TAIL_GRAIN * TAIL_GRAIN
            && (forall d :: 0 <= d < g.consumers ==> !r'.canFree[d] && (r'.freedLast[d] <==> d == c))
            && r'.threads == r.threads[c := r.threads[c].(count := 0)]
            && r'.slots == r.slots && r'.head == r.head && r'.delivered == r.delivered
  {
    LateTail(g, r, h, c);
    LastSlot(g, r, h, c);
    PreviousOfSelf(g, c);
    assert Tokens(g, r, h);
    hide Inv, CursorOk, Quiet, Releases, SlotOk, RoundedTail, LastDescriptorOf;
  }

  lemma {:induction false} RobbedBegins(g: Geometry, r: Ring, h: History)
    requires g.consumers > 1 && InLockstep(g, r, h, g.Size(), 0)
    ensures TooLate(g, r, 0) && Robbed(g, Finish(g, r, 0), 0, 0)
  {
    hide Finish, CanRead, CursorOk, Quiet, Releases, SlotOk, Tokens;
    StartOrder(g, 0, 0);
    StartOrder(g, 1, g.consumers);
    LockstepCursor(g, r, h, g.Size(), 0);
    BackTooLate(g, r, h, g.Size(), 0);
    LockstepEmpty(g, r, h, g.Size(), 0);
    forall d | 0 <= d < g.consumers ensures r.threads[d].next == Start(g, d) {
      LockstepStarts(g, r, h, d);
    }
    LateFlags(g, r, h, 0);
    SlotOfLast(g, 0);
  }

  lemma {:induction false} RobbedFills(g: Geometry, r: Ring, m: nat, n: nat)
    requires Robbed(g, r, m, n) && n < Stuck(g)
    ensures Possible(g, r, Nic) && Robbed(g, Perform(g, r, Nic), m, n + 1)
  {
    SecondLap(g, n);
    hide Stuck;
  }

  /** Thread 0 reads on up to the last nine descriptors. */
  lemma {:induction false} RobbedReads(g: Geometry, r: Ring, m: nat, n: nat)
    requires Robbed(g, r, m, n) && m < n && m + LOCK_DISTANCE + 1 < g.segment
    ensures Possible(g, r, PollAndLeave(0)) && Robbed(g, Perform(g, r, PollAndLeave(0)), m + 1, n)
  {
    SlotOfLast(g, 0);
    PreviousOfSelf(g, 0);
    NextInSegment(g, m);
    hide Stuck, CalcNext;
  }

  lemma NextInSegment(g: Geometry, m: nat)
    requires g.Valid() && m + 1 < g.segment
    ensures CalcNext(g, m, 0) == m + 1 && !IsLastOf(g, m, 0)
  {
    SlotOfLast(g, 0);
    StartOrder(g, 0, 0);
    DivModUnique(m + 1, 0, m + 1, g.Size());
    DivModUnique(m, 0, m, g.Size());
    DivModUnique(m + 1, 0, m + 1, g.segment);
  }

  /** How far thread 0 gets. */
  function Locked(g: Geometry): nat {
    if g.segment > LOCK_DISTANCE then g.segment - LOCK_DISTANCE - 1 else 0
  }

  lemma {:induction false} RobbedIsDead(g: Geometry, r: Ring)
    requires g.Valid() && Robbed(g, r, Locked(g), Stuck(g))
    ensures Dead(g, r)
  {
    SecondLap(g, Stuck(g));
    SlotOfLast(g, 0);
    PreviousOfSelf(g, 0);
    forall d | 0 <= d < g.consumers ensures !CanRead(g, r, d) {
      if d > 0 {
        StartOrder(g, 1, d);
        StartOrder(g, d, g.consumers);
        assert !r.slots[Start(g, d)].done;
      } else if g.segment > LOCK_DISTANCE {
        assert CanLockRing(g, r, r.threads[0].next, 0);
      } else {
        assert !r.slots[0].done;
      }
    }
  }

  /** What can go wrong with a ring: it stops, or the NIC is handed a descriptor with an unread frame. */
  datatype Fault = Stop | Loss

  ghost predicate Shows(g: Geometry, r: Ring, f: Fault)
    requires r.Shape(g)
  {
    match f
    case Stop => Dead(g, r)
    case Loss => !TailIsSafe(g, r)
  }

  /** Some run gets there. */
  ghost predicate CanFail(g: Geometry, r: Ring, f: Fault)
    requires r.Shape(g)
  {
    exists steps :: CodeLegal(g, r, steps) && Shows(g, CodeAfter(g, r, steps), f)
  }

  lemma {:induction false} FailsAfter(g: Geometry, r: Ring, a: Action, f: Fault)
    requires r.Shape(g) && Possible(g, r, a) && CanFail(g, Perform(g, r, a), f)
    ensures CanFail(g, r, f)
  {
    hide Shows, Possible, Perform;
    var rest :| CodeLegal(g, Perform(g, r, a), rest) && Shows(g, CodeAfter(g, Perform(g, r, a), rest), f);
    CodeFirst(g, r, a, rest);
    assert CodeLegal(g, r, [a] + rest);
  }

  lemma FailsNow(g: Geometry, r: Ring, f: Fault)
    requires r.Shape(g) && Shows(g, r, f)
    ensures CanFail(g, r, f)
  {
    assert CodeLegal(g, r, []) && CodeAfter(g, r, []) == r;
  }

  lemma {:induction false} FailsAlong(g: Geometry, r: Ring, steps: seq<Action>, f: Fault)
    requires r.Shape(g) && Legal(g, r, steps) && CanFail(g, After(g, r, steps), f)
    ensures CanFail(g, r, f)
    decreases |steps|
  {
    hide CanFail, Perform;
    if |steps| > 0 {
      FailsAlong(g, Perform(g, r, steps[0]), steps[1..], f);
      FailsAfter(g, r, steps[0], f);
    }
  }

  lemma FailsLeaving(g: Geometry, r: Ring, c: nat, f: Fault)
    requires r.Shape(g) && c < g.consumers && CanFail(g, Finish(g, r, c), f)
    ensures CanFail(g, r, f)
  {
    hide CanFail, Finish;
    FailsAfter(g, r, Leave(c), f);
  }

  lemma DeadShows(g: Geometry, r: Ring)
    requires r.Shape(g) && (Dead(g, r) || Stalled(g, r))
    ensures Shows(g, r, Stop)
  {
  }

  lemma {:induction false} RobbedDies(g: Geometry, r: Ring, m: nat, n: nat)
    requires Robbed(g, r, m, n) && m <= Locked(g)
    ensures CanFail(g, r, Stop)
    decreases Stuck(g) - n, Locked(g) - m
  {
    hide CanFail, Shows, Perform, Possible;
    if n < Stuck(g) {
      RobbedFills(g, r, m, n);
      RobbedDies(g, Perform(g, r, Nic), m, n + 1);
      FailsAfter(g, r, Nic, Stop);
    } else if m < Locked(g) {
      RobbedReads(g, r, m, n);
      RobbedDies(g, Perform(g, r, PollAndLeave(0)), m + 1, n);
      FailsAfter(g, r, PollAndLeave(0), Stop);
    } else {
      RobbedIsDead(g, r);
      DeadShows(g, r);
      FailsNow(g, r, Stop);
    }
  }

  lemma {:induction false} SharedRingDies(g: Geometry)
    requires g.Valid() && g.consumers > 1 && g.Size() > TAIL_GRAIN
    ensures CanFail(g, Fresh(g), Stop)
  {
    hide RunsTo, CanFail, Fresh;
    StartOrder(g, 0, 0);
    LockstepRuns(g, g.Size(), 0);
    var steps, h :| RunsTo(g, steps, h, g.Size(), 0);
    LockstepDies(g, steps, h);
  }

  lemma {:induction false} LockstepDies(g: Geometry, steps: seq<Action>, h: History)
    requires g.Valid() && g.consumers > 1 && RunsTo(g, steps, h, g.Size(), 0)
    ensures CanFail(g, Fresh(g), Stop)
  {
    hide InLockstep, CanFail, Fresh, Robbed, Legal, After, Finish;
    var r := After(g, Fresh(g), steps);
    RobbedBegins(g, r, h);
    RobbedDies(g, Finish(g, r, 0), 0, 0);
    FailsLeaving(g, r, 0, Stop);
    FailsAlong(g, Fresh(g), steps, Stop);
  }

  /** With all departures, a run from a fresh ring can stop for good exactly when several threads share the
      ring, whatever its size, or when it has eight descriptors or fewer. */
  lemma {:induction false} StopsIff(g: Geometry)
    requires g.Valid()
    ensures CanFail(g, Fresh(g), Stop) <==> g.consumers > 1 || g.Size() <= TAIL_GRAIN
  {
    hide Fresh, Dead;
    if g.Size() <= TAIL_GRAIN {
      SmallRingDies(g);
    } else if g.consumers > 1 {
      SharedRingDies(g);
    } else {
      forall steps | CodeLegal(g, Fresh(g), steps) ensures !Dead(g, CodeAfter(g, Fresh(g), steps)) {
        AloneGoesOn(g, steps);
      }
    }
  }

  lemma {:induction false} SmallRingDies(g: Geometry)
    requires g.Valid() && g.Size() <= TAIL_GRAIN
    ensures CanFail(g, Fresh(g), Stop)
  {
    hide Fresh, Perform, Legal, After, CanFail;
    SmallRingStalls(g);
    var steps :| Legal(g, Fresh(g), steps) && Stalled(g, After(g, Fresh(g), steps));
    DeadShows(g, After(g, Fresh(g), steps));
    FailsNow(g, After(g, Fresh(g), steps), Stop);
    FailsAlong(g, Fresh(g), steps, Stop);
  }

  /** The states of a run from a fresh ring in which no departure comes too late. */
  lemma {:induction false} FreshInv(g: Geometry, steps: seq<Action>) returns (h: History)
    requires g.Valid() && Legal(g, Fresh(g), steps)
    ensures Inv(g, After(g, Fresh(g), steps), h)
  {
    FreshIsLaunched(g);
    LaunchEstablishesInv(g, Fresh(g), 0, g.Size() - 1);
    hide Inv, Fresh, Legal, After;
    RunKeepsInv(g, Fresh(g), LaunchHistory(g, 0, g.Size() - 1), steps);
    h :| Inv(g, After(g, Fresh(g), steps), h) && h.first == LaunchHistory(g, 0, g.Size() - 1).first;
  }

  lemma {:induction false} AloneGoesOn(g: Geometry, steps: seq<Action>)
    requires g.Valid() && g.consumers == 1 && g.Size() > TAIL_GRAIN && CodeLegal(g, Fresh(g), steps)
    ensures TailIsSafe(g, CodeAfter(g, Fresh(g), steps)) && !Dead(g, CodeAfter(g, Fresh(g), steps))
  {
    AloneNeverLate(g, Fresh(g), steps);
    LegalIffNeverLate(g, Fresh(g), steps);
    hide Fresh, Dead, Inv, TailIsSafe, Legal, After, CodeLegal, CodeAfter, NeverLate;
    var h := FreshInv(g, steps);
    var r := After(g, Fresh(g), steps);
    InvMeansTailIsSafe(g, r, h);
    DeadIffStalled(g, r, h);
    if Stalled(g, r) {
      RestingNicMoves(g, r, h);
      assert false;
    }
  }
}
