/** What a late departure costs: the ring goes on exactly as if the thread had read its segment, and the NIC
    comes round to frames nobody has read. */
module RingLosses {
  import opened Cyclic
  import opened Geometry
  import opened RingProtocol
  import opened RingSafety
  import opened RingRuns
  import opened RingLimits
  import opened RingDepartures

  // ----- Two rings that differ in what belongs to one thread -----

  /** The rings agree on everything but thread c and the descriptors of its segment. */
  ghost predicate SameElsewhere(g: Geometry, r: Ring, q: Ring, c: nat) {
    && r.Shape(g) && q.Shape(g) && c < g.consumers
    && r.head == q.head && r.tail == q.tail && r.canFree == q.canFree && r.freedLast == q.freedLast
    && (forall d :: 0 <= d < g.consumers && d != c ==>
            r.threads[d] == q.threads[d] && r.delivered[d] == q.delivered[d])
    && (forall s :: 0 <= s < g.Size() && ConsumerOf(g, s) != c ==> r.slots[s] == q.slots[s])
  }

  /** The descriptor s of thread c holds an unread frame. */
  ghost predicate Waits(g: Geometry, r: Ring, c: nat, s: nat) {
    r.Shape(g) && s < g.Size() && ConsumerOf(g, s) == c && r.slots[s].done
  }

  lemma SameAdvance(g: Geometry, r: Ring, q: Ring, c: nat, d: nat)
    requires SameElsewhere(g, r, q, c) && d < g.consumers && d != c
    ensures SameElsewhere(g, Advance(g, r, d), Advance(g, q, d), c)
    ensures Advance(g, r, d).slots == r.slots
  {
    hide ConsumerOf, IsLastOf;
  }

  lemma SameTake(g: Geometry, r: Ring, q: Ring, c: nat, d: nat)
    requires SameElsewhere(g, r, q, c) && d < g.consumers && d != c && ConsumerOf(g, q.threads[d].next) == d
    ensures SameElsewhere(g, Take(g, r, d), Take(g, q, d), c)
    ensures forall s :: Waits(g, r, c, s) ==> Waits(g, Take(g, r, d), c, s)
  {
    hide ConsumerOf, CalcNext;
  }

  lemma {:induction false} SameRead(g: Geometry, r: Ring, q: Ring, c: nat, d: nat)
    requires SameElsewhere(g, r, q, c) && d < g.consumers && d != c && ConsumerOf(g, q.threads[d].next) == d
    ensures SameElsewhere(g, Read(g, r, d), Read(g, q, d), c)
    ensures forall s :: Waits(g, r, c, s) ==> Waits(g, Read(g, r, d), c, s)
  {
    hide Take, Advance, ConsumerOf;
    SameTake(g, r, q, c, d);
    SameAdvance(g, Take(g, r, d), Take(g, q, d), c, d);
  }

  lemma {:induction false} SameFinish(g: Geometry, r: Ring, q: Ring, c: nat, d: nat)
    requires SameElsewhere(g, r, q, c) && d < g.consumers && d != c
    ensures SameElsewhere(g, Finish(g, r, d), Finish(g, q, d), c)
    ensures forall s :: Waits(g, r, c, s) ==> Waits(g, Finish(g, r, d), c, s)
  {
    hide Advance, ConsumerOf;
    SameAdvance(g, r, q, c, d);
  }

  lemma SameNic(g: Geometry, r: Ring, q: Ring, c: nat)
    requires SameElsewhere(g, r, q, c)
    ensures NicCanFill(g, r) == NicCanFill(g, q)
    ensures SameElsewhere(g, NicFill(g, r), NicFill(g, q), c)
    ensures forall s :: Waits(g, r, c, s) ==> Waits(g, NicFill(g, r), c, s)
  {
    hide ConsumerOf;
  }

  lemma {:induction false} NextIsOwn(g: Geometry, r: Ring, h: History, d: nat)
    requires Inv(g, r, h) && d < g.consumers
    ensures ConsumerOf(g, r.threads[d].next) == d
  {
    assert CursorOk(g, r, h, d);
    ConsumerOfSlot(g, h.cursor[d]);
  }

  lemma SameCanRead(g: Geometry, r: Ring, q: Ring, c: nat, d: nat)
    requires SameElsewhere(g, r, q, c) && d < g.consumers && d != c && ConsumerOf(g, q.threads[d].next) == d
    ensures CanRead(g, r, d) == CanRead(g, q, d)
  {
    hide ConsumerOf, LastDescriptorOf;
  }

  lemma SameShapes(g: Geometry, r: Ring, q: Ring, c: nat)
    requires SameElsewhere(g, r, q, c)
    ensures r.Shape(g) && q.Shape(g) && c < g.consumers
  {
  }

  predicate ByOthers(a: Action, c: nat) {
    a.Nic? || a.c != c
  }

  /** The NIC and the other threads cannot tell the two rings apart. */
  lemma {:induction false} SameStep(g: Geometry, r: Ring, q: Ring, h: History, c: nat, a: Action)
    requires SameElsewhere(g, r, q, c) && Inv(g, q, h) && Enabled(g, q, a) && ByOthers(a, c)
    ensures Possible(g, r, a) && SameElsewhere(g, Perform(g, r, a), Perform(g, q, a), c)
    ensures forall s :: Waits(g, r, c, s) ==> Waits(g, Perform(g, r, a), c, s)
  {
    hide SameElsewhere, Waits, NicFill, NicCanFill, Read, Finish, CanRead, ConsumerOf, TooLate, Inv;
    SameShapes(g, r, q, c);
    match a
    case Nic => SameNic(g, r, q, c);
    case Poll(d) =>
      NextIsOwn(g, q, h, d);
      SameCanRead(g, r, q, c, d);
      SameRead(g, r, q, c, d);
    case Leave(d) => SameFinish(g, r, q, c, d);
    case PollAndLeave(d) =>
      NextIsOwn(g, q, h, d);
      SameCanRead(g, r, q, c, d);
      SameRead(g, r, q, c, d);
      SameFinish(g, Read(g, r, d), Read(g, q, d), c, d);
  }

  // ----- A late departure is a pretence -----

  /** What the reads of thread c leave alone. */
  ghost predicate ReadOnly(g: Geometry, r: Ring, q: Ring, c: nat) {
    && r.Shape(g) && q.Shape(g) && c < g.consumers
    && r.head == q.head
    && (forall d :: 0 <= d < g.consumers && d != c ==>
            r.threads[d] == q.threads[d] && r.delivered[d] == q.delivered[d])
    && (forall s :: 0 <= s < g.Size() && ConsumerOf(g, s) != c ==> r.slots[s] == q.slots[s])
  }

  lemma AdvanceReadsOnly(g: Geometry, r: Ring, q: Ring, c: nat)
    requires ReadOnly(g, r, q, c)
    ensures ReadOnly(g, r, Advance(g, q, c), c)
  {
    hide ConsumerOf, IsLastOf;
  }

  lemma {:induction false} ReadReadsOnly(g: Geometry, r: Ring, q: Ring, c: nat)
    requires ReadOnly(g, r, q, c) && ConsumerOf(g, q.threads[c].next) == c
    ensures ReadOnly(g, r, Read(g, q, c), c) && ReadOnly(g, r, Finish(g, Read(g, q, c), c), c)
  {
    TakeReadsOnly(g, r, q, c);
    hide ConsumerOf, Advance, Take;
    AdvanceReadsOnly(g, r, Take(g, q, c), c);
    AdvanceReadsOnly(g, r, Read(g, q, c), c);
  }

  lemma TakeReadsOnly(g: Geometry, r: Ring, q: Ring, c: nat)
    requires ReadOnly(g, r, q, c) && ConsumerOf(g, q.threads[c].next) == c
    ensures ReadOnly(g, r, Take(g, q, c), c)
  {
    hide ConsumerOf, CalcNext;
  }

  /** Thread c has read and returned segment t and left its call. */
  ghost predicate PassedOn(g: Geometry, r: Ring, q: Ring, h: History, c: nat, t: nat) {
    && Inv(g, q, h) && ReadOnly(g, r, q, c)
    && q.threads[c].count == 0 && q.freedLast[c] && !q.canFree[c]
    && q.tail == LastDescriptorOf(g, c) / TAIL_GRAIN * TAIL_GRAIN
    && h.released == Start(g, t) + g.segment && h.tailPos == RoundedTail(g, h.released) && h.token == t + 1
  }

  predicate ByThread(steps: seq<Action>, c: nat) {
    forall i :: 0 <= i < |steps| ==> !steps[i].Nic? && steps[i].c == c
  }

  ghost predicate ReadsTo(g: Geometry, r: Ring, q: Ring, steps: seq<Action>, h: History, c: nat, t: nat)
    requires q.Shape(g)
  {
    ByThread(steps, c) && Legal(g, q, steps) && PassedOn(g, r, After(g, q, steps), h, c, t)
  }

  lemma {:induction false} HolderCanRead(g: Geometry, q: Ring, h: History)
    requires Inv(g, q, h) && Start(g, h.token) + g.segment <= q.head
    ensures CanRead(g, q, Holder(g, h))
    ensures Start(g, h.token) <= h.cursor[Holder(g, h)] < Start(g, h.token) + g.segment
    ensures EndsSegment(g, h.cursor[Holder(g, h)]) ==> h.cursor[Holder(g, h)] + 1 == Start(g, h.token) + g.segment
  {
    var c := Holder(g, h);
    CursorsAboveReleased(g, q, h, c);
    SegmentBounds(g, h.cursor[c]);
    LockedOut(g, q, h, c);
    DoneMeansArrived(g, q, h, c);
  }

  lemma {:induction false} LastRead(g: Geometry, r: Ring, q: Ring, h: History)
    requires Inv(g, q, h) && Start(g, h.token) + g.segment <= q.head && ReadOnly(g, r, q, Holder(g, h))
    requires EndsSegment(g, h.cursor[Holder(g, h)])
    ensures CanRead(g, q, Holder(g, h))
    ensures PassedOn(g, r, Finish(g, Read(g, q, Holder(g, h)), Holder(g, h)), AfterBoth(g, h, Holder(g, h)),
                     Holder(g, h), h.token)
  {
    var c := Holder(g, h);
    HolderCanRead(g, q, h);
    NextIsOwn(g, q, h, c);
    ReadReadsOnly(g, r, q, c);
    ReadAndFinishKeepsInv(g, q, h, c);
    EndTail(g, q, h, c);
    hide Inv, CanRead, Finish, Read, ReadOnly, ConsumerOf, LastDescriptorOf;
  }

  lemma {:induction false} EndTail(g: Geometry, q: Ring, h: History, c: nat)
    requires Inv(g, q, h) && c < g.consumers && CanRead(g, q, c) && EndsSegment(g, h.cursor[c])
    ensures var q' := Finish(g, Read(g, q, c), c);
            && q'.threads[c].count == 0 && q'.freedLast[c] && !q'.canFree[c]
            && q'.tail == LastDescriptorOf(g, c) / TAIL_GRAIN * TAIL_GRAIN
    ensures c == Holder(g, h)
  {
    EndOfSegmentFinish(g, q, h, c);
    LockedOut(g, q, h, c);
    assert CursorOk(g, q, h, c);
    LastDescriptorMeaning(g, h.cursor[c]);
    SlotOfSlot(g, h.cursor[c]);
    hide Inv, CanRead, CursorOk, LastDescriptorOf;
  }

  lemma ReadsToLast(g: Geometry, r: Ring, q: Ring, h': History, c: nat, t: nat)
    requires q.Shape(g) && c < g.consumers && CanRead(g, q, c)
    requires PassedOn(g, r, Finish(g, Read(g, q, c), c), h', c, t)
    ensures ReadsTo(g, r, q, [PollAndLeave(c)], h', c, t)
  {
    hide PassedOn, CanRead, Read, Finish;
    OneStep(g, q, PollAndLeave(c));
  }

  lemma ReadsToMore(g: Geometry, r: Ring, q: Ring, rest: seq<Action>, h': History, c: nat, t: nat)
    requires q.Shape(g) && c < g.consumers && CanRead(g, q, c) && ReadsTo(g, r, Read(g, q, c), rest, h', c, t)
    ensures ReadsTo(g, r, q, [Poll(c)] + rest, h', c, t)
  {
    hide PassedOn, CanRead, Read;
    Prepend(g, q, Poll(c), rest);
  }

  /** The holder of the token reads the rest of its segment and passes the token on. */
  lemma {:induction false} ReadsSegment(g: Geometry, r: Ring, q: Ring, h: History)
    requires Inv(g, q, h) && Start(g, h.token) + g.segment <= q.head && ReadOnly(g, r, q, Holder(g, h))
    ensures exists steps, h' :: ReadsTo(g, r, q, steps, h', Holder(g, h), h.token)
    decreases Start(g, h.token) + g.segment - h.cursor[Holder(g, h)]
  {
    hide Inv, CanRead, Read, Finish, ReadOnly, PassedOn, ReadsTo;
    InvShape(g, q, h);
    var c := Holder(g, h);
    HolderCanRead(g, q, h);
    if EndsSegment(g, h.cursor[c]) {
      LastRead(g, r, q, h);
      ReadsToLast(g, r, q, AfterBoth(g, h, c), c, h.token);
    } else {
      OneRead(g, r, q, h);
      ReadsSegment(g, r, Read(g, q, c), AfterRead(g, q, h, c));
      var rest, h' :| ReadsTo(g, r, Read(g, q, c), rest, h', c, h.token);
      ReadsToMore(g, r, q, rest, h', c, h.token);
    }
  }

  lemma {:induction false} OneRead(g: Geometry, r: Ring, q: Ring, h: History)
    requires Inv(g, q, h) && Start(g, h.token) + g.segment <= q.head && ReadOnly(g, r, q, Holder(g, h))
    requires !EndsSegment(g, h.cursor[Holder(g, h)])
    ensures var c, h1 := Holder(g, h), AfterRead(g, q, h, Holder(g, h));
            && Enabled(g, q, Poll(c)) && Perform(g, q, Poll(c)) == Read(g, q, c)
            && Inv(g, Read(g, q, c), h1) && ReadOnly(g, r, Read(g, q, c), c)
            && h1.token == h.token && h1.cursor[c] == h.cursor[c] + 1 && Read(g, q, c).head == q.head
  {
    var c := Holder(g, h);
    HolderCanRead(g, q, h);
    NextIsOwn(g, q, h, c);
    ReadReadsOnly(g, r, q, c);
    ReadKeepsInv(g, q, h, c);
    hide Inv, CanRead, ReadOnly, ConsumerOf;
  }

  lemma {:induction false} PassedOnIsSame(g: Geometry, r: Ring, h: History, q: Ring, h': History, c: nat)
    requires Inv(g, r, h) && c < g.consumers && TooLate(g, r, c) && PassedOn(g, r, q, h', c, h.token)
    ensures SameElsewhere(g, Finish(g, r, c), q, c)
  {
    LateTail(g, r, h, c);
    LateFlags(g, r, h, c);
    PreviousOfNext(g, h.token);
    assert Tokens(g, q, h');
    hide Inv, Finish, CursorOk, Quiet, Releases, SlotOk, ConsumerOf, LastDescriptorOf, RoundedTail, TooLate;
    var r' := Finish(g, r, c);
    assert r'.canFree == q.canFree && r'.freedLast == q.freedLast;
  }

  /** A departure that comes too late, when all frames of the thread's segment have arrived: for the NIC and
      for every other thread the ring is as if the thread had read and returned that segment in time. */
  lemma {:induction false} LateReleaseIsPretence(g: Geometry, r: Ring, h: History, c: nat)
    requires Inv(g, r, h) && c < g.consumers && TooLate(g, r, c) && h.cursor[c] + g.segment <= r.head
    ensures exists steps :: ByThread(steps, c) && Legal(g, r, steps)
                            && SameElsewhere(g, Finish(g, r, c), After(g, r, steps), c)
  {
    LateTail(g, r, h, c);
    hide Inv, Finish, TooLate, ReadOnly, SameElsewhere, PassedOn, RoundedTail;
    SameReadsOnly(g, r, h, c);
    ReadsSegment(g, r, r, h);
    var steps, h' :| ReadsTo(g, r, r, steps, h', c, h.token);
    PassedOnIsSame(g, r, h, After(g, r, steps), h', c);
  }

  lemma SameReadsOnly(g: Geometry, r: Ring, h: History, c: nat)
    requires Inv(g, r, h) && c < g.consumers
    ensures ReadOnly(g, r, r, c)
  {
  }

  // ----- A run that loses frames -----

  /** How far the ring goes on until the tail has passed the first descriptor of thread 0 again. */
  function Far(g: Geometry): nat {
    g.Size() + (if g.segment > TAIL_GRAIN then g.segment else TAIL_GRAIN + 1)
  }

  lemma {:induction false} FarEnough(g: Geometry)
    requires g.Valid() && g.consumers > 1 && g.Size() > TAIL_GRAIN
    ensures g.Size() + g.segment <= Far(g) <= 2 * g.Size()
    ensures 2 * g.Size() < RoundedTail(g, Far(g)) < g.Size() + Far(g)
    ensures g.Size() + g.segment <= RoundedTail(g, g.Size())
  {
    var n := g.Size();
    StartOrder(g, 2, g.consumers);
    StartOrder(g, 1, 1);
    DivModUnique(Far(g) - 1, 1, Far(g) - 1 - n, n);
    DivModUnique(n - 1, 0, n - 1, n);
    RoundingTrails(g, Far(g), Far(g));
  }

  lemma OthersOwn(g: Geometry, k: nat)
    requires g.Valid() && g.Size() + g.segment <= k < 2 * g.Size()
    ensures Owner(g, k) != 0
  {
    var j := k - g.Size();
    OwnerPeriod(g, j);
    SegmentBounds(g, j);
    StartOrder(g, SegmentOf(g, j), 0);
    StartOrder(g, g.consumers, SegmentOf(g, j));
    DivModUnique(SegmentOf(g, j), 0, SegmentOf(g, j), g.consumers);
  }

  lemma {:induction false} FarIsUnsafe(g: Geometry, r: Ring, q: Ring, h: History)
    requires g.consumers > 1 && g.Size() > TAIL_GRAIN
    requires SameElsewhere(g, r, q, 0) && Waits(g, r, 0, 0) && InLockstep(g, q, h, Far(g), g.consumers)
    ensures !TailIsSafe(g, r)
  {
    var n := g.Size();
    FarEnough(g);
    DistanceOfPositions(Far(g), RoundedTail(g, Far(g)), n);
    DivModUnique(2 * n, 2, 0, n);
    hide RoundedTail, Far, Tokens, CursorOk, Quiet, SlotOk, ConsumerOf;
    assert r.slots[Slot(g, 2 * n)].done;
  }

  /** One round of the ring that looks read, and of the one that is not. */
  lemma {:induction false} SameRound(g: Geometry, r: Ring, q: Ring, h: History, k: nat)
    requires g.consumers > 1 && g.Size() > TAIL_GRAIN && g.Size() + g.segment <= k < 2 * g.Size()
    requires SameElsewhere(g, r, q, 0) && Waits(g, r, 0, 0) && InLockstep(g, q, h, k, g.consumers)
    ensures var d := Owner(g, k);
            && NicCanFill(g, r) && CanRead(g, NicFill(g, r), d) && CanRead(g, NicFill(g, q), d)
            && var r', q' := Finish(g, Read(g, NicFill(g, r), d), d), Finish(g, Read(g, NicFill(g, q), d), d);
               SameElsewhere(g, r', q', 0) && Waits(g, r', 0, 0)
               && InLockstep(g, q', AfterBoth(g, h, d), k + 1, g.consumers)
  {
    hide Inv, Finish, Read, NicFill, NicCanFill, CanRead, SameElsewhere, Waits, RoundedTail;
    SameShapes(g, r, q, 0);
    LockstepGoing(g, q, h, k, g.consumers);
    LockstepFills(g, q, h, k, g.consumers);
    LockstepReads(g, q, h, k, g.consumers);
    OthersOwn(g, k);
    SameStep(g, r, q, h, 0, Nic);
    SameStep(g, NicFill(g, r), NicFill(g, q), h, 0, PollAndLeave(Owner(g, k)));
  }

  lemma RoundFails(g: Geometry, r: Ring, d: nat, f: Fault)
    requires r.Shape(g) && d < g.consumers && NicCanFill(g, r) && CanRead(g, NicFill(g, r), d)
    requires CanFail(g, Finish(g, Read(g, NicFill(g, r), d), d), f)
    ensures CanFail(g, r, f)
  {
    hide CanFail, Finish, Read, NicFill, NicCanFill, CanRead;
    FailsAfter(g, NicFill(g, r), PollAndLeave(d), f);
    FailsAfter(g, r, Nic, f);
  }

  /** One round on, the ring that is not read can lose frames only if it could before. */
  lemma {:induction false} RoundOn(g: Geometry, r: Ring, q: Ring, h: History, k: nat)
    returns (r': Ring, q': Ring, h': History)
    requires g.consumers > 1 && g.Size() > TAIL_GRAIN && g.Size() + g.segment <= k < 2 * g.Size()
    requires SameElsewhere(g, r, q, 0) && Waits(g, r, 0, 0) && InLockstep(g, q, h, k, g.consumers)
    ensures SameElsewhere(g, r', q', 0) && Waits(g, r', 0, 0) && InLockstep(g, q', h', k + 1, g.consumers)
    ensures CanFail(g, r', Loss) ==> CanFail(g, r, Loss)
  {
    hide Inv, CanFail, Finish, Read, NicFill, NicCanFill, CanRead, SameElsewhere, Waits, RoundedTail;
    SameShapes(g, r, q, 0);
    InvShape(g, q, h);
    SameRound(g, r, q, h, k);
    var d := Owner(g, k);
    r', q', h' := Finish(g, Read(g, NicFill(g, r), d), d), Finish(g, Read(g, NicFill(g, q), d), d), AfterBoth(g, h, d);
    SameShapes(g, r', q', 0);
    if CanFail(g, r', Loss) {
      RoundFails(g, r, d, Loss);
    }
  }

  lemma {:induction false} FollowLoses(g: Geometry, r: Ring, q: Ring, h: History, k: nat)
    requires g.consumers > 1 && g.Size() > TAIL_GRAIN && g.Size() + g.segment <= k <= Far(g)
    requires SameElsewhere(g, r, q, 0) && Waits(g, r, 0, 0) && InLockstep(g, q, h, k, g.consumers)
    ensures CanFail(g, r, Loss)
    decreases Far(g) - k
  {
    hide InLockstep, CanFail, SameElsewhere, Waits, RoundedTail, Far, TailIsSafe;
    SameShapes(g, r, q, 0);
    FarEnough(g);
    if k == Far(g) {
      FarIsUnsafe(g, r, q, h);
      FailsNow(g, r, Loss);
    } else {
      var r', q', h' := RoundOn(g, r, q, h, k);
      FollowLoses(g, r', q', h', k + 1);
    }
  }

  /** The ring in which thread 0 has been held up for a lap, and its second segment is full. */
  ghost predicate HeldUp(g: Geometry, r: Ring, h: History) {
    && Inv(g, r, h) && g.consumers > 1 && TooLate(g, r, 0)
    && r.head == g.Size() + g.segment && h.token == g.consumers
    && (forall d :: 0 <= d < g.consumers && d != 0 ==> r.threads[d].count == 0)
  }

  lemma {:induction false} HeldUpReached(g: Geometry, r: Ring, h: History)
    requires g.consumers > 1 && g.Size() > TAIL_GRAIN && InLockstep(g, r, h, g.Size(), 0)
    ensures Legal(g, r, Nics(g.segment)) && HeldUp(g, After(g, r, Nics(g.segment)), h)
  {
    hide Tokens, CursorOk, Quiet, SlotOk, RoundedTail, TooLate;
    FarEnough(g);
    LockstepStarts(g, r, h, 0);
    StartOrder(g, 0, 0);
    StartOrder(g, 1, g.consumers);
    LockstepCursor(g, r, h, g.Size(), 0);
    NicsFill(g, r, h, g.segment);
    BackTooLate(g, After(g, r, Nics(g.segment)), h, g.Size(), 0);
  }

  lemma {:induction false} HeldUpWaits(g: Geometry, r: Ring, h: History)
    requires HeldUp(g, r, h)
    ensures h.cursor[0] == g.Size() && Waits(g, Finish(g, r, 0), 0, 0)
  {
    LateTail(g, r, h, 0);
    LateFlags(g, r, h, 0);
    StartOrder(g, 0, g.consumers);
    DoneMeansArrived(g, r, h, 0);
    assert CursorOk(g, r, h, 0);
    SecondLap(g, 0);
    DivModUnique(0, 0, 0, g.Size());
    DivModUnique(0, 0, 0, g.segment);
    hide Inv, Finish, CursorOk, RoundedTail;
  }

  lemma {:induction false} PassedOnInLockstep(g: Geometry, r: Ring, h: History, q: Ring, h': History)
    requires HeldUp(g, r, h) && PassedOn(g, r, q, h', 0, h.token)
    ensures InLockstep(g, q, h', g.Size() + g.segment, g.consumers)
  {
    hide Inv, ConsumerOf, LastDescriptorOf, RoundedTail, TooLate;
    StartOrder(g, g.consumers, g.consumers);
    StartOrder(g, 0, g.consumers);
    InvShape(g, r, h);
    InvShape(g, q, h');
  }

  lemma {:induction false} HeldUpLoses(g: Geometry, r: Ring, h: History)
    requires HeldUp(g, r, h) && g.Size() > TAIL_GRAIN
    ensures r.Shape(g) && CanFail(g, r, Loss)
  {
    hide Inv, Finish, TooLate, ReadOnly, SameElsewhere, Waits, PassedOn, RoundedTail, InLockstep, CanFail, Far;
    InvShape(g, r, h);
    HeldUpWaits(g, r, h);
    LateTail(g, r, h, 0);
    FarEnough(g);
    SameReadsOnly(g, r, h, 0);
    HeldUpReads(g, r, h);
    var steps, h' :| ReadsTo(g, r, r, steps, h', 0, h.token);
    var q := After(g, r, steps);
    PassedOnIsSame(g, r, h, q, h', 0);
    PassedOnInLockstep(g, r, h, q, h');
    FollowLoses(g, Finish(g, r, 0), q, h', g.Size() + g.segment);
    FailsLeaving(g, r, 0, Loss);
  }

  lemma {:induction false} HeldUpReads(g: Geometry, r: Ring, h: History)
    requires HeldUp(g, r, h)
    ensures exists steps, h' :: ReadsTo(g, r, r, steps, h', 0, h.token)
  {
    hide TooLate, ReadOnly, ReadsTo, Tokens, CursorOk, Quiet, SlotOk, Releases;
    StartOrder(g, 0, g.consumers);
    DivModUnique(g.consumers, 1, 0, g.consumers);
    SameReadsOnly(g, r, h, 0);
    ReadsSegment(g, r, r, h);
  }

  lemma {:induction false} SharedRingLoses(g: Geometry)
    requires g.Valid() && g.consumers > 1 && g.Size() > TAIL_GRAIN
    ensures CanFail(g, Fresh(g), Loss)
  {
    hide RunsTo, CanFail, Fresh;
    StartOrder(g, 0, 0);
    LockstepRuns(g, g.Size(), 0);
    var steps, h :| RunsTo(g, steps, h, g.Size(), 0);
    LockstepLoses(g, steps, h);
  }

  lemma {:induction false} LockstepLoses(g: Geometry, steps: seq<Action>, h: History)
    requires g.Valid() && g.consumers > 1 && g.Size() > TAIL_GRAIN && RunsTo(g, steps, h, g.Size(), 0)
    ensures CanFail(g, Fresh(g), Loss)
  {
    hide InLockstep, CanFail, Fresh, HeldUp, Legal, After;
    var r := After(g, Fresh(g), steps);
    HeldUpReached(g, r, h);
    HeldUpLoses(g, After(g, r, Nics(g.segment)), h);
    FailsAlong(g, r, Nics(g.segment), Loss);
    FailsAlong(g, Fresh(g), steps, Loss);
  }

  // ----- Rings too small to lose anything -----

  /** In a ring of eight descriptors or fewer every release puts the tail at 0, so the NIC fills each
      descriptor at most once. */
  ghost predicate FilledOnce(g: Geometry, r: Ring) {
    && r.Shape(g) && r.head <= g.Size() <= TAIL_GRAIN
    && (r.tail == 0 || (r.tail == g.Size() - 1 && r.head < g.Size()))
    && forall s :: r.head <= s < g.Size() ==> !r.slots[s].done
  }

  lemma FilledOnceAdvance(g: Geometry, r: Ring, c: nat)
    requires FilledOnce(g, r) && c < g.consumers
    ensures FilledOnce(g, Advance(g, r, c))
  {
    hide IsLastOf;
  }

  lemma FilledOnceTake(g: Geometry, r: Ring, c: nat)
    requires FilledOnce(g, r) && c < g.consumers
    ensures FilledOnce(g, Take(g, r, c))
  {
    hide CalcNext;
  }

  lemma {:induction false} FilledOnceRead(g: Geometry, r: Ring, c: nat)
    requires FilledOnce(g, r) && c < g.consumers
    ensures FilledOnce(g, Read(g, r, c))
  {
    hide Take, Advance;
    FilledOnceTake(g, r, c);
    FilledOnceAdvance(g, Take(g, r, c), c);
  }

  lemma {:induction false} FilledOnceFinish(g: Geometry, r: Ring, c: nat)
    requires FilledOnce(g, r) && c < g.consumers
    ensures FilledOnce(g, Finish(g, r, c))
  {
    hide Advance;
    FilledOnceAdvance(g, r, c);
  }

  lemma {:induction false} FilledOnceNic(g: Geometry, r: Ring)
    requires FilledOnce(g, r) && NicCanFill(g, r)
    ensures FilledOnce(g, NicFill(g, r))
  {
    var n := g.Size();
    if r.head == n {
      DivModUnique(n, 1, 0, n);
    } else {
      DivModUnique(r.head, 0, r.head, n);
    }
  }

  lemma FilledOnceShape(g: Geometry, r: Ring)
    requires FilledOnce(g, r)
    ensures r.Shape(g)
  {
  }

  lemma {:induction false} FilledOnceStep(g: Geometry, r: Ring, a: Action)
    requires FilledOnce(g, r) && Possible(g, r, a)
    ensures FilledOnce(g, Perform(g, r, a))
  {
    hide FilledOnce, Read, Finish, NicFill, NicCanFill, CanRead;
    FilledOnceShape(g, r);
    match a
    case Nic => FilledOnceNic(g, r);
    case Poll(c) => FilledOnceRead(g, r, c);
    case Leave(c) => FilledOnceFinish(g, r, c);
    case PollAndLeave(c) =>
      FilledOnceRead(g, r, c);
      FilledOnceFinish(g, Read(g, r, c), c);
  }

  lemma {:induction false} FilledOnceRun(g: Geometry, r: Ring, steps: seq<Action>)
    requires FilledOnce(g, r) && CodeLegal(g, r, steps)
    ensures FilledOnce(g, CodeAfter(g, r, steps))
    decreases |steps|
  {
    hide FilledOnce, Perform, Possible;
    FilledOnceShape(g, r);
    if |steps| > 0 {
      FilledOnceStep(g, r, steps[0]);
      FilledOnceRun(g, Perform(g, r, steps[0]), steps[1..]);
    }
  }

  lemma {:induction false} FilledOnceIsSafe(g: Geometry, r: Ring)
    requires FilledOnce(g, r)
    ensures TailIsSafe(g, r)
  {
    var n := g.Size();
    if r.head == n {
      DivModUnique(n, 1, 0, n);
    } else {
      DivModUnique(r.head, 0, r.head, n);
    }
    forall j {:trigger Slot(g, j)} | r.head <= j < r.head + Distance(Slot(g, r.head), r.tail, n)
      ensures !r.slots[Slot(g, j)].done
    {
      DivModUnique(j, 0, j, n);
    }
  }

  lemma {:induction false} SmallRingLosesNothing(g: Geometry, steps: seq<Action>)
    requires g.Valid() && g.Size() <= TAIL_GRAIN && CodeLegal(g, Fresh(g), steps)
    ensures TailIsSafe(g, CodeAfter(g, Fresh(g), steps))
  {
    hide TailIsSafe, Perform, Possible;
    FilledOnceRun(g, Fresh(g), steps);
    FilledOnceIsSafe(g, CodeAfter(g, Fresh(g), steps));
  }

  // ----- What the code guarantees over all its runs -----

  /** With all departures, a run from a fresh ring can hand the NIC a descriptor whose frame is unread exactly
      when several threads share a ring of more than eight descriptors. */
  lemma {:induction false} LosesIff(g: Geometry)
    requires g.Valid()
    ensures CanFail(g, Fresh(g), Loss) <==> g.consumers > 1 && g.Size() > TAIL_GRAIN
  {
    hide Fresh, TailIsSafe, Dead;
    if g.Size() <= TAIL_GRAIN {
      forall steps | CodeLegal(g, Fresh(g), steps) ensures TailIsSafe(g, CodeAfter(g, Fresh(g), steps)) {
        SmallRingLosesNothing(g, steps);
      }
    } else if g.consumers > 1 {
      SharedRingLoses(g);
    } else {
      forall steps | CodeLegal(g, Fresh(g), steps) ensures TailIsSafe(g, CodeAfter(g, Fresh(g), steps)) {
        AloneGoesOn(g, steps);
      }
    }
  }

  /** All runs of the code are safe and none stops, exactly when one thread has a ring of more than eight
      descriptors to itself. */
  lemma {:induction false} RightIff(g: Geometry)
    requires g.Valid()
    ensures (forall steps :: CodeLegal(g, Fresh(g), steps) ==>
               TailIsSafe(g, CodeAfter(g, Fresh(g), steps)) && !Dead(g, CodeAfter(g, Fresh(g), steps)))
            <==> g.consumers == 1 && g.Size() > TAIL_GRAIN
  {
    hide Fresh, TailIsSafe, Dead;
    if g.consumers == 1 && g.Size() > TAIL_GRAIN {
      forall steps | CodeLegal(g, Fresh(g), steps)
        ensures TailIsSafe(g, CodeAfter(g, Fresh(g), steps)) && !Dead(g, CodeAfter(g, Fresh(g), steps))
      {
        AloneGoesOn(g, steps);
      }
    } else {
      StopsIff(g);
      var steps :| CodeLegal(g, Fresh(g), steps) && Shows(g, CodeAfter(g, Fresh(g), steps), Stop);
      assert Dead(g, CodeAfter(g, Fresh(g), steps));
    }
  }
}
