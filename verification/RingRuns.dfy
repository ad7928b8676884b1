/** What the descriptor protocol guarantees over whole runs. */
module RingRuns {
  import opened Cyclic
  import opened Geometry
  import opened RingProtocol
  import opened RingSafety

  // ----- Runs -----

  predicate Legal(g: Geometry, r: Ring, steps: seq<Action>)
    requires r.Shape(g)
    decreases |steps|
  {
    |steps| == 0 || (Enabled(g, r, steps[0]) && Legal(g, Perform(g, r, steps[0]), steps[1..]))
  }

  function After(g: Geometry, r: Ring, steps: seq<Action>): (r': Ring)
    requires r.Shape(g) && Legal(g, r, steps)
    ensures r'.Shape(g)
    decreases |steps|
  {
    if |steps| == 0 then r else After(g, Perform(g, r, steps[0]), steps[1..])
  }

  lemma {:induction false} LegalAppend(g: Geometry, r: Ring, s: seq<Action>, t: seq<Action>)
    requires r.Shape(g) && Legal(g, r, s) && Legal(g, After(g, r, s), t)
    ensures Legal(g, r, s + t) && After(g, r, s + t) == After(g, After(g, r, s), t)
    decreases |s|
  {
    if |s| == 0 {
      assert s + t == t;
    } else {
      hide Perform, Enabled;
      assert (s + t)[1..] == s[1..] + t;
      LegalAppend(g, Perform(g, r, s[0]), s[1..], t);
    }
  }

  lemma OneStep(g: Geometry, r: Ring, a: Action)
    requires r.Shape(g) && Enabled(g, r, a)
    ensures Legal(g, r, [a]) && After(g, r, [a]) == Perform(g, r, a)
  {
    assert [a][1..] == [];
  }

  lemma Prepend(g: Geometry, r: Ring, a: Action, rest: seq<Action>)
    requires r.Shape(g) && Enabled(g, r, a) && Legal(g, Perform(g, r, a), rest)
    ensures Legal(g, r, [a] + rest) && After(g, r, [a] + rest) == After(g, Perform(g, r, a), rest)
  {
    assert ([a] + rest)[1..] == rest;
  }

  // ----- Launch -----

  lemma FirstOwnedMeaning(g: Geometry, first: nat, c: nat)
    requires g.Valid() && first < g.Size() && c < g.consumers
    ensures Owner(g, FirstOwned(g, first, c)) == c
    ensures first <= FirstOwned(g, first, c)
    ensures Owner(g, first) == SegmentOf(g, first)
    ensures SegmentOf(g, first) <= SegmentOf(g, FirstOwned(g, first, c)) < SegmentOf(g, first) + g.consumers
    ensures Slot(g, FirstOwned(g, first, c)) == if c == Owner(g, first) then first else c * g.segment
    ensures c == Owner(g, first) || Place(g, FirstOwned(g, first, c)) == 0
  {
    DivModUnique(first, 0, first, g.Size());
    var s := SegmentOf(g, first);
    SlotDigits(g, first);
    SegmentBounds(g, first);
    StartOrder(g, g.consumers, s);
    DivModUnique(s, 0, s, g.consumers);
    SegmentUnique(g, c, 0);
    SegmentUnique(g, c + g.consumers, 0);
    DivModUnique(c, 0, c, g.consumers);
    AddPeriod(c, g.consumers);
    StartOrder(g, s + 1, c);
    StartOrder(g, s + 1, c + g.consumers);
    SlotDigits(g, Start(g, c));
    SlotDigits(g, Start(g, c + g.consumers));
  }

  lemma NothingBeforeFirstOwned(g: Geometry, first: nat, c: nat, k: nat)
    requires g.Valid() && first < g.Size() && c < g.consumers
    requires first <= k < FirstOwned(g, first, c)
    ensures Owner(g, k) != c
  {
    FirstOwnedMeaning(g, first, c);
    var f := FirstOwned(g, first, c);
    var s, t := SegmentOf(g, first), SegmentOf(g, k);
    SegmentBounds(g, first);
    SegmentBounds(g, k);
    SegmentBounds(g, f);
    StartOrder(g, t + 1, s);
    StartOrder(g, SegmentOf(g, f), t);
    OwnersDiffer(g, t, SegmentOf(g, f) - t);
  }

  ghost function LaunchHistory(g: Geometry, first: nat, tailPos: nat): History
    requires g.Valid()
  {
    History(first, seq(g.consumers, (c: nat) => FirstOwned(g, first, c)), seq(g.consumers, (c: nat) => 0),
            SegmentOf(g, first), first, tailPos)
  }

  lemma {:induction false} LaunchCursor(g: Geometry, r: Ring, first: nat, tailPos: nat, c: nat)
    requires Launched(g, r, first) && NicReady(g, r, first, tailPos) && c < g.consumers
    ensures CursorOk(g, r, LaunchHistory(g, first, tailPos), c)
    ensures Quiet(g, r, LaunchHistory(g, first, tailPos), c)
  {
    FirstOwnedMeaning(g, first, c);
    ConsumerOfSlot(g, first);
    forall k | first <= k < FirstOwned(g, first, c) ensures Owner(g, k) != c {
      NothingBeforeFirstOwned(g, first, c, k);
    }
    FramesSkip(g, c, first, first, FirstOwned(g, first, c));
  }

  lemma {:induction false} LaunchSlot(g: Geometry, r: Ring, first: nat, tailPos: nat, j: nat)
    requires Launched(g, r, first) && NicReady(g, r, first, tailPos)
    requires r.head <= j < r.head + g.Size()
    ensures SlotOk(g, r, LaunchHistory(g, first, tailPos), j)
  {
    var c := Owner(g, j);
    FirstOwnedMeaning(g, first, c);
    if g.Size() + first <= j < g.Size() + FirstOwned(g, first, c) {
      OwnerPeriod(g, j - g.Size());
      NothingBeforeFirstOwned(g, first, c, j - g.Size());
      assert false;
    }
  }

  lemma {:induction false} LaunchEstablishesInv(g: Geometry, r: Ring, first: nat, tailPos: nat)
    requires Launched(g, r, first) && NicReady(g, r, first, tailPos)
    ensures Inv(g, r, LaunchHistory(g, first, tailPos))
  {
    var h := LaunchHistory(g, first, tailPos);
    ConsumerOfSlot(g, first);
    SegmentBounds(g, first);
    forall c | 0 <= c < g.consumers ensures CursorOk(g, r, h, c) && Quiet(g, r, h, c) {
      LaunchCursor(g, r, first, tailPos, c);
    }
    forall j | r.head <= j < r.head + g.Size() ensures SlotOk(g, r, h, j) {
      LaunchSlot(g, r, first, tailPos, j);
    }
    assert Tokens(g, r, h);
    assert Releases(g, r, h) by {
      FirstOwnedMeaning(g, first, Owner(g, first));
    }
  }

  // ----- Every run keeps the invariant -----

  ghost function NextHistory(g: Geometry, r: Ring, h: History, a: Action): History
    requires r.Shape(g) && |h.cursor| == |h.last| == g.consumers && Enabled(g, r, a)
  {
    match a
    case Nic => h
    case Poll(c) => AfterRead(g, r, h, c)
    case Leave(c) => AfterFinish(g, r, h, c)
    case PollAndLeave(c) => AfterBoth(g, h, c)
  }

  lemma {:induction false} StepKeepsInv(g: Geometry, r: Ring, h: History, a: Action)
    requires Inv(g, r, h) && Enabled(g, r, a)
    ensures Inv(g, Perform(g, r, a), NextHistory(g, r, h, a))
    ensures NextHistory(g, r, h, a).first == h.first
    ensures h.tailPos <= NextHistory(g, r, h, a).tailPos
  {
    match a
    case Nic => NicKeepsInv(g, r, h);
    case Poll(c) => ReadKeepsInv(g, r, h, c);
    case Leave(c) => FinishKeepsInv(g, r, h, c);
    case PollAndLeave(c) => ReadAndFinishKeepsInv(g, r, h, c);
  }

  lemma {:induction false} RunKeepsInv(g: Geometry, r: Ring, h: History, steps: seq<Action>)
    requires Inv(g, r, h) && Legal(g, r, steps)
    ensures exists h' :: Inv(g, After(g, r, steps), h') && h'.first == h.first
    decreases |steps|
  {
    if |steps| > 0 {
      StepKeepsInv(g, r, h, steps[0]);
      RunKeepsInv(g, Perform(g, r, steps[0]), NextHistory(g, r, h, steps[0]), steps[1..]);
    }
  }

  // ----- What that means for the ring itself -----

  function Count(flags: seq<bool>): nat {
    if |flags| == 0 then 0 else (if flags[|flags| - 1] then 1 else 0) + Count(flags[..|flags| - 1])
  }

  lemma {:induction false} CountNone(flags: seq<bool>)
    requires forall i :: 0 <= i < |flags| ==> !flags[i]
    ensures Count(flags) == 0
  {
    if |flags| > 0 {
      CountNone(flags[..|flags| - 1]);
    }
  }

  lemma {:induction false} CountOne(flags: seq<bool>, k: nat)
    requires k < |flags| && forall i :: 0 <= i < |flags| && flags[i] ==> i == k
    ensures Count(flags) == if flags[k] then 1 else 0
  {
    if k == |flags| - 1 {
      CountNone(flags[..|flags| - 1]);
    } else {
      CountOne(flags[..|flags| - 1], k);
    }
  }

  /** Descriptors the NIC may write before the tail moves again hold no frame that is still unread. */
  ghost predicate TailIsSafe(g: Geometry, r: Ring)
    requires r.Shape(g)
  {
    forall j {:trigger Slot(g, j)} ::
      r.head <= j < r.head + Distance(Slot(g, r.head), r.tail, g.Size()) ==> !r.slots[Slot(g, j)].done
  }

  lemma {:induction false} InvMeansTailIsSafe(g: Geometry, r: Ring, h: History)
    requires Inv(g, r, h)
    ensures TailIsSafe(g, r)
  {
    DistanceOfPositions(r.head, h.tailPos, g.Size());
    forall j {:trigger Slot(g, j)} | r.head <= j < r.head + Distance(Slot(g, r.head), r.tail, g.Size())
      ensures !r.slots[Slot(g, j)].done
    {
      CursorsAboveReleased(g, r, h, Owner(g, j));
      assert SlotOk(g, r, h, j);
    }
  }

  lemma {:induction false} InvMeansOneToken(g: Geometry, r: Ring, h: History)
    requires Inv(g, r, h)
    ensures Count(r.canFree) + Count(r.freedLast) == 1
  {
    CountOne(r.canFree, Holder(g, h));
    CountOne(r.freedLast, PreviousConsumer(g, Holder(g, h)));
  }

  /** Thread c has been given its own frames from `first` up to some point: each once, in order. */
  ghost predicate GivenInOrder(g: Geometry, r: Ring, first: nat, c: nat)
    requires r.Shape(g) && c < g.consumers
  {
    exists upTo: nat :: r.delivered[c] == Frames(g, c, first, upTo)
  }

  lemma InvMeansInOrder(g: Geometry, r: Ring, h: History, c: nat)
    requires Inv(g, r, h) && c < g.consumers
    ensures GivenInOrder(g, r, h.first, c)
  {
    assert CursorOk(g, r, h, c);
  }

  /** Over every interleaving of the threads and the NIC: there is exactly one token, the tail never
      hands out an unread frame, and each thread has been given its own frames, each once, in order,
      with none missing. */
  lemma {:induction false} RunsAreSafe(g: Geometry, r: Ring, first: nat, tailPos: nat, steps: seq<Action>)
    requires Launched(g, r, first) && NicReady(g, r, first, tailPos) && Legal(g, r, steps)
    ensures var r' := After(g, r, steps);
            && Count(r'.canFree) + Count(r'.freedLast) == 1
            && TailIsSafe(g, r')
            && forall c :: 0 <= c < g.consumers ==> GivenInOrder(g, r', first, c)
  {
    LaunchEstablishesInv(g, r, first, tailPos);
    RunKeepsInv(g, r, LaunchHistory(g, first, tailPos), steps);
    var r' := After(g, r, steps);
    var h :| Inv(g, r', h) && h.first == first;
    InvMeansOneToken(g, r', h);
    InvMeansTailIsSafe(g, r', h);
    forall c | 0 <= c < g.consumers ensures GivenInOrder(g, r', first, c) {
      InvMeansInOrder(g, r', h, c);
    }
  }

  // ----- No thread waits for a token that cannot come -----

  ghost predicate Oldest(g: Geometry, r: Ring, c: nat)
    requires r.Shape(g) && c < g.consumers
  {
    && r.slots[r.threads[c].next].done
    && forall s :: 0 <= s < g.Size() && r.slots[s].done ==>
         r.slots[r.threads[c].next].frame <= r.slots[s].frame
  }

  lemma {:induction false} DoneIsUnread(g: Geometry, r: Ring, h: History, s: nat)
    requires Inv(g, r, h) && s < g.Size() && r.slots[s].done
    ensures var k := r.slots[s].frame; h.cursor[Owner(g, k)] <= k < r.head
  {
    var n := g.Size();
    var gap := Distance(Slot(g, r.head), s, n);
    var j := r.head + gap;
    AddWrapped(r.head, gap, n);
    if Slot(g, r.head) + gap >= n {
      DivModUnique(Slot(g, r.head) + gap, 1, s, n);
    } else {
      DivModUnique(Slot(g, r.head) + gap, 0, s, n);
    }
    assert Slot(g, j) == s;
    assert SlotOk(g, r, h, j);
    OwnerPeriod(g, j - n);
  }

  /** The oldest frame that waits in the ring always belongs to the thread that has the token or is
      about to get it, so the lock test lets it through. */
  lemma {:induction false} OldestIsReadable(g: Geometry, r: Ring, h: History, s: nat)
    requires Inv(g, r, h) && s < g.Size() && r.slots[s].done
    ensures Oldest(g, r, Holder(g, h)) && MayRelease(g, r, Holder(g, h)) && CanRead(g, r, Holder(g, h))
  {
    var c := Holder(g, h);
    LockedOut(g, r, h, c);
    DoneMeansArrived(g, r, h, c);
    forall t | 0 <= t < g.Size() && r.slots[t].done ensures h.cursor[c] <= r.slots[t].frame < r.head {
      DoneIsUnread(g, r, h, t);
      var k := r.slots[t].frame;
      CursorsAboveReleased(g, r, h, Owner(g, k));
      CursorsAboveReleased(g, r, h, c);
      SegmentBounds(g, h.cursor[c]);
    }
    assert h.cursor[c] <= r.slots[s].frame < r.head;
  }

  predicate Resting(g: Geometry, r: Ring)
    requires r.Shape(g)
  {
    && (forall s :: 0 <= s < g.Size() ==> !r.slots[s].done)
    && (forall c :: 0 <= c < g.consumers ==> r.threads[c].count == 0)
  }

  lemma {:induction false} RestingCursor(g: Geometry, r: Ring, h: History)
    requires Inv(g, r, h) && Resting(g, r)
    ensures r.head == h.cursor[Holder(g, h)]
  {
    var c := Holder(g, h);
    assert CursorOk(g, r, h, c);
    DoneMeansArrived(g, r, h, c);
    CursorsAboveReleased(g, r, h, c);
    SegmentBounds(g, h.cursor[c]);
  }

  lemma {:induction false} RestingNicMoves(g: Geometry, r: Ring, h: History)
    requires Inv(g, r, h) && Resting(g, r) && g.Size() > TAIL_GRAIN
    ensures NicCanFill(g, r)
  {
    var c := Holder(g, h);
    var n := g.Size();
    assert CursorOk(g, r, h, c) && Quiet(g, r, h, c);
    RestingCursor(g, r, h);
    CursorsAboveReleased(g, r, h, c);
    SegmentBounds(g, h.cursor[c]);
    StartOrder(g, h.token, h.token);
    if NicCanFill(g, r) {
    } else {
      SameOffset(r.head, h.tailPos, n);
      assert false;
    }
  }

  /** A ring of more than eight descriptors never stops: when no frame waits and no call is open the
      NIC can write one, and when a frame waits the owner of the oldest can read it. */
  lemma {:induction false} RunsNeverStall(g: Geometry, r: Ring, first: nat, tailPos: nat, steps: seq<Action>)
    requires Launched(g, r, first) && NicReady(g, r, first, tailPos) && Legal(g, r, steps)
    requires g.Size() > TAIL_GRAIN
    ensures var r' := After(g, r, steps);
            && (Resting(g, r') ==> NicCanFill(g, r'))
            && ((exists s :: 0 <= s < g.Size() && r'.slots[s].done) ==>
                  exists c :: 0 <= c < g.consumers && Oldest(g, r', c) && MayRelease(g, r', c) && CanRead(g, r', c))
  {
    LaunchEstablishesInv(g, r, first, tailPos);
    RunKeepsInv(g, r, LaunchHistory(g, first, tailPos), steps);
    var r' := After(g, r, steps);
    var h :| Inv(g, r', h) && h.first == first;
    if Resting(g, r') {
      RestingNicMoves(g, r', h);
    }
    if s :| 0 <= s < g.Size() && r'.slots[s].done {
      OldestIsReadable(g, r', h, s);
    }
  }

  // ----- Whole calls -----

  ghost predicate ReachedBy(g: Geometry, r: Ring, target: Ring)
    requires r.Shape(g)
  {
    exists steps :: Legal(g, r, steps) && After(g, r, steps) == target
  }

  lemma {:induction false} LastTripIsRun(g: Geometry, r: Ring, c: nat, budget: nat)
    requires r.Shape(g) && c < g.consumers && budget > 0 && CanRead(g, r, c)
    requires budget == 1 || !CanRead(g, Read(g, r, c), c)
    ensures ReachedBy(g, r, RxCall(g, r, c, budget))
  {
    OneStep(g, r, PollAndLeave(c));
    assert RxCall(g, Read(g, r, c), c, budget - 1) == Finish(g, Read(g, r, c), c);
  }

  lemma {:induction false} OpenCallIsRun(g: Geometry, r: Ring, c: nat, budget: nat)
    requires r.Shape(g) && c < g.consumers && budget > 0 && CanRead(g, r, c)
    ensures ReachedBy(g, r, RxCall(g, r, c, budget))
    decreases budget
  {
    if budget == 1 || !CanRead(g, Read(g, r, c), c) {
      LastTripIsRun(g, r, c, budget);
    } else {
      OpenCallIsRun(g, Read(g, r, c), c, budget - 1);
      var rest :| Legal(g, Read(g, r, c), rest)
                  && After(g, Read(g, r, c), rest) == RxCall(g, Read(g, r, c), c, budget - 1);
      Prepend(g, r, Poll(c), rest);
    }
  }

  /** A whole `hpcap_rx` call is one of the interleavings, so everything above holds of calls too. */
  lemma {:induction false} CallIsRun(g: Geometry, r: Ring, c: nat, budget: nat)
    requires r.Shape(g) && c < g.consumers && r.threads[c].count == 0
    ensures ReachedBy(g, r, RxCall(g, r, c, budget))
  {
    if budget > 0 && CanRead(g, r, c) {
      OpenCallIsRun(g, r, c, budget);
    } else {
      OneStep(g, r, Leave(c));
    }
  }
}
