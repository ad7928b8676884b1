/** How the descriptor ring is split between the consumer threads of one queue. */
module Geometry {
  import opened Cyclic

  /** `consumers` threads own `segment` consecutive descriptors each; the ring holds them all. */
  datatype Geometry = Geometry(consumers: nat, segment: nat) {
    predicate Valid() {
      consumers > 0 && segment > 0
    }

    function Size(): (n: nat)
      ensures Valid() ==> n >= segment && n > 0
    {
      MulOrder(1, consumers, segment);
      consumers * segment
    }
  }

  // ----- The index helpers of the driver, over wrapped descriptor indices -----

  function LastDescriptorOf(g: Geometry, consumer: nat): nat
    requires g.Valid()
  {
    MulOrder(1, consumer + 1, g.segment);
    ((consumer + 1) * g.segment - 1) % g.Size()
  }

  predicate IsLastOf(g: Geometry, index: nat, consumer: nat)
    requires g.Valid()
  {
    index % g.Size() == LastDescriptorOf(g, consumer)
  }

  function ConsumerOf(g: Geometry, index: nat): nat
    requires g.Valid()
  {
    (index % g.Size()) / g.segment
  }

  /** How many descriptors belong to the other consumers. */
  function OthersSize(g: Geometry): nat
    requires g.Valid()
  {
    g.segment * (g.consumers - 1)
  }

  function CalcNext(g: Geometry, index: nat, consumer: nat): (next: nat)
    requires g.Valid()
    ensures next < g.Size()
  {
    var next := (index + 1) % g.Size();
    if ConsumerOf(g, next) != consumer
    then (next + OthersSize(g)) % g.Size()
    else next
  }

  function PreviousConsumer(g: Geometry, consumer: nat): (c: nat)
    requires g.Valid()
    ensures c < g.consumers
  {
    (consumer + g.consumers - 1) % g.consumers
  }

  // ----- The same over unbounded frame numbers: frame j lies in slot j mod N -----

  function Slot(g: Geometry, j: nat): (s: nat)
    requires g.Valid()
    ensures s < g.Size()
  {
    j % g.Size()
  }

  function SegmentOf(g: Geometry, j: nat): nat
    requires g.Valid()
  {
    j / g.segment
  }

  function Place(g: Geometry, j: nat): (p: nat)
    requires g.Valid()
    ensures p < g.segment
  {
    j % g.segment
  }

  function Owner(g: Geometry, j: nat): (c: nat)
    requires g.Valid()
    ensures c < g.consumers
  {
    SegmentOf(g, j) % g.consumers
  }

  /** First frame of segment s. */
  function Start(g: Geometry, s: nat): nat {
    s * g.segment
  }

  predicate EndsSegment(g: Geometry, j: nat)
    requires g.Valid()
  {
    Place(g, j) == g.segment - 1
  }

  /** The next frame of the thread that owns frame j. */
  function NextOwned(g: Geometry, j: nat): nat
    requires g.Valid()
  {
    if EndsSegment(g, j) then Start(g, SegmentOf(g, j) + g.consumers) else j + 1
  }

  lemma SegmentBounds(g: Geometry, j: nat)
    requires g.Valid()
    ensures j == Start(g, SegmentOf(g, j)) + Place(g, j)
    ensures Start(g, SegmentOf(g, j) + 1) == Start(g, SegmentOf(g, j)) + g.segment
  {
    Regroup(SegmentOf(g, j), 1, 1, g.segment);
  }

  lemma SegmentUnique(g: Geometry, s: nat, p: nat)
    requires g.Valid() && p < g.segment
    ensures SegmentOf(g, Start(g, s) + p) == s && Place(g, Start(g, s) + p) == p
  {
    DivModUnique(Start(g, s) + p, s, p, g.segment);
  }

  lemma StartOrder(g: Geometry, s: nat, t: nat)
    ensures s <= t ==> Start(g, s) <= Start(g, t)
    ensures s < t ==> Start(g, s) + g.segment <= Start(g, t)
    ensures Start(g, s + g.consumers) == Start(g, s) + g.Size()
    ensures Start(g, s + 1) == Start(g, s) + g.segment
  {
    MulOrder(s, t, g.segment);
    Regroup(s, 1, g.consumers, g.segment);
    Regroup(s, 1, 1, g.segment);
  }

  lemma SlotDigits(g: Geometry, j: nat)
    requires g.Valid()
    ensures Slot(g, j) == Start(g, Owner(g, j)) + Place(g, j)
    ensures Start(g, Owner(g, j)) + g.segment <= g.Size()
  {
    MixedRadix(j, g.consumers, g.segment);
  }

  lemma SlotOfSlot(g: Geometry, j: nat)
    requires g.Valid()
    ensures Slot(g, Slot(g, j)) == Slot(g, j)
  {
    DivModUnique(Slot(g, j), 0, Slot(g, j), g.Size());
  }

  lemma {:induction false} ConsumerOfSlot(g: Geometry, j: nat)
    requires g.Valid()
    ensures ConsumerOf(g, j) == Owner(g, j) == ConsumerOf(g, Slot(g, j))
  {
    MixedRadix(j, g.consumers, g.segment);
    SlotOfSlot(g, j);
  }

  /** `is_last_descriptor_of_consumer` holds exactly on the last frame of a segment, and the lock
      test's subtraction is the number of frames that follow in it. */
  lemma {:induction false} LastDescriptorMeaning(g: Geometry, j: nat)
    requires g.Valid()
    ensures IsLastOf(g, Slot(g, j), Owner(g, j)) <==> EndsSegment(g, j)
    ensures LastDescriptorOf(g, Owner(g, j)) - Slot(g, j) == g.segment - 1 - Place(g, j)
  {
    var c := Owner(g, j);
    SlotDigits(g, j);
    SlotOfSlot(g, j);
    StartOrder(g, c, c);
    DivModUnique(Start(g, c + 1) - 1, 0, Start(g, c + 1) - 1, g.Size());
  }

  lemma {:induction false} NextSegment(g: Geometry, j: nat)
    requires g.Valid()
    ensures Owner(g, NextOwned(g, j)) == Owner(g, j)
    ensures SegmentOf(g, NextOwned(g, j)) == SegmentOf(g, j) + (if EndsSegment(g, j) then g.consumers else 0)
    ensures Place(g, NextOwned(g, j)) == (if EndsSegment(g, j) then 0 else Place(g, j) + 1)
    ensures NextOwned(g, j) > j
  {
    SegmentBounds(g, j);
    var s := SegmentOf(g, j);
    if EndsSegment(g, j) {
      SegmentUnique(g, s + g.consumers, 0);
      AddPeriod(s, g.consumers);
      StartOrder(g, s + 1, s + g.consumers);
    } else {
      SegmentUnique(g, s, Place(g, j) + 1);
    }
  }

  lemma {:induction false} OthersAreRest(g: Geometry)
    requires g.Valid()
    ensures OthersSize(g) == g.Size() - g.segment
    ensures g.consumers == 1 ==> g.Size() == g.segment
  {
    Regroup(g.consumers - 1, 1, 1, g.segment);
  }

  lemma {:induction false} BehindSegment(g: Geometry, j: nat)
    requires g.Valid() && EndsSegment(g, j)
    ensures NextOwned(g, j) == j + 1 + OthersSize(g)
    ensures g.consumers == 1 ==> OthersSize(g) == 0
    ensures Owner(g, j + 1) == Owner(g, j) <==> g.consumers == 1
  {
    var s := SegmentOf(g, j);
    OthersAreRest(g);
    SegmentBounds(g, j);
    SegmentUnique(g, s + 1, 0);
    StartOrder(g, s, s);
    if g.consumers > 1 {
      OwnersDiffer(g, s, 1);
    }
  }

  /** At the end of a segment the walk jumps over the segments of the others. */
  lemma {:induction false} CalcNextJumps(g: Geometry, j: nat)
    requires g.Valid() && EndsSegment(g, j)
    ensures CalcNext(g, Slot(g, j), Owner(g, j)) == Slot(g, NextOwned(g, j))
  {
    hide EndsSegment, NextOwned, Owner, ConsumerOf, OthersSize;
    BehindSegment(g, j);
    ConsumerOfSlot(g, j + 1);
    AddWrapped(j, 1, g.Size());
    AddWrapped(j + 1, OthersSize(g), g.Size());
  }

  lemma {:induction false} CalcNextSteps(g: Geometry, j: nat)
    requires g.Valid() && !EndsSegment(g, j)
    ensures CalcNext(g, Slot(g, j), Owner(g, j)) == Slot(g, NextOwned(g, j))
  {
    AddWrapped(j, 1, g.Size());
    ConsumerOfSlot(g, j + 1);
    SegmentBounds(g, j);
    SegmentUnique(g, SegmentOf(g, j), Place(g, j) + 1);
  }

  /** `rxd_calc_next` moves to the slot of the consumer's next frame. */
  lemma {:induction false} CalcNextIsNextOwned(g: Geometry, j: nat)
    requires g.Valid()
    ensures CalcNext(g, Slot(g, j), Owner(g, j)) == Slot(g, NextOwned(g, j))
  {
    if EndsSegment(g, j) {
      CalcNextJumps(g, j);
    } else {
      CalcNextSteps(g, j);
    }
  }

  /** The walk skips no frame of its own: every frame in between belongs to somebody else. */
  lemma {:induction false} NextOwnedIsNext(g: Geometry, j: nat, k: nat)
    requires g.Valid() && j < k < NextOwned(g, j)
    ensures Owner(g, k) != Owner(g, j)
  {
    var s, t := SegmentOf(g, j), SegmentOf(g, k);
    SegmentBounds(g, j);
    SegmentBounds(g, k);
    StartOrder(g, t, s);
    StartOrder(g, s + g.consumers, t);
    OwnersDiffer(g, s, t - s);
  }

  lemma OwnersDiffer(g: Geometry, s: nat, d: nat)
    requires g.Valid() && 0 < d < g.consumers
    ensures (s + d) % g.consumers != s % g.consumers
  {
    if (s + d) % g.consumers == s % g.consumers {
      SameOffset(s, s + d, g.consumers);
      assert false;
    }
  }
}
