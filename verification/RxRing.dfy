/** The ring as the driver keeps it: arrays that the poll threads update in place. */
module RxRing {
  import opened Geometry
  import opened RingProtocol

  class HwRing {
    const g: Geometry
    const slots: array<Descriptor>
    const threads: array<Thread>
    const canFree: array<bool>
    const freedLast: array<bool>
    const delivered: array<seq<nat>>
    var head: nat
    var tail: nat

    ghost predicate Valid()
      reads this, slots, threads, canFree, freedLast, delivered
    {
      && canFree != freedLast
      && View().Shape(g)
    }

    ghost function View(): Ring
      reads this, slots, threads, canFree, freedLast, delivered
    {
      Ring(slots[..], head, tail, threads[..], canFree[..], freedLast[..], delivered[..])
    }

    /** Configure a ring and launch its threads before any frame has arrived. */
    constructor (geometry: Geometry)
      requires geometry.Valid()
      ensures Valid() && g == geometry && fresh(slots) && fresh(threads)
      ensures fresh(canFree) && fresh(freedLast) && fresh(delivered)
      ensures head == 0 && tail == g.Size() - 1
      ensures forall i :: 0 <= i < slots.Length ==> slots[i] == Descriptor(false, 0)
      ensures Launched(g, View(), 0)
    {
      g := geometry;
      slots := new Descriptor[geometry.Size()](i => Descriptor(false, 0));
      threads := new Thread[geometry.consumers](i => Thread(0, 0, 0));
      canFree := new bool[geometry.consumers](i => false);
      freedLast := new bool[geometry.consumers](i => false);
      delivered := new seq<nat>[geometry.consumers](i => []);
      head, tail := 0, geometry.Size() - 1;
      new;
      LaunchPollThreads(0);
    }

    /** The per-thread set-up of `hpcap_launch_poll_threads`. */
    method LaunchPollThreads(firstRxd: nat)
      requires g.Valid() && firstRxd < g.Size() && tail < g.Size() && canFree != freedLast
      requires slots.Length == g.Size()
      requires threads.Length == canFree.Length == freedLast.Length == delivered.Length == g.consumers
      modifies threads, canFree, freedLast, delivered
      ensures Valid() && Launched(g, View(), firstRxd)
      ensures head == old(head) && tail == old(tail) && slots[..] == old(slots[..])
    {
      var startingConsumer := ConsumerOf(g, firstRxd);
      for j := 0 to g.consumers
        invariant forall c :: 0 <= c < j ==>
                    && threads[c] == Thread(if c == startingConsumer then firstRxd else c * g.segment, 0, 0)
                    && canFree[c] == (c == startingConsumer)
                    && !freedLast[c]
                    && delivered[c] == []
      {
        freedLast[j] := false;
        delivered[j] := [];
        if j == startingConsumer {
          threads[j] := Thread(firstRxd, 0, 0);
          canFree[j] := true;
        } else {
          threads[j] := Thread(j * g.segment, 0, 0);
          canFree[j] := false;
        }
      }
      forall c | 0 <= c < g.consumers ensures c * g.segment < g.Size() {
        StartOrder(g, c, g.consumers);
      }
    }

    /** `hpcap_advance_read_descriptors`. */
    method AdvanceReadDescriptors(c: nat)
      requires Valid() && c < g.consumers
      modifies this`tail, canFree, freedLast
      ensures Valid() && View() == Advance(g, old(View()), c)
    {
      var last := threads[c].last;
      var p := PreviousConsumer(g, c);
      if !canFree[c] && freedLast[p] {
        freedLast[p] := false;
        canFree[c] := true;
      }
      if canFree[c] {
        tail := last / TAIL_GRAIN * TAIL_GRAIN;
        if IsLastOf(g, last, c) {
          freedLast[c] := true;
          canFree[c] := false;
        }
      }
      assert View() == Advance(g, old(View()), c);
    }

    /** One trip of the loop of `hpcap_rx`: `check4packet`, and when it finds a frame, take it out and
        return descriptors at the end of a block or of the segment. */
    method ReceiveOne(c: nat) returns (found: bool)
      requires Valid() && c < g.consumers
      modifies this`tail, slots, threads, canFree, freedLast, delivered
      ensures Valid() && head == old(head)
      ensures found == CanRead(g, old(View()), c)
      ensures View() == if found then Read(g, old(View()), c) else old(View())
    {
      var qidx := threads[c].next;
      var locked := !canFree[c] && !freedLast[PreviousConsumer(g, c)]
                    && 0 <= LastDescriptorOf(g, c) - qidx <= LOCK_DISTANCE;
      found := !locked && slots[qidx].done;
      if found {
        delivered[c] := delivered[c] + [slots[qidx].frame];
        slots[qidx] := slots[qidx].(done := false);
        threads[c] := Thread(CalcNext(g, qidx, c), qidx, threads[c].count + 1);
        assert View() == Take(g, old(View()), c);
        if threads[c].count % RX_BUFFER_WRITE == 0 || IsLastOf(g, qidx, c) {
          AdvanceReadDescriptors(c);
        }
      }
    }

    /** The release after the loop of `hpcap_rx`, and the end of the call. */
    method FinishCall(c: nat)
      requires Valid() && c < g.consumers
      modifies this`tail, threads, canFree, freedLast
      ensures Valid() && View() == Finish(g, old(View()), c)
    {
      ghost var open := View();
      if threads[c].count > 0 {
        AdvanceReadDescriptors(c);
      }
      threads[c] := threads[c].(count := 0);
      assert View() == Finish(g, open, c);
    }
  }
}
