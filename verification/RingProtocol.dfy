/** The protocol by which the consumer threads of one queue share the descriptor ring of the
    40 Gb/s Intel driver.

    The NIC fills descriptors in ring order up to its tail register.  Each thread reads the frames
    of its own segments; only the thread that has the token (`can_free`, handed over through
    `freed_last_rxd`) may move the tail.  The steps below follow the C text; `History` holds the
    unbounded frame numbers the wrapped indices stand for and is never read by a step. */
module RingProtocol {
  import opened Cyclic
  import opened Geometry

  const RX_BUFFER_WRITE := 32
  const LOCK_DISTANCE := 8
  const TAIL_GRAIN := 8

  /** A receive descriptor: the DD bit and the arrival number of the frame its buffer holds. */
  datatype Descriptor = Descriptor(done: bool, frame: nat)

  /** A thread inside `hpcap_rx`: the descriptor it looks at next, the last one it read and how many
      it has read in this call. */
  datatype Thread = Thread(next: nat, last: nat, count: nat)

  /** `head` counts the frames the NIC has written; its register holds head mod N.
      `delivered[c]` lists the frames thread c has taken out of the ring. */
  datatype Ring = Ring(slots: seq<Descriptor>, head: nat, tail: nat,
                       threads: seq<Thread>, canFree: seq<bool>, freedLast: seq<bool>,
                       delivered: seq<seq<nat>>)
  {
    predicate Shape(g: Geometry) {
      && g.Valid()
      && |slots| == g.Size()
      && |threads| == |canFree| == |freedLast| == |delivered| == g.consumers
      && tail < g.Size()
      && forall c :: 0 <= c < g.consumers ==> threads[c].next < g.Size() && threads[c].last < g.Size()
    }
  }

  // ----- Steps of the code -----

  predicate NicCanFill(g: Geometry, r: Ring)
    requires r.Shape(g)
  {
    Slot(g, r.head) != r.tail
  }

  function NicFill(g: Geometry, r: Ring): (r': Ring)
    requires r.Shape(g)
    ensures r'.Shape(g)
  {
    r.(slots := r.slots[Slot(g, r.head) := Descriptor(true, r.head)], head := r.head + 1)
  }

  predicate MayRelease(g: Geometry, r: Ring, c: nat)
    requires r.Shape(g) && c < g.consumers
  {
    r.canFree[c] || r.freedLast[PreviousConsumer(g, c)]
  }

  /** `can_lock_ring`; the unsigned difference of the C text never wraps inside a segment. */
  predicate CanLockRing(g: Geometry, r: Ring, index: nat, c: nat)
    requires r.Shape(g) && c < g.consumers
  {
    !MayRelease(g, r, c) && 0 <= LastDescriptorOf(g, c) - index <= LOCK_DISTANCE
  }

  /** `check4packet` finds a frame for thread c. */
  predicate CanRead(g: Geometry, r: Ring, c: nat)
    requires r.Shape(g) && c < g.consumers
  {
    !CanLockRing(g, r, r.threads[c].next, c) && r.slots[r.threads[c].next].done
  }

  /** `hpcap_advance_read_descriptors` for the last descriptor thread c read. */
  function Advance(g: Geometry, r: Ring, c: nat): (r': Ring)
    requires r.Shape(g) && c < g.consumers
    ensures r'.Shape(g)
  {
    var p := PreviousConsumer(g, c);
    var freed := if !r.canFree[c] && r.freedLast[p] then r.freedLast[p := false] else r.freedLast;
    var last := r.threads[c].last;
    if !MayRelease(g, r, c) then r
    else if IsLastOf(g, last, c) then
      r.(tail := last / TAIL_GRAIN * TAIL_GRAIN, freedLast := freed[c := true], canFree := r.canFree[c := false])
    else
      r.(tail := last / TAIL_GRAIN * TAIL_GRAIN, freedLast := freed, canFree := r.canFree[c := true])
  }

  /** Take one frame: clear its descriptor and step to the thread's next one. */
  function Take(g: Geometry, r: Ring, c: nat): (r': Ring)
    requires r.Shape(g) && c < g.consumers
    ensures r'.Shape(g)
  {
    var t := r.threads[c];
    r.(slots := r.slots[t.next := r.slots[t.next].(done := false)],
       threads := r.threads[c := Thread(CalcNext(g, t.next, c), t.next, t.count + 1)],
       delivered := r.delivered[c := r.delivered[c] + [r.slots[t.next].frame]])
  }

  predicate ReturnsNow(g: Geometry, t: Thread, c: nat)
    requires g.Valid()
  {
    t.count % RX_BUFFER_WRITE == 0 || IsLastOf(g, t.last, c)
  }

  /** One trip of the `hpcap_rx` loop that finds a frame. */
  function Read(g: Geometry, r: Ring, c: nat): (r': Ring)
    requires r.Shape(g) && c < g.consumers
    ensures r'.Shape(g)
  {
    var taken := Take(g, r, c);
    if ReturnsNow(g, taken.threads[c], c) then Advance(g, taken, c) else taken
  }

  /** The release after the loop, and the end of the call. */
  function Finish(g: Geometry, r: Ring, c: nat): (r': Ring)
    requires r.Shape(g) && c < g.consumers
    ensures r'.Shape(g)
  {
    var done := if r.threads[c].count > 0 then Advance(g, r, c) else r;
    done.(threads := done.threads[c := done.threads[c].(count := 0)])
  }

  /** A whole call that may take at most `budget` frames. */
  function RxCall(g: Geometry, r: Ring, c: nat, budget: nat): (r': Ring)
    requires r.Shape(g) && c < g.consumers
    ensures r'.Shape(g)
    decreases budget
  {
    if budget == 0 || !CanRead(g, r, c) then Finish(g, r, c)
    else RxCall(g, Read(g, r, c), c, budget - 1)
  }

  /** The release after the loop finds the token back at a thread whose last trip ended a segment: other
      threads have taken the token round the ring since that trip gave it away. */
  predicate TooLate(g: Geometry, r: Ring, c: nat)
    requires r.Shape(g) && c < g.consumers
  {
    && r.threads[c].count > 0 && IsLastOf(g, r.threads[c].last, c)
    && g.consumers > 1 && MayRelease(g, r, c)
  }

  /** Threads interleave between trips of the loop, and between the last trip and the end of the call. */
  datatype Action = Nic | Poll(c: nat) | Leave(c: nat) | PollAndLeave(c: nat)

  /** What may happen next. */
  predicate Possible(g: Geometry, r: Ring, a: Action)
    requires r.Shape(g)
  {
    match a
    case Nic => NicCanFill(g, r)
    case Poll(c) => c < g.consumers && CanRead(g, r, c)
    case Leave(c) => c < g.consumers
    case PollAndLeave(c) => c < g.consumers && CanRead(g, r, c)
  }

  /** The same without the departures that come too late.  The guarantees of `RingRuns` are about these steps;
      `RingDepartures` says what becomes of them when late departures are steps, too. */
  predicate Enabled(g: Geometry, r: Ring, a: Action)
    requires r.Shape(g)
  {
    Possible(g, r, a) && (a.Leave? ==> !TooLate(g, r, a.c))
  }

  function Perform(g: Geometry, r: Ring, a: Action): (r': Ring)
    requires r.Shape(g) && Possible(g, r, a)
    ensures r'.Shape(g)
  {
    match a
    case Nic => NicFill(g, r)
    case Poll(c) => Read(g, r, c)
    case Leave(c) => Finish(g, r, c)
    case PollAndLeave(c) => Finish(g, Read(g, r, c), c)
  }

  // ----- Launch -----

  /** The first frame number of thread c when the first frame to read is `first`. */
  function FirstOwned(g: Geometry, first: nat, c: nat): nat
    requires g.Valid()
  {
    if c == Owner(g, first) then first
    else if c > Owner(g, first) then Start(g, c)
    else Start(g, c + g.consumers)
  }

  /** `hpcap_launch_poll_threads` over descriptors whose next one to read is `first`. */
  predicate Launched(g: Geometry, r: Ring, first: nat) {
    && r.Shape(g)
    && first < g.Size()
    && (forall c :: 0 <= c < g.consumers ==>
          && r.threads[c] == Thread(if c == ConsumerOf(g, first) then first else c * g.segment, r.threads[c].last, 0)
          && r.canFree[c] == (c == ConsumerOf(g, first))
          && !r.freedLast[c]
          && r.delivered[c] == [])
  }

  /** What the NIC has done before the launch: frames `first` to `head` wait in their descriptors, the
      rest of the ring is empty, and its tail stands a whole ring ahead of `first` (up to the grain). */
  ghost predicate NicReady(g: Geometry, r: Ring, first: nat, tailPos: nat)
    requires r.Shape(g)
  {
    && first <= r.head <= tailPos
    && r.tail == Slot(g, tailPos)
    && g.Size() + first <= tailPos + TAIL_GRAIN
    && tailPos < g.Size() + first
    && tailPos <= RoundedTail(g, first + 1)
    && (forall j {:trigger Slot(g, j)} :: r.head <= j < r.head + g.Size() ==>
          (r.slots[Slot(g, j)].done <==> j >= g.Size() + first))
    && (forall j {:trigger Slot(g, j)} :: r.head <= j < r.head + g.Size() && j >= g.Size() + first ==>
          r.slots[Slot(g, j)].frame == j - g.Size())
  }

  /** The tail a release of every frame below `released` asks for, as an unbounded position. */
  function RoundedTail(g: Geometry, released: nat): int
    requires g.Valid() && released > 0
  {
    g.Size() + (released - 1) - Slot(g, released - 1) % TAIL_GRAIN
  }

  // ----- The invariant -----

  datatype History = History(first: nat, cursor: seq<nat>, last: seq<nat>,
                             token: nat, released: nat, tailPos: nat)

  function Holder(g: Geometry, h: History): (c: nat)
    requires g.Valid()
    ensures c < g.consumers
  {
    h.token % g.consumers
  }

  ghost predicate Tokens(g: Geometry, r: Ring, h: History)
    requires r.Shape(g)
  {
    && (forall c :: 0 <= c < g.consumers && r.canFree[c] ==> c == Holder(g, h))
    && (forall c :: 0 <= c < g.consumers && r.freedLast[c] ==> c == PreviousConsumer(g, Holder(g, h)))
    && r.canFree[Holder(g, h)] != r.freedLast[PreviousConsumer(g, Holder(g, h))]
  }

  /** Thread c stands inside the one segment of its own among the next `consumers` ones. */
  ghost predicate CursorOk(g: Geometry, r: Ring, h: History, c: nat)
    requires r.Shape(g) && |h.cursor| == |h.last| == g.consumers && c < g.consumers
  {
    && r.threads[c].next == Slot(g, h.cursor[c])
    && Owner(g, h.cursor[c]) == c
    && h.first <= h.cursor[c]
    && h.token <= SegmentOf(g, h.cursor[c]) < h.token + g.consumers
    && (Place(g, h.cursor[c]) == 0 || h.cursor[c] <= r.head)
    && (r.threads[c].count > 0 ==>
          && r.threads[c].last == Slot(g, h.last[c])
          && Owner(g, h.last[c]) == c
          && h.first <= h.last[c] < r.head
          && NextOwned(g, h.last[c]) == h.cursor[c])
    && r.delivered[c] == Frames(g, c, h.first, h.cursor[c])
  }

  /** Away from the token a thread never stands in the last nine frames of its segment; with the
      token and between calls it has returned everything it read; and the token is handed on with the
      last frame of a segment. */
  ghost predicate Quiet(g: Geometry, r: Ring, h: History, c: nat)
    requires r.Shape(g) && |h.cursor| == |h.last| == g.consumers && c < g.consumers
  {
    && (c == Holder(g, h) && r.threads[c].count > 0 && r.canFree[c] ==> !EndsSegment(g, h.last[c]))
    && (c != Holder(g, h) || (r.threads[c].count == 0 && !r.canFree[c]) ==>
          Place(g, h.cursor[c]) == 0 || Place(g, h.cursor[c]) + LOCK_DISTANCE < g.segment)
    && (c == Holder(g, h) && r.threads[c].count == 0 && r.canFree[c] ==> h.released == h.cursor[c])
  }

  ghost predicate Releases(g: Geometry, r: Ring, h: History)
    requires r.Shape(g) && |h.cursor| == |h.last| == g.consumers
  {
    var c := Holder(g, h);
    && Start(g, h.token) <= h.released <= h.cursor[c]
    && h.released <= r.head <= h.tailPos
    && r.tail == Slot(g, h.tailPos)
    && g.Size() + h.released <= h.tailPos + TAIL_GRAIN
    && h.tailPos < g.Size() + h.released
    && h.tailPos <= RoundedTail(g, h.released + 1)
    && (r.threads[c].count > 0 && !EndsSegment(g, h.last[c]) ==> h.released <= h.last[c] + 1)
    && (r.threads[c].count > 0 && h.released == h.last[c] + 1 ==> h.tailPos == RoundedTail(g, h.released))
  }

  /** The slot the NIC reaches at position j holds frame j - N, marked exactly while it is unread. */
  ghost predicate SlotOk(g: Geometry, r: Ring, h: History, j: nat)
    requires r.Shape(g) && |h.cursor| == g.consumers
  {
    && (r.slots[Slot(g, j)].done <==> j >= g.Size() + h.cursor[Owner(g, j)])
    && (r.slots[Slot(g, j)].done ==> r.slots[Slot(g, j)].frame == j - g.Size())
  }

  ghost predicate Inv(g: Geometry, r: Ring, h: History) {
    && r.Shape(g)
    && |h.cursor| == |h.last| == g.consumers
    && Tokens(g, r, h)
    && (forall c :: 0 <= c < g.consumers ==> CursorOk(g, r, h, c) && Quiet(g, r, h, c))
    && Releases(g, r, h)
    && (forall j :: r.head <= j < r.head + g.Size() ==> SlotOk(g, r, h, j))
  }

  /** The frames of thread c among from, from + 1, ..., to - 1, in order. */
  function Frames(g: Geometry, c: nat, from: nat, to: nat): seq<nat>
    requires g.Valid()
  {
    if to <= from then []
    else Frames(g, c, from, to - 1) + (if Owner(g, to - 1) == c then [to - 1] else [])
  }
}
