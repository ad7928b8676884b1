/** All threads of one queue together: consumers take limits and reserve, the first of them publishes,
    clients come, read and go.

    Taking a limit and each reservation under it are steps of their own, so that anything may happen in
    between.  `CallSteps.CallIsReservations` says that the trips of a call are such reservations. */
module CaptureRuns {
  import opened Cyclic
  import opened StreamLayout
  import opened WriteCounter
  import opened ListenerModel
  import opened ListenerRuns

  /** The listener table, the atomic write counter, and for each consumer what its call has left of its
      limit: `limit - cnt`, and 0 outside a call. */
  datatype Queue = Queue(ls: Listeners, counter: int, left: seq<nat>)

  /** The positions they stand for, and the consumers that have taken a limit since the last publication. */
  datatype Progress = Progress(p: Positions, reserved: nat, called: set<nat>)

  /** The size of the buffer and of the largest reservation. */
  datatype Sizing = Sizing(buffer: nat, most: nat)

  datatype Step =
    | Client(e: Event)
    | Begin(c: nat)
    | Allot(c: nat, w: nat)
    | Discount(c: nat, n: nat)
    | End(c: nat)
    | Pop
    | Publish
    | Restart(c: nat)

  // ----- The code of each step -----

  /** `limit` of `hpcap_poll`. */
  function Limit(ls: Listeners, size: nat, consumers: nat): nat
    requires ls.InBuffer(size) && consumers > 0
  {
    Avail(ls.global, size) / consumers
  }

  predicate Shaped(q: Queue, g: Progress, sz: Sizing) {
    q.ls.InBuffer(sz.buffer) && |q.left| > 0 && |q.ls.slots| == |g.p.readers|
  }

  /** The first thread pops and publishes between its own calls, and a thread resets before its call. */
  predicate Permitted(q: Queue, step: Step, sz: Sizing)
    requires |q.left| > 0
  {
    match step
    case Client(e) => (e.Open? || e.Close? || e.Ack?) && e.id != EMPTY
    case Begin(c) => c < |q.left| && q.left[c] == 0
    case Allot(c, w) => c < |q.left| && RAW_HLEN < w <= sz.most && w + RAW_HLEN <= q.left[c]
    case Discount(c, _) => c < |q.left|
    case End(c) => c < |q.left|
    case Pop => q.left[0] == 0
    case Publish => q.left[0] == 0
    case Restart(c) => c < |q.left| && q.left[c] == 0
  }

  function NewBytes(q: Queue, size: nat): nat
    requires q.ls.InBuffer(size)
  {
    Distance(q.ls.global.wr, ToSizeT(q.counter) % size, size)
  }

  function Perform(q: Queue, step: Step, sz: Sizing): Queue
    requires q.ls.InBuffer(sz.buffer) && |q.left| > 0 && Permitted(q, step, sz)
  {
    match step
    case Client(e) => q.(ls := Do(q.ls, e, sz.buffer))
    case Begin(c) => q.(left := q.left[c := Limit(q.ls, sz.buffer, |q.left|)])
    case Allot(c, w) => q.(counter := AddReturn(q.counter, w), left := q.left[c := q.left[c] - w])
    case Discount(c, n) => q.(left := q.left[c := if n < q.left[c] then q.left[c] - n else 0])
    case End(c) => q.(left := q.left[c := 0])
    case Pop => q.(ls := PopGlobal(q.ls, sz.buffer))
    case Publish =>
      if NewBytes(q, sz.buffer) > 0 then q.(ls := PushAll(q.ls, NewBytes(q, sz.buffer), sz.buffer)) else q
    case Restart(_) => if q.ls.count <= 0 then q.(ls := ResetOffsets(q.ls), counter := 0) else q
  }

  // ----- What it means -----

  function Advance(q: Queue, g: Progress, step: Step): Progress
    requires |q.ls.slots| == |g.p.readers|
  {
    match step
    case Client(e) => g.(p := Move(q.ls, g.p, e))
    case Begin(c) => g.(called := g.called + {c})
    case Allot(_, w) => g.(reserved := g.reserved + w)
    case Discount(_, _) => g
    case End(_) => g
    case Pop => g.(p := Move(q.ls, g.p, PopAll))
    case Publish =>
      Progress(Move(q.ls, g.p, Push(if g.reserved >= g.p.wr then g.reserved - g.p.wr else 0)), g.reserved, {})
    case Restart(_) => g.(p := Move(q.ls, g.p, Idle), reserved := if NoClients(q.ls.slots) then 0 else g.reserved)
  }

  /** What a call with this much left can still reserve: every reservation leaves a header's room, and is
      itself larger than one. */
  function Claim(left: nat): nat {
    if left > 2 * RAW_HLEN then left - RAW_HLEN else 0
  }

  /** What all calls in progress can still reserve. */
  function Claims(left: seq<nat>): nat {
    if |left| == 0 then 0 else Claims(left[..|left| - 1]) + Claim(left[|left| - 1])
  }

  ghost predicate Sound(q: Queue, g: Progress, sz: Sizing) {
    && |q.left| > 0
    && Stands(q.ls, g.p, sz.buffer)
    && TWO_32 % sz.buffer == 0
    && q.counter == ToInt32(g.reserved)
    && g.p.wr <= g.reserved
  }

  /** Everything reserved, and everything the calls in progress can still reserve, is short of a whole lap
      past the global read offset. */
  ghost predicate Safe(q: Queue, g: Progress, sz: Sizing) {
    Sound(q, g, sz) && g.reserved + Claims(q.left) < g.p.rd + sz.buffer
  }

  /** What can be checked before a call: the claim of its limit fits beside the others. */
  predicate Affordable(q: Queue, g: Progress, step: Step, sz: Sizing)
    requires Shaped(q, g, sz)
  {
    step.Begin? ==>
      g.reserved + Claims(q.left) + Claim(Limit(q.ls, sz.buffer, |q.left|)) < g.p.rd + sz.buffer
  }

  /** A reserved byte lies in the place of a published one that some registered listener has not read. */
  ghost predicate Overwritten(q: Queue, g: Progress, sz: Sizing)
    requires |q.ls.slots| == |g.p.readers| && sz.buffer > 0
  {
    exists i: nat, x: nat, y: nat :: Collide(q, g, i, x, y, sz)
  }

  predicate Collide(q: Queue, g: Progress, i: nat, x: nat, y: nat, sz: Sizing)
    requires |q.ls.slots| == |g.p.readers| && sz.buffer > 0
  {
    && i < |q.ls.slots| && q.ls.slots[i].id != EMPTY
    && g.p.readers[i] <= x < g.p.wr <= y < g.reserved
    && x % sz.buffer == y % sz.buffer
  }

  // ----- Claims -----

  lemma {:induction false} ClaimsUpdate(left: seq<nat>, c: nat, l: nat)
    requires c < |left|
    ensures Claims(left[c := l]) == Claims(left) - Claim(left[c]) + Claim(l)
    ensures Claim(left[c]) <= Claims(left)
  {
    var n := |left| - 1;
    if c < n {
      assert left[c := l][..n] == left[..n][c := l];
      ClaimsUpdate(left[..n], c, l);
    } else {
      assert left[c := l][..n] == left[..n];
    }
  }

  lemma {:induction false} NoClaims(left: seq<nat>)
    requires forall c :: 0 <= c < |left| ==> left[c] == 0
    ensures Claims(left) == 0
  {
    if |left| > 0 {
      NoClaims(left[..|left| - 1]);
    }
  }

  // ----- Steps and runs -----

  lemma {:induction false} SafeShape(q: Queue, g: Progress, sz: Sizing)
    requires Sound(q, g, sz)
    ensures Shaped(q, g, sz) && sz.buffer > 0
  {
    StandsInBuffer(q.ls, g.p, sz.buffer);
  }

  /** What is pushed is what has been reserved, to the byte. */
  lemma {:induction false} NewBytesExact(q: Queue, g: Progress, sz: Sizing)
    requires Sound(q, g, sz) && g.reserved < g.p.rd + sz.buffer
    ensures q.ls.InBuffer(sz.buffer) && NewBytes(q, sz.buffer) == g.reserved - g.p.wr
  {
    StandsInBuffer(q.ls, g.p, sz.buffer);
    OffsetFromCounter(g.reserved, 0, sz.buffer);
    DistanceOfPositions(g.p.wr, g.reserved, sz.buffer);
  }

  lemma {:induction false} AllotSafe(q: Queue, g: Progress, c: nat, w: nat, sz: Sizing)
    requires Sound(q, g, sz) && Shaped(q, g, sz) && Permitted(q, Allot(c, w), sz)
    ensures var q', g' := Perform(q, Allot(c, w), sz), Advance(q, g, Allot(c, w));
            Sound(q', g', sz) && g'.reserved + Claims(q'.left) <= g.reserved + Claims(q.left)
  {
    hide Stands, ToInt32;
    Int32Add(g.reserved, w);
    ClaimsUpdate(q.left, c, q.left[c] - w);
  }

  lemma {:induction false} PublishSafe(q: Queue, g: Progress, sz: Sizing)
    requires Safe(q, g, sz) && Shaped(q, g, sz) && Permitted(q, Publish, sz)
    ensures Safe(Perform(q, Publish, sz), Advance(q, g, Publish), sz)
    ensures Advance(q, g, Publish).p.wr == g.reserved && Advance(q, g, Publish).p.rd == g.p.rd
  {
    NewBytesExact(q, g, sz);
    StepStands(q.ls, g.p, Push(g.reserved - g.p.wr), sz.buffer);
  }

  lemma {:induction false} RestartSafe(q: Queue, g: Progress, c: nat, sz: Sizing)
    requires Safe(q, g, sz) && Shaped(q, g, sz) && Permitted(q, Restart(c), sz)
    ensures Safe(Perform(q, Restart(c), sz), Advance(q, g, Restart(c)), sz)
  {
    hide Claims, Active, SlotStands;
    CountMeans(q.ls, g.p, sz.buffer);
    if q.ls.count <= 0 {
      StepStands(q.ls, g.p, Idle, sz.buffer);
      DivModUnique(0, 0, 0, TWO_32);
    }
  }

  /** Every step keeps what the calls in progress can reserve clear of the slowest reader, if only each
      limit taken is affordable. */
  lemma {:induction false} StepSafe(q: Queue, g: Progress, step: Step, sz: Sizing)
    requires Safe(q, g, sz) && Shaped(q, g, sz) && Permitted(q, step, sz) && Affordable(q, g, step, sz)
    ensures Safe(Perform(q, step, sz), Advance(q, g, step), sz)
  {
    match step
    case Client(e) => StepStands(q.ls, g.p, e, sz.buffer);
    case Begin(c) => ClaimsUpdate(q.left, c, Limit(q.ls, sz.buffer, |q.left|));
    case Allot(c, w) => AllotSafe(q, g, c, w, sz);
    case Discount(c, n) => ClaimsUpdate(q.left, c, if n < q.left[c] then q.left[c] - n else 0);
    case End(c) => ClaimsUpdate(q.left, c, 0);
    case Pop => StepStands(q.ls, g.p, PopAll, sz.buffer);
    case Publish => PublishSafe(q, g, sz);
    case Restart(c) => RestartSafe(q, g, c, sz);
  }

  predicate Legal(q: Queue, g: Progress, run: seq<Step>, sz: Sizing)
    requires Shaped(q, g, sz)
    decreases |run|
  {
    |run| == 0 ||
    (Permitted(q, run[0], sz)
     && Shaped(Perform(q, run[0], sz), Advance(q, g, run[0]), sz)
     && Legal(Perform(q, run[0], sz), Advance(q, g, run[0]), run[1..], sz))
  }

  function After(q: Queue, g: Progress, run: seq<Step>, sz: Sizing): (r: (Queue, Progress))
    requires Shaped(q, g, sz) && Legal(q, g, run, sz)
    ensures Shaped(r.0, r.1, sz)
    decreases |run|
  {
    if |run| == 0 then (q, g) else After(Perform(q, run[0], sz), Advance(q, g, run[0]), run[1..], sz)
  }

  /** Every limit of the run was affordable when it was taken. */
  predicate AllAffordable(q: Queue, g: Progress, run: seq<Step>, sz: Sizing)
    requires Shaped(q, g, sz) && Legal(q, g, run, sz)
    decreases |run|
  {
    |run| == 0 ||
    (Affordable(q, g, run[0], sz)
     && AllAffordable(Perform(q, run[0], sz), Advance(q, g, run[0]), run[1..], sz))
  }

  lemma {:induction false} SafeMeans(q: Queue, g: Progress, sz: Sizing)
    requires Safe(q, g, sz)
    ensures Shaped(q, g, sz) && sz.buffer > 0 && !Overwritten(q, g, sz)
    ensures NewBytes(q, sz.buffer) == g.reserved - g.p.wr
  {
    SafeShape(q, g, sz);
    NewBytesExact(q, g, sz);
    forall i: nat, x: nat, y: nat ensures !Collide(q, g, i, x, y, sz) {
      if Collide(q, g, i, x, y, sz) {
        assert SlotStands(q.ls.slots[i], g.p.readers[i], g.p, sz.buffer);
        SameOffset(x, y, sz.buffer);
        assert false;
      }
    }
  }

  /** Over any run in which every limit was affordable when taken, calls that stay open across publications
      included: nothing reserved lies on a byte that a listener has not read, and the next publication
      pushes what was reserved, to the byte. */
  lemma {:induction false} AffordableRunsAreSafe(q: Queue, g: Progress, run: seq<Step>, sz: Sizing)
    requires Safe(q, g, sz) && Shaped(q, g, sz) && Legal(q, g, run, sz) && AllAffordable(q, g, run, sz)
    ensures var (q', g') := After(q, g, run, sz);
            Safe(q', g', sz) && sz.buffer > 0 && !Overwritten(q', g', sz)
            && NewBytes(q', sz.buffer) == g'.reserved - g'.p.wr
    decreases |run|
  {
    if |run| == 0 {
      SafeMeans(q, g, sz);
    } else {
      StepSafe(q, g, run[0], sz);
      hide Permitted, Perform, Advance, Affordable, Safe, Overwritten;
      AffordableRunsAreSafe(Perform(q, run[0], sz), Advance(q, g, run[0]), run[1..], sz);
    }
  }

  // ----- A discipline that makes every limit affordable -----

  /** What one call may reserve, from the positions. */
  function Share(p: Positions, size: nat, consumers: nat): nat
    requires p.rd <= p.wr < p.rd + size && consumers > 0
  {
    (size - 1 - (p.wr - p.rd)) / consumers
  }

  /** Each consumer takes at most one limit between two publications; nothing is published while a call can
      still reserve. */
  datatype Rule = OncePerPublication | NoCallAcross

  predicate Obeys(rule: Rule, q: Queue, g: Progress, step: Step) {
    match rule
    case OncePerPublication => step.Begin? ==> step.c !in g.called
    case NoCallAcross => step.Publish? ==> Claims(q.left) == 0
  }

  predicate Orderly(q: Queue, g: Progress, step: Step) {
    Obeys(OncePerPublication, q, g, step) && Obeys(NoCallAcross, q, g, step)
  }

  ghost predicate InStep(q: Queue, g: Progress, sz: Sizing) {
    && Sound(q, g, sz)
    && (forall c :: c in g.called ==> c < |q.left|)
    && g.reserved + Claims(q.left) <= g.p.wr + |g.called| * Share(g.p, sz.buffer, |q.left|)
  }

  lemma {:induction false} AtMost(called: set<nat>, n: nat)
    requires forall c :: c in called ==> c < n
    ensures |called| <= n
  {
    if n == 0 {
      if c :| c in called { assert false; }
    } else {
      AtMost(called - {n - 1}, n - 1);
    }
  }

  lemma DivideOrder(a: nat, b: nat, n: nat)
    requires a <= b && n > 0
    ensures a / n <= b / n
    ensures (a / n) * n <= a
  {
    DivModExpand(a, n);
    DivModExpand(b, n);
    if a / n > b / n {
      MulOrder(b / n, a / n, n);
    }
  }

  /** However many of the consumers have called, the shares stay a byte short of a whole lap. */
  lemma {:induction false} SharesFit(p: Positions, k: nat, size: nat, consumers: nat)
    requires p.rd <= p.wr < p.rd + size && k <= consumers && consumers > 0
    ensures p.wr + k * Share(p, size, consumers) < p.rd + size
  {
    var free := size - 1 - (p.wr - p.rd);
    var share := Share(p, size, consumers);
    DivideOrder(free, free, consumers);
    MulOrder(k, consumers, share);
    assert consumers * share == share * consumers;
  }

  /** The discipline keeps all reservations made, and all that can still be made, inside the lap. */
  lemma {:induction false} ReservedInLap(q: Queue, g: Progress, sz: Sizing)
    requires InStep(q, g, sz)
    ensures Safe(q, g, sz) && g.reserved + Claims(q.left) < g.p.rd + sz.buffer
  {
    AtMost(g.called, |q.left|);
    SharesFit(g.p, |g.called|, sz.buffer, |q.left|);
  }

  lemma {:induction false} LimitIsShare(ls: Listeners, p: Positions, size: nat, consumers: nat)
    requires Stands(ls, p, size) && consumers > 0
    ensures ls.InBuffer(size) && Limit(ls, size, consumers) == Share(p, size, consumers)
  {
    StandsInBuffer(ls, p, size);
    DistanceOfPositions(p.rd, p.wr, size);
  }

  /** The limit of a consumer that has not called yet is free space, beside all that the other calls can
      still reserve.  This is what `RxCalls.CallRecorded` asks of a call. */
  lemma {:induction false} LimitIsFree(q: Queue, g: Progress, c: nat, sz: Sizing)
    requires InStep(q, g, sz) && c < |q.left| && c !in g.called
    ensures q.ls.InBuffer(sz.buffer)
    ensures g.reserved + Claims(q.left) + Limit(q.ls, sz.buffer, |q.left|) < g.p.rd + sz.buffer
  {
    LimitIsShare(q.ls, g.p, sz.buffer, |q.left|);
    var k, share := |g.called|, Share(g.p, sz.buffer, |q.left|);
    AtMost(g.called + {c}, |q.left|);
    assert |g.called + {c}| == k + 1;
    SharesFit(g.p, k + 1, sz.buffer, |q.left|);
    Distribute(k, 1, share);
  }

  lemma ShareOrder(k: nat, a: nat, b: nat)
    requires a <= b
    ensures k * a <= k * b
  {
    MulOrder(a, b, k);
  }

  lemma {:induction false} BeginInStep(q: Queue, g: Progress, c: nat, sz: Sizing)
    requires InStep(q, g, sz) && Shaped(q, g, sz) && Permitted(q, Begin(c), sz) && c !in g.called
    ensures InStep(Perform(q, Begin(c), sz), Advance(q, g, Begin(c)), sz)
  {
    LimitIsShare(q.ls, g.p, sz.buffer, |q.left|);
    hide Stands, Limit, Share, ToInt32;
    var share := Share(g.p, sz.buffer, |q.left|);
    ClaimsUpdate(q.left, c, share);
    Distribute(|g.called|, 1, share);
    assert |g.called + {c}| == |g.called| + 1;
  }

  lemma {:induction false} PopInStep(q: Queue, g: Progress, sz: Sizing)
    requires InStep(q, g, sz) && Shaped(q, g, sz) && Permitted(q, Pop, sz)
    ensures InStep(Perform(q, Pop, sz), Advance(q, g, Pop), sz)
  {
    StepStands(q.ls, g.p, PopAll, sz.buffer);
    var p' := Move(q.ls, g.p, PopAll);
    DivideOrder(sz.buffer - 1 - (g.p.wr - g.p.rd), sz.buffer - 1 - (p'.wr - p'.rd), |q.left|);
    ShareOrder(|g.called|, Share(g.p, sz.buffer, |q.left|), Share(p', sz.buffer, |q.left|));
  }

  lemma {:induction false} RestartInStep(q: Queue, g: Progress, c: nat, sz: Sizing)
    requires InStep(q, g, sz) && Shaped(q, g, sz) && Permitted(q, Restart(c), sz)
    ensures InStep(Perform(q, Restart(c), sz), Advance(q, g, Restart(c)), sz)
  {
    ReservedInLap(q, g, sz);
    RestartSafe(q, g, c, sz);
    CountMeans(q.ls, g.p, sz.buffer);
    if q.ls.count <= 0 {
      var p' := Move(q.ls, g.p, Idle);
      DivideOrder(sz.buffer - 1 - (g.p.wr - g.p.rd), sz.buffer - 1, |q.left|);
      ShareOrder(|g.called|, Share(g.p, sz.buffer, |q.left|), Share(p', sz.buffer, |q.left|));
    }
  }

  lemma {:induction false} LessInStep(q: Queue, g: Progress, c: nat, l: nat, sz: Sizing)
    requires InStep(q, g, sz) && c < |q.left| && l <= q.left[c]
    ensures InStep(q.(left := q.left[c := l]), g, sz)
  {
    hide Stands, Share;
    ClaimsUpdate(q.left, c, l);
  }

  lemma {:induction false} AllotInStep(q: Queue, g: Progress, c: nat, w: nat, sz: Sizing)
    requires InStep(q, g, sz) && Shaped(q, g, sz) && Permitted(q, Allot(c, w), sz)
    ensures InStep(Perform(q, Allot(c, w), sz), Advance(q, g, Allot(c, w)), sz)
  {
    hide Stands, Share, Claims;
    AllotSafe(q, g, c, w, sz);
  }

  lemma {:induction false} ClientInStep(q: Queue, g: Progress, e: Event, sz: Sizing)
    requires InStep(q, g, sz) && Shaped(q, g, sz) && Permitted(q, Client(e), sz)
    ensures InStep(Perform(q, Client(e), sz), Advance(q, g, Client(e)), sz)
  {
    hide Stands, Claims;
    StepStands(q.ls, g.p, e, sz.buffer);
  }

  lemma {:induction false} PublishInStep(q: Queue, g: Progress, sz: Sizing)
    requires InStep(q, g, sz) && Shaped(q, g, sz) && Permitted(q, Publish, sz) && Claims(q.left) == 0
    ensures InStep(Perform(q, Publish, sz), Advance(q, g, Publish), sz)
  {
    hide Stands, Claims, Share;
    ReservedInLap(q, g, sz);
    PublishSafe(q, g, sz);
  }

  lemma {:induction false} StepInStep(q: Queue, g: Progress, step: Step, sz: Sizing)
    requires InStep(q, g, sz) && Shaped(q, g, sz) && Permitted(q, step, sz) && Orderly(q, g, step)
    ensures InStep(Perform(q, step, sz), Advance(q, g, step), sz)
    ensures Affordable(q, g, step, sz)
  {
    hide Sound, Share, Claims, InStep, Limit;
    match step
    case Client(e) => ClientInStep(q, g, e, sz);
    case Begin(c) =>
      LimitIsFree(q, g, c, sz);
      BeginInStep(q, g, c, sz);
    case Allot(c, w) => AllotInStep(q, g, c, w, sz);
    case Discount(c, n) => LessInStep(q, g, c, if n < q.left[c] then q.left[c] - n else 0, sz);
    case End(c) => LessInStep(q, g, c, 0, sz);
    case Pop => PopInStep(q, g, sz);
    case Publish => PublishInStep(q, g, sz);
    case Restart(c) => RestartInStep(q, g, c, sz);
  }

  predicate AllObey(rule: Rule, q: Queue, g: Progress, run: seq<Step>, sz: Sizing)
    requires Shaped(q, g, sz) && Legal(q, g, run, sz)
    decreases |run|
  {
    |run| == 0 ||
    (Obeys(rule, q, g, run[0])
     && AllObey(rule, Perform(q, run[0], sz), Advance(q, g, run[0]), run[1..], sz))
  }

  lemma {:induction false} RunInStep(q: Queue, g: Progress, run: seq<Step>, sz: Sizing)
    requires InStep(q, g, sz) && Shaped(q, g, sz) && Legal(q, g, run, sz)
    requires AllObey(OncePerPublication, q, g, run, sz) && AllObey(NoCallAcross, q, g, run, sz)
    ensures InStep(After(q, g, run, sz).0, After(q, g, run, sz).1, sz)
    ensures AllAffordable(q, g, run, sz)
    decreases |run|
  {
    if |run| > 0 {
      StepInStep(q, g, run[0], sz);
      hide Permitted, Perform, Advance, Obeys, InStep, Affordable;
      RunInStep(Perform(q, run[0], sz), Advance(q, g, run[0]), run[1..], sz);
    }
  }

  /** Over any run in which each consumer calls at most once between two publications and no call is open
      across one: no byte reserved since the last publication shares its place in the buffer with a byte that
      some registered listener has not read. */
  lemma {:induction false} NothingUnreadIsOverwritten(q: Queue, g: Progress, run: seq<Step>, sz: Sizing)
    requires InStep(q, g, sz) && Shaped(q, g, sz) && Legal(q, g, run, sz)
    requires AllObey(OncePerPublication, q, g, run, sz) && AllObey(NoCallAcross, q, g, run, sz)
    ensures sz.buffer > 0 && !Overwritten(After(q, g, run, sz).0, After(q, g, run, sz).1, sz)
  {
    RunInStep(q, g, run, sz);
    ReservedInLap(After(q, g, run, sz).0, After(q, g, run, sz).1, sz);
    SafeMeans(After(q, g, run, sz).0, After(q, g, run, sz).1, sz);
  }

  function StartQueue(slots: nat, consumers: nat): Queue {
    Queue(Listeners(seq(slots, (i: nat) => RESET), RESET, 0, false), 0, seq(consumers, (c: nat) => 0))
  }

  function StartProgress(slots: nat): Progress {
    Progress(Positions(0, 0, seq(slots, (i: nat) => 0), false), 0, {})
  }

  lemma {:induction false} StartsInStep(slots: nat, consumers: nat, sz: Sizing)
    requires 0 < sz.buffer <= TWO_32 && TWO_32 % sz.buffer == 0 && consumers > 0
    ensures InStep(StartQueue(slots, consumers), StartProgress(slots), sz)
    ensures Shaped(StartQueue(slots, consumers), StartProgress(slots), sz)
  {
    InitialStands(slots, sz.buffer);
    NoClaims(StartQueue(slots, consumers).left);
    DivModUnique(0, 0, 0, TWO_32);
  }
}
