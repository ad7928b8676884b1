/** Runs of a client that reads, acknowledges and waits while the driver and other clients go on. */
module ClientRuns {
  import opened Cyclic
  import opened WriteCounter
  import opened ListenerModel
  import opened ListenerRuns
  import opened HandleModel

  /** How far the handle has moved since it was opened.  Once `started`, by a first wait that found
      enough bytes, its reading position is base + at. */
  datatype Track = Track(at: nat, base: nat, started: bool)

  /** The handle agrees with the driver, whose listener has read r of the wr bytes pushed. */
  ghost predicate Agrees(h: Handle, r: nat, wr: nat, t: Track, sz: Sizes)
    requires sz.Valid()
  {
    && h.rdoff == t.at % sz.buffer
    && h.fileOffset == t.at % sz.file
    && h.acks <= h.avail
    && r + h.avail <= wr
    && (t.started ==> t.base % sz.buffer == 0 && t.base + t.at == r + h.acks)
    && (!t.started ==> t.at == 0 && h.avail == 0)
  }

  /** What the agreement is for: while the handle has bytes, its offset is the driver's plus what has
      been read since the last acknowledgement, and none of them is beyond what the driver has pushed. */
  lemma {:induction false} AgreementMeans(ls: Listeners, p: Positions, i: nat, h: Handle, t: Track, sz: Sizes)
    requires sz.Valid() && Stands(ls, p, sz.buffer) && i < |ls.slots| && ls.slots[i].id != EMPTY
    requires Agrees(h, p.readers[i], p.wr, t, sz)
    ensures ls.slots[i].InBuffer(sz.buffer)
    ensures h.avail > 0 ==> h.rdoff == (ls.slots[i].rd + h.acks) % sz.buffer
    ensures h.acks <= h.avail <= Used(ls.slots[i], sz.buffer)
  {
    var r := p.readers[i];
    assert SlotStands(ls.slots[i], r, p, sz.buffer);
    DistanceOfPositions(r, p.wr, sz.buffer);
    if h.avail > 0 {
      AddWrapped(r, h.acks, sz.buffer);
      AddWrapped(t.base, t.at, sz.buffer);
    }
  }

  /** The tracked offset in the file is the true one exactly when the bytes skipped at the start are
      whole files; they are none if the client opened within the first lap. */
  lemma {:induction false} FileOffsetRightIff(h: Handle, r: nat, wr: nat, t: Track, sz: Sizes)
    requires sz.Valid() && Agrees(h, r, wr, t, sz) && t.started
    ensures h.fileOffset == (r + h.acks) % sz.file <==> t.base % sz.file == 0
  {
    var F := sz.file;
    AddWrapped(t.base, t.at, F);
    AddWrapped(t.at, t.base % F, F);
    var x, b := t.at % F, t.base % F;
    if x + b < F {
      DivModUnique(x + b, 0, x + b, F);
    } else {
      DivModUnique(x + b, 1, x + b - F, F);
    }
  }

  // ----- Moving the offset -----

  lemma {:induction false} AdvanceByTracks(h: Handle, at: nat, n: nat, sz: Sizes)
    requires sz.Valid() && h.rdoff == at % sz.buffer && h.fileOffset == at % sz.file
    ensures AdvanceBy(h, n, sz).rdoff == (at + n) % sz.buffer
    ensures AdvanceBy(h, n, sz).fileOffset == (at + n) % sz.file
  {
    AddWrapped(at, n, sz.buffer);
    AddWrapped(at, n, sz.file);
  }

  /** Moving to an offset moves by the distance to it, never by a whole lap. */
  lemma {:induction false} AdvanceToTracks(h: Handle, at: nat, to: nat, sz: Sizes)
    requires sz.Valid() && h.rdoff == at % sz.buffer && h.fileOffset == at % sz.file
    requires at <= to < at + sz.buffer
    ensures AdvanceTo(h, to % sz.buffer, sz) ==
              h.(rdoff := to % sz.buffer, fileOffset := to % sz.file)
  {
    DistanceOfPositions(at, to, sz.buffer);
    AdvanceByTracks(h, at, to - at, sz);
  }

  // ----- The wait -----

  ghost predicate PollFits(ls: Listeners, p: Positions, n: nat, size: nat) {
    && Stands(ls, p, size)
    && p.wr + n < Move(ls, p, PopAll).rd + size
  }

  function Polled(ls: Listeners, p: Positions, n: nat, size: nat): (p': Positions)
    requires |ls.slots| == |p.readers| && ls.InBuffer(size)
    ensures p'.readers == p.readers && p'.wr == p.wr + n
  {
    var p1 := Move(ls, p, PopAll);
    p1.(wr := p1.wr + n)
  }

  lemma {:induction false} PollStands(ls: Listeners, p: Positions, n: nat, size: nat)
    requires PollFits(ls, p, n, size)
    ensures ls.InBuffer(size) && Stands(Poll(ls, n, size), Polled(ls, p, n, size), size)
  {
    hide Stands, PopGlobal, PushAll, Slowest;
    StandsInBuffer(ls, p, size);
    StepStands(ls, p, PopAll, size);
    StepStands(PopGlobal(ls, size), Move(ls, p, PopAll), Push(n), size);
  }

  lemma PollKeepsIds(ls: Listeners, n: nat, size: nat)
    requires ls.InBuffer(size)
    ensures |Poll(ls, n, size).slots| == |ls.slots|
    ensures forall k :: 0 <= k < |ls.slots| ==> Poll(ls, n, size).slots[k].id == ls.slots[k].id
  {
  }

  /** Each push of the poll thread during the wait fits in the buffer. */
  ghost predicate WaitFits(ls: Listeners, p: Positions, i: nat, desired: nat, loops: int, pushes: seq<nat>, size: nat)
    requires ls.InBuffer(size) && i < |ls.slots| == |p.readers| && loops <= |pushes|
    decreases |pushes|
  {
    Used(ls.slots[i], size) >= desired || loops <= 0 ||
    (PollFits(ls, p, pushes[0], size) &&
     WaitFits(Poll(ls, pushes[0], size), Polled(ls, p, pushes[0], size), i, desired, loops - 1, pushes[1..], size))
  }

  function WaitedAt(ls: Listeners, p: Positions, i: nat, desired: nat, loops: int, pushes: seq<nat>, size: nat):
      (p': Positions)
    requires ls.InBuffer(size) && i < |ls.slots| == |p.readers| && loops <= |pushes|
    ensures p'.readers == p.readers && p.wr <= p'.wr
    decreases |pushes|
  {
    if Used(ls.slots[i], size) >= desired || loops <= 0 then p
    else WaitedAt(Poll(ls, pushes[0], size), Polled(ls, p, pushes[0], size), i, desired, loops - 1, pushes[1..], size)
  }

  lemma {:induction false} WaitStands(
    ls: Listeners, p: Positions, i: nat, desired: nat, loops: int, pushes: seq<nat>, size: nat)
    requires Stands(ls, p, size) && ls.InBuffer(size) && i < |ls.slots| && loops <= |pushes|
    requires WaitFits(ls, p, i, desired, loops, pushes, size)
    ensures Stands(Waited(ls, i, desired, loops, pushes, size).0, WaitedAt(ls, p, i, desired, loops, pushes,
            size), size)
    ensures Waited(ls, i, desired, loops, pushes, size).0.slots[i].id == ls.slots[i].id
    decreases |pushes|
  {
    hide Stands, PollFits, Poll, Move;
    StandsInBuffer(ls, p, size);
    if Used(ls.slots[i], size) < desired && loops > 0 {
      PollStands(ls, p, pushes[0], size);
      PollKeepsIds(ls, pushes[0], size);
      WaitStands(Poll(ls, pushes[0], size), Polled(ls, p, pushes[0], size), i, desired, loops - 1, pushes[1..], size);
    }
  }

  /** How many times the wait sleeps. */
  function Sleeps(ls: Listeners, i: nat, desired: nat, loops: int, pushes: seq<nat>, size: nat): (n: nat)
    requires ls.InBuffer(size) && i < |ls.slots| && loops <= |pushes|
    ensures n <= |pushes|
    decreases |pushes|
  {
    if Used(ls.slots[i], size) >= desired || loops <= 0 then 0
    else 1 + Sleeps(Poll(ls, pushes[0], size), i, desired, loops - 1, pushes[1..], size)
  }

  lemma LoopsPositiveIff(timeoutNs: nat)
    ensures Loops(timeoutNs) > 0 <==> 0 < (timeoutNs / SLEEP_QUANT) % TWO_32 < TWO_31
  {
  }

  /** A wait that ends with too few bytes has slept as often as its loop counter allows. */
  lemma {:induction false} SleepsItsLoops(
    ls: Listeners, i: nat, desired: nat, loops: int, pushes: seq<nat>, size: nat)
    requires ls.InBuffer(size) && i < |ls.slots| && loops <= |pushes|
    ensures Waited(ls, i, desired, loops, pushes, size).1 < desired ==>
              Sleeps(ls, i, desired, loops, pushes, size) == if loops > 0 then loops else 0
    ensures Sleeps(ls, i, desired, loops, pushes, size) <= if loops > 0 then loops else 0
    decreases |pushes|
  {
    hide Poll;
    if Used(ls.slots[i], size) < desired && loops > 0 {
      PollKeepsIds(ls, pushes[0], size);
      SleepsItsLoops(Poll(ls, pushes[0], size), i, desired, loops - 1, pushes[1..], size);
    }
  }

  /** When bytes are missing, a request waits at all if and only if its timeout in units of 200 ns is
      between 1 and 2^31 - 1, counted modulo 2^32: the count of sleeps is an `int`.  Otherwise it returns at
      once with whatever is there, and then nothing has changed. */
  lemma {:induction false} TimeoutWaitsIff(
    ls: Listeners, i: nat, desired: nat, timeoutNs: nat, pushes: seq<nat>, size: nat)
    requires ls.InBuffer(size) && i < |ls.slots| && Loops(timeoutNs) <= |pushes| && Used(ls.slots[i], size) < desired
    ensures Sleeps(ls, i, desired, Loops(timeoutNs), pushes, size) > 0
            <==> 0 < (timeoutNs / SLEEP_QUANT) % TWO_32 < TWO_31
    ensures !(0 < (timeoutNs / SLEEP_QUANT) % TWO_32 < TWO_31) ==>
              Waited(ls, i, desired, Loops(timeoutNs), pushes, size) == (ls, Used(ls.slots[i], size))
    ensures Waited(ls, i, desired, Loops(timeoutNs), pushes, size).1 < desired ==>
              Sleeps(ls, i, desired, Loops(timeoutNs), pushes, size) ==
                if Loops(timeoutNs) > 0 then Loops(timeoutNs) else 0
  {
    hide Loops;
    LoopsPositiveIff(timeoutNs);
    SleepsItsLoops(ls, i, desired, Loops(timeoutNs), pushes, size);
  }

  /** The two families of timeouts that do not wait: none at all, which is documented to mean no timeout, and
      429.4967296 seconds, whose count of sleeps is negative. */
  lemma {:induction false} TimeoutsThatDoNotWait(ls: Listeners, i: nat, desired: nat, pushes: seq<nat>, size: nat)
    requires ls.InBuffer(size) && i < |ls.slots| && Used(ls.slots[i], size) < desired
    ensures Loops(0) == 0 && Loops(429_496_729_600) == -TWO_31
    ensures Waited(ls, i, desired, Loops(0), pushes, size) == (ls, Used(ls.slots[i], size))
    ensures Waited(ls, i, desired, Loops(429_496_729_600), pushes, size) == (ls, Used(ls.slots[i], size))
  {
  }

  // ----- One request -----

  lemma AdvanceKeepsCounts(h: Handle, offset: nat, sz: Sizes)
    requires sz.Valid() && h.rdoff < sz.buffer
    ensures AdvanceTo(h, offset, sz).avail == h.avail && AdvanceTo(h, offset, sz).acks == h.acks
  {
  }

  /** How a request ends: with an error for a client the driver does not know, which changes nothing on either
      side; with an abort for a handle that acknowledges more than it has; otherwise well. */
  lemma {:induction false} RequestEnds(
    ls: Listeners, id: int, h: Handle, want: nat, doAck: bool, loops: int, pushes: seq<nat>, sz: Sizes)
    requires sz.Valid() && ls.InBuffer(sz.buffer) && loops <= |pushes| && h.rdoff < sz.buffer
    ensures var a := Lstop(ls, id, AckBytes(h, doAck), want, loops, pushes, sz.buffer);
            var (h', r) := Settle(h, a, want, doAck, sz);
            var known := exists i :: 0 <= i < |ls.slots| && ls.slots[i].id == id;
            && r == (if !known then Err else if doAck && h.avail < h.acks then Aborted else Ok)
            && (!known ==> a.ls == ls && h' == h)
            && (r.Ok? ==> h'.acks == if doAck then 0 else h.acks)
            && (r.Ok? && (want == 0 || a.available < want) ==>
                  h' == h.(avail := if doAck then h.avail - h.acks else h.avail, acks := h'.acks))
            && (r.Ok? && 0 < want <= a.available ==> h'.avail == a.available)
  {
    hide Waited, Acknowledge, AdvanceTo;
    var i := Find(ls.slots, id);
    var a := Lstop(ls, id, AckBytes(h, doAck), want, loops, pushes, sz.buffer);
    AdvanceKeepsCounts((if doAck && h.acks <= h.avail then h.(avail := h.avail - h.acks, acks := 0) else h)
                       .(avail := a.available), a.readOffset, sz);
    if i < |ls.slots| {
      assert ls.slots[i].id == id;
    }
  }

  function OpPositions(ls: Listeners, p: Positions, id: int, h: Handle, want: nat, doAck: bool,
                       loops: int, pushes: seq<nat>, size: nat): Positions
    requires ls.InBuffer(size) && |ls.slots| == |p.readers| && loops <= |pushes|
  {
    var i := Find(ls.slots, id);
    var ack := AckBytes(h, doAck);
    if i == |ls.slots| then p
    else
      var acked, pa := Acknowledge(ls, id, ack, size), Move(ls, p, Ack(id, ack));
      if want == 0 then pa else WaitedAt(acked, pa, i, want, loops, pushes, size)
  }

  /** The request is one the library may make: bytes read are acknowledged before the next wait, and
      the driver's pushes meanwhile fit. */
  ghost predicate OpFits(ls: Listeners, p: Positions, id: int, h: Handle, want: nat, doAck: bool,
                         loops: int, pushes: seq<nat>, size: nat)
    requires ls.InBuffer(size) && |ls.slots| == |p.readers|
  {
    var i := Find(ls.slots, id);
    var ack := AckBytes(h, doAck);
    && id != EMPTY && i < |ls.slots| && loops <= |pushes|
    && (doAck || want == 0 || h.acks == 0)
    && (want > 0 ==> WaitFits(Acknowledge(ls, id, ack, size), Move(ls, p, Ack(id, ack)), i, want, loops, pushes, size))
  }

  function OpTrack(t: Track, r: nat, a: Answer, want: nat, sz: Sizes): Track
    requires sz.Valid()
  {
    if want > 0 && a.available >= want && !t.started then Track(r % sz.buffer, r - r % sz.buffer, true) else t
  }

  lemma LapStart(r: nat, n: nat)
    requires n > 0
    ensures r % n <= r && (r - r % n) % n == 0
  {
    ModAtMost(r, n);
    DivModExpand(r, n);
    DivModUnique(r - r % n, r / n, 0, n);
  }

  /** The acknowledgement reaches the driver whole: no clamp. */
  lemma {:induction false} AckIsWhole(ls: Listeners, p: Positions, id: int, h: Handle, t: Track, doAck: bool, sz: Sizes)
    requires sz.Valid() && Stands(ls, p, sz.buffer) && ls.InBuffer(sz.buffer) && id != EMPTY
    requires var i := Find(ls.slots, id); i < |ls.slots| && Agrees(h, p.readers[i], p.wr, t, sz)
    ensures var i, ack := Find(ls.slots, id), AckBytes(h, doAck);
            var pa := Move(ls, p, Ack(id, ack));
            && pa == p.(readers := p.readers[i := p.readers[i] + ack], read := p.read || ack > 0)
            && Stands(Acknowledge(ls, id, ack, sz.buffer), pa, sz.buffer)
            && Acknowledge(ls, id, ack, sz.buffer).slots[i].id == id
            && |Acknowledge(ls, id, ack, sz.buffer).slots| == |ls.slots|
  {
    AckStands(ls, p, id, AckBytes(h, doAck), sz.buffer);
  }

  /** The driver's side of a request. */
  lemma {:induction false} DriverAnswers(
    ls: Listeners, p: Positions, id: int, h: Handle, t: Track, want: nat, doAck: bool,
    loops: int, pushes: seq<nat>, sz: Sizes)
    requires sz.Valid() && Stands(ls, p, sz.buffer) && ls.InBuffer(sz.buffer)
    requires OpFits(ls, p, id, h, want, doAck, loops, pushes, sz.buffer)
    requires Agrees(h, p.readers[Find(ls.slots, id)], p.wr, t, sz)
    ensures var i, ack := Find(ls.slots, id), AckBytes(h, doAck);
            var a := Lstop(ls, id, ack, want, loops, pushes, sz.buffer);
            var p' := OpPositions(ls, p, id, h, want, doAck, loops, pushes, sz.buffer);
            && Stands(a.ls, p', sz.buffer) && |a.ls.slots| == |ls.slots| && a.ls.slots[i].id == id
            && a.ret == 0
            && p'.readers == p.readers[i := p.readers[i] + ack] && p.wr <= p'.wr
            && (want > 0 ==> a.available == p'.wr - p'.readers[i] && a.readOffset == p'.readers[i] % sz.buffer)
  {
    var i, ack := Find(ls.slots, id), AckBytes(h, doAck);
    AckIsWhole(ls, p, id, h, t, doAck, sz);
    var acked, pa := Acknowledge(ls, id, ack, sz.buffer), Move(ls, p, Ack(id, ack));
    if want > 0 {
      hide Acknowledge, Move, Agrees, Find;
      WaitStands(acked, pa, i, want, loops, pushes, sz.buffer);
      var w := Waited(acked, i, want, loops, pushes, sz.buffer);
      var p' := WaitedAt(acked, pa, i, want, loops, pushes, sz.buffer);
      OffsetsOf(w.0, p', i, sz.buffer);
    }
  }

  lemma OffsetsOf(ls: Listeners, p: Positions, i: nat, size: nat)
    requires Stands(ls, p, size) && i < |ls.slots| && ls.slots[i].id != EMPTY
    ensures ls.slots[i].InBuffer(size)
    ensures ls.slots[i].rd == p.readers[i] % size
    ensures Used(ls.slots[i], size) == p.wr - p.readers[i] >= 0
  {
    assert SlotStands(ls.slots[i], p.readers[i], p, size);
    DistanceOfPositions(p.readers[i], p.wr, size);
  }

  /** Every request keeps the agreement: the abort of the library and the clamp of the driver stay
      unreachable, a wait that finds enough hands over everything pushed, and once started the read
      offset moves by reading only. */
  lemma {:induction false} OpAgrees(
    ls: Listeners, p: Positions, id: int, h: Handle, t: Track, want: nat, doAck: bool,
    loops: int, pushes: seq<nat>, sz: Sizes)
    requires sz.Valid() && Stands(ls, p, sz.buffer) && ls.InBuffer(sz.buffer)
    requires OpFits(ls, p, id, h, want, doAck, loops, pushes, sz.buffer)
    requires Agrees(h, p.readers[Find(ls.slots, id)], p.wr, t, sz)
    ensures var i, ack := Find(ls.slots, id), AckBytes(h, doAck);
            var a := Lstop(ls, id, ack, want, loops, pushes, sz.buffer);
            var p' := OpPositions(ls, p, id, h, want, doAck, loops, pushes, sz.buffer);
            && h.rdoff < sz.buffer
            && i < |p'.readers|
            && Settle(h, a, want, doAck, sz).1 == Ok
            && Agrees(Settle(h, a, want, doAck, sz).0, p'.readers[i], p'.wr, OpTrack(t, p'.readers[i], a, want, sz), sz)
            && (want > 0 && a.available >= want ==>
                  Settle(h, a, want, doAck, sz).0.avail == p'.wr - p'.readers[i])
            && (t.started ==> Settle(h, a, want, doAck, sz).0.rdoff == h.rdoff)
  {
    var i, ack := Find(ls.slots, id), AckBytes(h, doAck);
    DriverAnswers(ls, p, id, h, t, want, doAck, loops, pushes, sz);
    var a := Lstop(ls, id, ack, want, loops, pushes, sz.buffer);
    var p' := OpPositions(ls, p, id, h, want, doAck, loops, pushes, sz.buffer);
    hide Lstop, OpPositions, OpFits, Stands;
    SettleAgrees(h, a, p.readers[i], p'.readers[i], p.wr, p'.wr, t, want, doAck, sz);
  }

  lemma {:induction false} SettleAgrees(
    h: Handle, a: Answer, r: nat, r': nat, wr: nat, wr': nat, t: Track, want: nat, doAck: bool, sz: Sizes)
    requires sz.Valid() && Agrees(h, r, wr, t, sz) && wr <= wr' && a.ret == 0
    requires r' == r + AckBytes(h, doAck)
    requires want > 0 ==> a.available == wr' - r' && a.readOffset == r' % sz.buffer
    requires doAck || want == 0 || h.acks == 0
    ensures h.rdoff < sz.buffer
    ensures var s := Settle(h, a, want, doAck, sz);
            && s.1 == Ok
            && Agrees(s.0, r', wr', OpTrack(t, r', a, want, sz), sz)
            && (want > 0 && a.available >= want ==> s.0.avail == wr' - r')
            && (t.started ==> s.0.rdoff == h.rdoff)
  {
    var acked := if doAck then h.(avail := h.avail - h.acks, acks := 0) else h;
    if want > 0 && a.available >= want {
      var g := acked.(avail := a.available);
      if t.started {
        AddWrapped(t.base, t.at, sz.buffer);
        AdvanceToTracks(g, t.at, t.at, sz);
      } else {
        LapStart(r', sz.buffer);
        DivModUnique(r' % sz.buffer, 0, r' % sz.buffer, sz.buffer);
        AdvanceToTracks(g, 0, r' % sz.buffer, sz);
      }
    }
  }

  /** Waiting with unacknowledged bytes winds the read offset back while the count of bytes read stays:
      the handle then disagrees with the driver, exactly when there were such bytes. */
  lemma {:induction false} WaitUnacknowledged(
    h: Handle, a: Answer, r: nat, wr: nat, wr': nat, t: Track, want: nat, sz: Sizes)
    requires sz.Valid() && Agrees(h, r, wr, t, sz) && wr <= wr' < r + sz.buffer && t.started
    requires a.ret == 0 && want > 0 && a.available == wr' - r >= want && a.readOffset == r % sz.buffer
    ensures h.rdoff < sz.buffer
    ensures var s := Settle(h, a, want, false, sz);
            s.1 == Ok && (s.0.rdoff == (r + s.0.acks) % sz.buffer <==> h.acks == 0)
  {
    var g := h.(avail := a.available);
    var d := if h.acks == 0 then 0 else sz.buffer - h.acks;
    AddWrapped(t.base, t.at, sz.buffer);
    AddWrapped(t.base, t.at + d, sz.buffer);
    AddPeriod(r, sz.buffer);
    assert (t.at + d) % sz.buffer == r % sz.buffer;
    AdvanceToTracks(g, t.at, t.at + d, sz);
    if r % sz.buffer == (r + h.acks) % sz.buffer {
      SameOffset(r, r + h.acks, sz.buffer);
    }
  }

  // ----- Runs -----

  datatype Step = Read(n: nat) | Request(want: nat, doAck: bool, timeoutNs: nat, pushes: seq<nat>) | Others(e: Event)

  datatype Session = Session(ls: Listeners, p: Positions, h: Handle, t: Track)

  ghost predicate InAgreement(s: Session, id: int, sz: Sizes) {
    && sz.Valid() && id != EMPTY
    && Stands(s.ls, s.p, sz.buffer)
    && Find(s.ls.slots, id) < |s.ls.slots|
    && Agrees(s.h, s.p.readers[Find(s.ls.slots, id)], s.p.wr, s.t, sz)
  }

  /** Reads stop at the available bytes; others leave this client's registration alone. */
  ghost predicate May(s: Session, step: Step, id: int, sz: Sizes)
    requires InAgreement(s, id, sz)
  {
    StandsInBuffer(s.ls, s.p, sz.buffer);
    match step
    case Read(n) => s.h.acks + n <= s.h.avail
    case Request(want, doAck, timeoutNs, pushes) =>
      OpFits(s.ls, s.p, id, s.h, want, doAck, Loops(timeoutNs), pushes, sz.buffer)
    case Others(e) =>
      Allowed(s.p, e, sz.buffer) && (e.Open? || e.Close? || e.Ack? ==> e.id != id)
  }

  function Take(s: Session, step: Step, id: int, sz: Sizes): Session
    requires sz.Valid() && s.ls.InBuffer(sz.buffer) && |s.ls.slots| == |s.p.readers| && s.h.rdoff < sz.buffer
    requires step.Request? ==> Loops(step.timeoutNs) <= |step.pushes| && Find(s.ls.slots, id) < |s.ls.slots|
  {
    match step
    case Read(n) => s.(h := AdvanceBy(s.h, n, sz).(acks := s.h.acks + n), t := s.t.(at := s.t.at + n))
    case Request(want, doAck, timeoutNs, pushes) =>
      var a := Lstop(s.ls, id, AckBytes(s.h, doAck), want, Loops(timeoutNs), pushes, sz.buffer);
      var p' := OpPositions(s.ls, s.p, id, s.h, want, doAck, Loops(timeoutNs), pushes, sz.buffer);
      Session(a.ls, p', Settle(s.h, a, want, doAck, sz).0,
              OpTrack(s.t, s.p.readers[Find(s.ls.slots, id)] + AckBytes(s.h, doAck), a, want, sz))
    case Others(e) => s.(ls := Do(s.ls, e, sz.buffer), p := Move(s.ls, s.p, e))
  }

  lemma FindIs(slots: seq<Listener>, id: int, i: nat)
    requires i < |slots| && slots[i].id == id && forall k :: 0 <= k < i ==> slots[k].id != id
    ensures Find(slots, id) == i
  {
  }

  lemma {:induction false} OthersKeepListener(ls: Listeners, p: Positions, e: Event, id: int, size: nat)
    requires Stands(ls, p, size) && Allowed(p, e, size) && ls.InBuffer(size) && id != EMPTY
    requires e.Open? || e.Close? || e.Ack? ==> e.id != id
    requires Find(ls.slots, id) < |ls.slots|
    ensures var i := Find(ls.slots, id);
            var ls', p' := Do(ls, e, size), Move(ls, p, e);
            && |ls'.slots| == |ls.slots| == |p'.readers|
            && Find(ls'.slots, id) == i && p'.readers[i] == p.readers[i] && p.wr <= p'.wr
  {
    var i := Find(ls.slots, id);
    OthersKeepIds(ls, p, e, id, size);
    if e.Idle? && ls.count <= 0 {
      NoneActive(ls.slots, i);
    }
    FindIs(Do(ls, e, size).slots, id, i);
    hide Active, Stands, Find, Slowest;
  }

  lemma {:induction false} OthersKeepIds(ls: Listeners, p: Positions, e: Event, id: int, size: nat)
    requires ls.InBuffer(size) && id != EMPTY && |ls.slots| == |p.readers|
    requires e.Open? || e.Close? || e.Ack? ==> e.id != id
    ensures var ls' := Do(ls, e, size);
            && |ls'.slots| == |ls.slots|
            && forall k :: 0 <= k < |ls.slots| ==> (ls'.slots[k].id == id <==> ls.slots[k].id == id)
  {
    hide ToSizeT, Used, Avail, MinDistance;
  }

  lemma OpFitsShape(ls: Listeners, p: Positions, id: int, h: Handle, want: nat, doAck: bool,
                    loops: int, pushes: seq<nat>, size: nat)
    requires ls.InBuffer(size) && |ls.slots| == |p.readers|
    requires OpFits(ls, p, id, h, want, doAck, loops, pushes, size)
    ensures loops <= |pushes|
  {
  }

  /** What a request leaves, field by field. */
  lemma RequestTakes(
    s: Session, want: nat, doAck: bool, timeoutNs: nat, pushes: seq<nat>, id: int, sz: Sizes)
    requires sz.Valid() && s.ls.InBuffer(sz.buffer) && |s.ls.slots| == |s.p.readers| && s.h.rdoff < sz.buffer
    requires Loops(timeoutNs) <= |pushes| && Find(s.ls.slots, id) < |s.ls.slots|
    ensures var s', ack := Take(s, Request(want, doAck, timeoutNs, pushes), id, sz), AckBytes(s.h, doAck);
            var a := Lstop(s.ls, id, ack, want, Loops(timeoutNs), pushes, sz.buffer);
            && s'.ls == a.ls && s'.h == Settle(s.h, a, want, doAck, sz).0
            && s'.p == OpPositions(s.ls, s.p, id, s.h, want, doAck, Loops(timeoutNs), pushes, sz.buffer)
            && s'.t == OpTrack(s.t, s.p.readers[Find(s.ls.slots, id)] + ack, a, want, sz)
  {
    hide Lstop, OpPositions, Settle, Find, OpTrack, AckBytes, Loops;
  }

  lemma AgreementIs(s: Session, id: int, sz: Sizes, i: nat)
    requires sz.Valid() && id != EMPTY && i < |s.ls.slots| && Find(s.ls.slots, id) == i
    requires Stands(s.ls, s.p, sz.buffer) && |s.p.readers| == |s.ls.slots|
    requires Agrees(s.h, s.p.readers[i], s.p.wr, s.t, sz)
    ensures InAgreement(s, id, sz)
  {
    hide Stands, Agrees, Find;
  }

  lemma {:induction false} RequestAgrees(
    s: Session, want: nat, doAck: bool, timeoutNs: nat, pushes: seq<nat>, id: int, sz: Sizes)
    requires InAgreement(s, id, sz) && s.ls.InBuffer(sz.buffer) && s.h.rdoff < sz.buffer
    requires OpFits(s.ls, s.p, id, s.h, want, doAck, Loops(timeoutNs), pushes, sz.buffer)
    ensures Loops(timeoutNs) <= |pushes|
    ensures InAgreement(Take(s, Request(want, doAck, timeoutNs, pushes), id, sz), id, sz)
  {
    hide Stands, Lstop, OpPositions, Settle, Find, Agrees, OpTrack, AckBytes, OpFits, Loops, Take;
    var loops := Loops(timeoutNs);
    StandsInBuffer(s.ls, s.p, sz.buffer);
    OpFitsShape(s.ls, s.p, id, s.h, want, doAck, loops, pushes, sz.buffer);
    OpAgrees(s.ls, s.p, id, s.h, s.t, want, doAck, loops, pushes, sz);
    DriverAnswers(s.ls, s.p, id, s.h, s.t, want, doAck, loops, pushes, sz);
    RequestKeepsListener(s.ls, id, AckBytes(s.h, doAck), want, loops, pushes, sz.buffer);
    RequestTakes(s, want, doAck, timeoutNs, pushes, id, sz);
    AgreementIs(Take(s, Request(want, doAck, timeoutNs, pushes), id, sz), id, sz, Find(s.ls.slots, id));
  }

  lemma {:induction false} OthersAgree(s: Session, e: Event, id: int, sz: Sizes)
    requires InAgreement(s, id, sz) && s.ls.InBuffer(sz.buffer) && s.h.rdoff < sz.buffer
    requires Allowed(s.p, e, sz.buffer) && (e.Open? || e.Close? || e.Ack? ==> e.id != id)
    ensures InAgreement(Take(s, Others(e), id, sz), id, sz)
  {
    StepStands(s.ls, s.p, e, sz.buffer);
    OthersKeepListener(s.ls, s.p, e, id, sz.buffer);
    hide Stands, Do, Move, Find;
  }

  lemma {:induction false} ReadAgrees(s: Session, n: nat, id: int, sz: Sizes)
    requires InAgreement(s, id, sz) && s.ls.InBuffer(sz.buffer) && s.h.rdoff < sz.buffer
    requires s.h.acks + n <= s.h.avail
    ensures InAgreement(Take(s, Read(n), id, sz), id, sz)
  {
    hide Stands, Find;
    AdvanceByTracks(s.h, s.t.at, n, sz);
  }

  lemma {:induction false} StepAgrees(s: Session, step: Step, id: int, sz: Sizes)
    requires InAgreement(s, id, sz) && May(s, step, id, sz)
    ensures s.ls.InBuffer(sz.buffer) && s.h.rdoff < sz.buffer
    ensures InAgreement(Take(s, step, id, sz), id, sz)
  {
    StandsInBuffer(s.ls, s.p, sz.buffer);
    hide Stands, Take;
    match step
    case Read(n) => ReadAgrees(s, n, id, sz);
    case Request(want, doAck, timeoutNs, pushes) => RequestAgrees(s, want, doAck, timeoutNs, pushes, id, sz);
    case Others(e) => OthersAgree(s, e, id, sz);
  }

  lemma {:induction false} WaitKeepsIds(ls: Listeners, i: nat, desired: nat, loops: int, pushes: seq<nat>, size: nat)
    requires ls.InBuffer(size) && i < |ls.slots| && loops <= |pushes|
    ensures var ls' := Waited(ls, i, desired, loops, pushes, size).0;
            |ls'.slots| == |ls.slots| && forall k :: 0 <= k < |ls.slots| ==> ls'.slots[k].id == ls.slots[k].id
    decreases |pushes|
  {
    hide Poll;
    if Used(ls.slots[i], size) < desired && loops > 0 {
      PollKeepsIds(ls, pushes[0], size);
      WaitKeepsIds(Poll(ls, pushes[0], size), i, desired, loops - 1, pushes[1..], size);
    }
  }

  lemma {:induction false} RequestKeepsListener(
    ls: Listeners, id: int, ack: nat, want: nat, loops: int, pushes: seq<nat>, size: nat)
    requires ls.InBuffer(size) && loops <= |pushes| && Find(ls.slots, id) < |ls.slots|
    ensures Find(Lstop(ls, id, ack, want, loops, pushes, size).ls.slots, id) == Find(ls.slots, id)
  {
    var i := Find(ls.slots, id);
    var a := Lstop(ls, id, ack, want, loops, pushes, size);
    var acked := Acknowledge(ls, id, ack, size);
    if want > 0 {
      WaitKeepsIds(acked, i, want, loops, pushes, size);
    }
    FindIs(a.ls.slots, id, i);
  }

  ghost predicate Leads(s: Session, run: seq<Step>, s': Session, id: int, sz: Sizes)
    requires InAgreement(s, id, sz)
    decreases |run|
  {
    if |run| == 0 then s' == s
    else
      May(s, run[0], id, sz) &&
      (StepAgrees(s, run[0], id, sz);
       Leads(Take(s, run[0], id, sz), run[1..], s', id, sz))
  }

  /** Over any run of reads, acknowledging waits and timeouts, whatever the driver and other clients do
      in between, the handle and the driver stay in agreement. */
  lemma {:induction false} RunAgrees(s: Session, run: seq<Step>, s': Session, id: int, sz: Sizes)
    requires InAgreement(s, id, sz) && Leads(s, run, s', id, sz)
    ensures InAgreement(s', id, sz)
    decreases |run|
  {
    if |run| > 0 {
      StepAgrees(s, run[0], id, sz);
      hide InAgreement, May, Take;
      RunAgrees(Take(s, run[0], id, sz), run[1..], s', id, sz);
    }
  }

  lemma OpenedAgrees(ls: Listeners, p: Positions, id: int, sz: Sizes)
    requires sz.Valid() && Stands(ls, p, sz.buffer) && id != EMPTY && Find(ls.slots, id) < |ls.slots|
    ensures InAgreement(Session(ls, p, Handle(0, 0, 0, 0), Track(0, 0, false)), id, sz)
  {
    assert SlotStands(ls.slots[Find(ls.slots, id)], p.readers[Find(ls.slots, id)], p, sz.buffer);
    DivModUnique(0, 0, 0, sz.buffer);
    DivModUnique(0, 0, 0, sz.file);
  }
}
