/** Runs of the listener table against unbounded stream positions.

    Clients open, close and acknowledge, and the first poll thread pushes, pops and resets, in any
    order.  `Stands` says that the wrapped offsets of a table stand for the given positions. */
module ListenerRuns {
  import opened Cyclic
  import opened WriteCounter
  import opened ListenerModel

  /** Bytes counted since the last reset: the global offsets, the read position of each slot, and whether a
      client has acknowledged any. */
  datatype Positions = Positions(rd: nat, wr: nat, readers: seq<nat>, read: bool)

  datatype Event = Open(id: int) | Close(id: int) | Ack(id: int, n: nat) | PopAll | Push(n: nat) | Idle

  function Active(slots: seq<Listener>): nat {
    if |slots| == 0 then 0
    else Active(slots[..|slots| - 1]) + if slots[|slots| - 1].id == EMPTY then 0 else 1
  }

  ghost predicate SlotStands(l: Listener, r: nat, p: Positions, size: nat)
    requires size > 0
  {
    && l.InBuffer(size)
    && (l.id != EMPTY ==>
          && p.rd <= r <= p.wr
          && l.rd == r % size
          && l.wr == p.wr % size
          && (!p.read ==> r == 0))
  }

  ghost predicate Stands(ls: Listeners, p: Positions, size: nat) {
    && 0 < size <= TWO_32
    && p.rd <= p.wr < p.rd + size
    && ls.global.rd == p.rd % size
    && ls.global.wr == p.wr % size
    && |ls.slots| == |p.readers|
    && (forall i :: 0 <= i < |ls.slots| ==> SlotStands(ls.slots[i], p.readers[i], p, size))
    && ls.count == Active(ls.slots)
    && ls.popped == p.read
    && (!p.read ==> p.rd == 0)
  }

  // ----- What the driver's code does for each event, and what it means -----

  function Do(ls: Listeners, e: Event, size: nat): (ls': Listeners)
    requires ls.InBuffer(size)
  {
    match e
    case Open(id) => Add(ls, id)
    case Close(id) => Delete(ls, id)
    case Ack(id, n) => Acknowledge(ls, id, n, size)
    case PopAll => PopGlobal(ls, size)
    case Push(n) => PushAll(ls, n, size)
    case Idle => if ls.count <= 0 then ResetOffsets(ls) else ls
  }

  /** A push stays in the buffer (the receive loops see to it); handles are never 0. */
  predicate Allowed(p: Positions, e: Event, size: nat) {
    match e
    case Push(n) => p.wr + n < p.rd + size
    case Open(id) => id != EMPTY
    case Close(id) => id != EMPTY
    case Ack(id, _) => id != EMPTY
    case _ => true
  }

  /** The read position furthest behind, of the readers that are less than 2^31 bytes ahead. */
  function Slowest(slots: seq<Listener>, readers: seq<nat>, from: nat): (s: nat)
    requires |slots| == |readers|
    ensures s <= from + TWO_31
    ensures forall i :: 0 <= i < |slots| && slots[i].id != EMPTY ==> s <= readers[i]
    ensures s < from + TWO_31 ==> exists i :: 0 <= i < |slots| && slots[i].id != EMPTY && s == readers[i]
  {
    if |slots| == 0 then from + TWO_31
    else
      var n := |slots| - 1;
      var rest := Slowest(slots[..n], readers[..n], from);
      assert forall i :: 0 <= i < n ==> slots[..n][i] == slots[i] && readers[..n][i] == readers[i];
      if slots[n].id != EMPTY && readers[n] < rest then readers[n] else rest
  }

  predicate NoClients(slots: seq<Listener>) {
    forall i :: 0 <= i < |slots| ==> slots[i].id == EMPTY
  }

  function Move(ls: Listeners, p: Positions, e: Event): Positions
    requires |ls.slots| == |p.readers|
  {
    match e
    case Open(id) =>
      var i := SlotFor(ls.slots, id);
      if i < |ls.slots| && ls.slots[i].id != id
      then p.(readers := p.readers[i := if NoClients(ls.slots) || !p.read then p.rd else p.wr]) else p
    case Close(_) => p
    case Ack(id, n) =>
      var i := Find(ls.slots, id);
      if i == |ls.slots| then p
      else p.(readers := p.readers[i := if p.readers[i] + n <= p.wr then p.readers[i] + n else p.wr],
              read := p.read || n > 0)
    case PopAll =>
      var s := Slowest(ls.slots, p.readers, p.rd);
      if s < p.rd + TWO_31 then p.(rd := s) else p
    case Push(n) => p.(wr := p.wr + n)
    case Idle => if NoClients(ls.slots) then p.(rd := 0, wr := 0, read := false) else p
  }

  // ----- Offsets of one listener -----

  lemma StandsInBuffer(ls: Listeners, p: Positions, size: nat)
    requires Stands(ls, p, size)
    ensures ls.InBuffer(size) && |ls.slots| == |p.readers|
  {
  }

  lemma OffsetsWrap(r: nat, n: nat, size: nat)
    requires 0 < size <= TWO_32 && n <= size
    ensures ToSizeT(r % size + n) % size == (r + n) % size
  {
    DivModUnique(r % size + n, 0, r % size + n, TWO_64);
    AddWrapped(r, n, size);
  }

  lemma {:induction false} PushStands(l: Listener, r: nat, wr: nat, n: nat, size: nat)
    requires 0 < size <= TWO_32 && r <= wr && wr + n < r + size
    requires l.InBuffer(size) && l.rd == r % size && l.wr == wr % size
    ensures PushOne(l, n, size) == l.(wr := (wr + n) % size)
  {
    DistanceOfPositions(r, wr, size);
    OffsetsWrap(wr, n, size);
  }

  /** A push that does not fit leaves the write offset two bytes short of a lap, wherever it was: back by one if
      the buffer was full.  For that the size has to divide 2^64. */
  lemma {:induction false} PushClamps(l: Listener, r: nat, wr: nat, n: nat, size: nat)
    requires 0 < size <= TWO_32 && r <= wr < r + size <= wr + n
    requires l.InBuffer(size) && l.rd == r % size && l.wr == wr % size
    requires TWO_64 % size == 0 || wr + 1 < r + size
    ensures PushOne(l, n, size) == l.(wr := (r + size - 2) % size)
  {
    DistanceOfPositions(r, wr, size);
    var room := r + size - 1 - wr;
    if room > 0 {
      DivModUnique(room - 1, 0, room - 1, TWO_64);
      OffsetsWrap(wr, room - 1, size);
    } else {
      DivModUnique(-1, -1, TWO_64 - 1, TWO_64);
      var w := wr % size;
      if w > 0 {
        DivModUnique(w + TWO_64 - 1, 1, w - 1, TWO_64);
        DivModUnique(w - 1, 0, w - 1, size);
        AddWrapped(wr, -1, size);
      } else {
        DivModUnique(TWO_64 - 1, 0, TWO_64 - 1, TWO_64);
        AddWrapped(TWO_64, -1, size);
        AddWrapped(wr, -1, size);
      }
    }
  }

  lemma {:induction false} PopStands(l: Listener, r: nat, wr: nat, n: nat, size: nat)
    requires 0 < size <= TWO_32 && r <= wr < r + size
    requires l.InBuffer(size) && l.rd == r % size && l.wr == wr % size
    ensures PopOne(l, n, size) == l.(rd := (if r + n <= wr then r + n else wr) % size)
  {
    DistanceOfPositions(r, wr, size);
    if r + n <= wr {
      OffsetsWrap(r, n, size);
    } else {
      OffsetsWrap(r, wr - r, size);
    }
  }

  lemma {:induction false} DistanceMeasured(r: nat, from: nat, size: nat)
    requires 0 < size <= TWO_32 && from <= r < from + size
    ensures from % size <= size
    ensures r - from < TWO_31 ==> DistanceAsInt(from % size, r % size, size) == r - from
    ensures r - from >= TWO_31 ==> DistanceAsInt(from % size, r % size, size) > size + 1
  {
    DistanceOfPositions(from, r, size);
    var d := r - from;
    DivModUnique(d, 0, d, TWO_32);
    if d < TWO_31 {
      DivModUnique(d, 0, d, TWO_64);
    } else {
      DivModUnique(d - TWO_32, -1, d - TWO_32 + TWO_64, TWO_64);
    }
  }

  /** The scan over the slots finds how far the slowest reader is ahead of the global offset. */
  lemma {:induction false} MinDistanceMeasured(slots: seq<Listener>, readers: seq<nat>, from: nat, size: nat)
    requires 0 < size <= TWO_32 && |slots| == |readers|
    requires forall i :: 0 <= i < |slots| && slots[i].id != EMPTY ==>
               from <= readers[i] < from + size && slots[i].rd == readers[i] % size
    ensures from % size <= size
    ensures var s := Slowest(slots, readers, from);
            s >= from &&
            MinDistance(slots, from % size, size) == if s < from + TWO_31 then s - from else size + 1
  {
    if |slots| > 0 {
      var n := |slots| - 1;
      assert forall i :: 0 <= i < n ==> slots[..n][i] == slots[i] && readers[..n][i] == readers[i];
      MinDistanceMeasured(slots[..n], readers[..n], from, size);
      if slots[n].id != EMPTY {
        DistanceMeasured(readers[n], from, size);
      }
    }
  }

  // ----- Every step -----

  lemma ActiveUpdate(slots: seq<Listener>, i: nat, l: Listener)
    requires i < |slots|
    ensures Active(slots[i := l]) ==
              Active(slots) + (if l.id == EMPTY then 0 else 1) - (if slots[i].id == EMPTY then 0 else 1)
  {
    var n := |slots| - 1;
    if i == n {
      assert slots[i := l][..n] == slots[..n];
    } else {
      assert slots[i := l][..n] == slots[..n][i := l];
      ActiveUpdate(slots[..n], i, l);
    }
  }

  lemma ActiveSame(slots: seq<Listener>, others: seq<Listener>)
    requires |slots| == |others| && forall i :: 0 <= i < |slots| ==> slots[i].id == others[i].id
    ensures Active(slots) == Active(others)
  {
    if |slots| > 0 {
      ActiveSame(slots[..|slots| - 1], others[..|slots| - 1]);
    }
  }

  lemma NoneActive(slots: seq<Listener>, i: nat)
    requires Active(slots) == 0 && i < |slots|
    ensures slots[i].id == EMPTY
  {
    if i < |slots| - 1 {
      NoneActive(slots[..|slots| - 1], i);
    }
  }

  lemma NoneCounted(slots: seq<Listener>)
    ensures Active(slots) == 0 <==> NoClients(slots)
  {
    if |slots| > 0 {
      NoneCounted(slots[..|slots| - 1]);
    }
  }

  lemma CountMeans(ls: Listeners, p: Positions, size: nat)
    requires Stands(ls, p, size)
    ensures ls.count <= 0 <==> NoClients(ls.slots)
  {
    hide Active, SlotStands, NoClients;
    NoneCounted(ls.slots);
  }

  lemma {:induction false} OpenStands(ls: Listeners, p: Positions, id: int, size: nat)
    requires Stands(ls, p, size) && id != EMPTY
    ensures Stands(Add(ls, id), Move(ls, p, Open(id)), size)
  {
    var i := SlotFor(ls.slots, id);
    NoneCounted(ls.slots);
    if i < |ls.slots| && ls.slots[i].id != id {
      var rd := if ls.count == 0 || !ls.popped then ls.global.rd else ls.global.wr;
      ActiveUpdate(ls.slots, i, Listener(id, ls.global.wr, rd));
    }
  }

  lemma {:induction false} CloseStands(ls: Listeners, p: Positions, id: int, size: nat)
    requires Stands(ls, p, size) && id != EMPTY
    ensures Stands(Delete(ls, id), p, size)
  {
    var i := Find(ls.slots, id);
    if i < |ls.slots| {
      ActiveUpdate(ls.slots, i, RESET);
    }
  }

  lemma {:induction false} AckStands(ls: Listeners, p: Positions, id: int, n: nat, size: nat)
    requires Stands(ls, p, size) && id != EMPTY
    requires ls.InBuffer(size)
    ensures Stands(Acknowledge(ls, id, n, size), Move(ls, p, Ack(id, n)), size)
  {
    hide PopOne, Find, Active;
    var i := Find(ls.slots, id);
    if i < |ls.slots| {
      var l := ls.slots[i];
      assert SlotStands(l, p.readers[i], p, size);
      PopStands(l, p.readers[i], p.wr, n, size);
      ActiveUpdate(ls.slots, i, PopOne(l, n, size));
    }
  }

  lemma {:induction false} PushAllStands(ls: Listeners, p: Positions, n: nat, size: nat)
    requires Stands(ls, p, size) && p.wr + n < p.rd + size
    requires ls.InBuffer(size)
    ensures Stands(PushAll(ls, n, size), Move(ls, p, Push(n)), size)
  {
    var ls' := PushAll(ls, n, size);
    PushStands(ls.global, p.rd, p.wr, n, size);
    forall i | 0 <= i < |ls.slots|
      ensures SlotStands(ls'.slots[i], p.readers[i], p.(wr := p.wr + n), size)
      ensures ls'.slots[i].id == ls.slots[i].id
    {
      assert SlotStands(ls.slots[i], p.readers[i], p, size);
      if ls.slots[i].id != EMPTY {
        PushStands(ls.slots[i], p.readers[i], p.wr, n, size);
      }
    }
    ActiveSame(ls'.slots, ls.slots);
  }

  lemma {:induction false} PopAllStands(ls: Listeners, p: Positions, size: nat)
    requires Stands(ls, p, size)
    requires ls.InBuffer(size)
    ensures Stands(PopGlobal(ls, size), Move(ls, p, PopAll), size)
  {
    hide Slowest, MinDistance, Active;
    forall i | 0 <= i < |ls.slots| && ls.slots[i].id != EMPTY
      ensures p.rd <= p.readers[i] <= p.wr && ls.slots[i].rd == p.readers[i] % size
    {
      assert SlotStands(ls.slots[i], p.readers[i], p, size);
    }
    MinDistanceMeasured(ls.slots, p.readers, p.rd, size);
    var s := Slowest(ls.slots, p.readers, p.rd);
    if s < p.rd + TWO_31 {
      OffsetsWrap(p.rd, s - p.rd, size);
      forall i | 0 <= i < |ls.slots|
        ensures SlotStands(ls.slots[i], p.readers[i], p.(rd := s), size)
      {
        assert SlotStands(ls.slots[i], p.readers[i], p, size);
      }
      if !p.read {
        var i :| 0 <= i < |ls.slots| && ls.slots[i].id != EMPTY && s == p.readers[i];
        assert SlotStands(ls.slots[i], p.readers[i], p, size);
      }
    }
  }

  lemma {:induction false} IdleStands(ls: Listeners, p: Positions, size: nat)
    requires Stands(ls, p, size) && ls.count <= 0
    ensures Stands(ResetOffsets(ls), p.(rd := 0, wr := 0, read := false), size)
  {
    var ls' := ResetOffsets(ls);
    forall i | 0 <= i < |ls.slots|
      ensures SlotStands(ls'.slots[i], p.readers[i], p.(rd := 0, wr := 0, read := false), size)
    {
      assert SlotStands(ls.slots[i], p.readers[i], p, size);
      NoneActive(ls.slots, i);
    }
  }

  /** Whatever happens next, the offsets go on standing for the positions: the read offsets keep
      between the global one and the write offset, every listener shares the write offset, and no
      error branch of push or pop changes a result. */
  lemma {:induction false} StepStands(ls: Listeners, p: Positions, e: Event, size: nat)
    requires Stands(ls, p, size) && Allowed(p, e, size)
    ensures ls.InBuffer(size) && Stands(Do(ls, e, size), Move(ls, p, e), size)
  {
    StandsInBuffer(ls, p, size);
    match e
    case Open(id) => OpenStands(ls, p, id, size);
    case Close(id) => CloseStands(ls, p, id, size);
    case Ack(id, n) => AckStands(ls, p, id, n, size);
    case PopAll => PopAllStands(ls, p, size);
    case Push(n) => PushAllStands(ls, p, n, size);
    case Idle =>
      NoneCounted(ls.slots);
      if ls.count <= 0 { IdleStands(ls, p, size); }
  }

  ghost predicate RunAllowed(ls: Listeners, p: Positions, run: seq<Event>, size: nat)
    requires Stands(ls, p, size)
    decreases |run|
  {
    |run| == 0 ||
    (Allowed(p, run[0], size) &&
     (StepStands(ls, p, run[0], size);
      RunAllowed(Do(ls, run[0], size), Move(ls, p, run[0]), run[1..], size)))
  }

  function DoAll(ls: Listeners, run: seq<Event>, size: nat): Listeners
    decreases |run|
  {
    if |run| == 0 || !ls.InBuffer(size) then ls else DoAll(Do(ls, run[0], size), run[1..], size)
  }

  function MoveAll(ls: Listeners, p: Positions, run: seq<Event>, size: nat): Positions
    decreases |run|
  {
    if |run| == 0 || !ls.InBuffer(size) || |ls.slots| != |p.readers| then p
    else MoveAll(Do(ls, run[0], size), Move(ls, p, run[0]), run[1..], size)
  }

  lemma {:induction false} RunStands(ls: Listeners, p: Positions, run: seq<Event>, size: nat)
    requires Stands(ls, p, size) && RunAllowed(ls, p, run, size)
    ensures Stands(DoAll(ls, run, size), MoveAll(ls, p, run, size), size)
    decreases |run|
  {
    if |run| > 0 {
      StepStands(ls, p, run[0], size);
      RunStands(Do(ls, run[0], size), Move(ls, p, run[0]), run[1..], size);
    }
  }

  lemma InitialStands(slots: nat, size: nat)
    requires 0 < size <= TWO_32
    ensures Stands(Listeners(seq(slots, (i: nat) => RESET), RESET, 0, false),
                   Positions(0, 0, seq(slots, (i: nat) => 0), false), size)
  {
    NoneIn(slots);
  }

  lemma NoneIn(slots: nat)
    ensures Active(seq(slots, (i: nat) => RESET)) == 0
  {
    if slots > 0 {
      assert seq(slots, (i: nat) => RESET)[..slots - 1] == seq(slots - 1, (i: nat) => RESET);
      NoneIn(slots - 1);
    }
  }

  // ----- What the pop and the open mean for readers -----

  /** The global read offset never passes a reader.  It comes to stand at a reader with the most
      unread bytes, so it frees exactly what all of them have read; a lead of 2^31 bytes or more,
      possible only in a larger buffer, does not fit the code's `int` and nothing is freed. */
  lemma {:induction false} PopFreesWhatAllHaveRead(ls: Listeners, p: Positions, size: nat, i: nat)
    requires Stands(ls, p, size) && ls.InBuffer(size)
    requires i < |ls.slots| && ls.slots[i].id != EMPTY
    requires forall k :: 0 <= k < |ls.slots| && ls.slots[k].id != EMPTY ==> p.readers[i] <= p.readers[k]
    ensures PopGlobal(ls, size).global.rd ==
              if p.readers[i] - p.rd < TWO_31 then ls.slots[i].rd else ls.global.rd
    ensures forall k :: 0 <= k < |ls.slots| && ls.slots[k].id != EMPTY ==>
              Used(ls.slots[k], size) <= Used(ls.slots[i], size)
    ensures size <= TWO_31 ==> PopGlobal(ls, size).global.rd == ls.slots[i].rd
  {
    PopAllStands(ls, p, size);
    assert SlotStands(ls.slots[i], p.readers[i], p, size);
    DistanceOfPositions(p.readers[i], p.wr, size);
    forall k | 0 <= k < |ls.slots| && ls.slots[k].id != EMPTY
      ensures Used(ls.slots[k], size) <= Used(ls.slots[i], size)
    {
      assert SlotStands(ls.slots[k], p.readers[k], p, size);
      DistanceOfPositions(p.readers[k], p.wr, size);
    }
  }

  /** Where a new client starts: at the start of the stream until the first acknowledgement since the reset,
      whoever has come and gone in between; after that at the last byte pushed, but at the stale global read
      position when the last client has gone and the poll thread has not reset the offsets yet. */
  lemma {:induction false} OpenStartsAt(ls: Listeners, p: Positions, id: int, size: nat)
    requires Stands(ls, p, size) && id != EMPTY
    requires forall i :: 0 <= i < |ls.slots| ==> ls.slots[i].id != id
    ensures var i := SlotFor(ls.slots, id);
            i < |ls.slots| ==>
              && Add(ls, id).slots[i] == Listener(id, p.wr % size, Move(ls, p, Open(id)).readers[i] % size)
              && Move(ls, p, Open(id)).readers[i] ==
                   if !p.read then 0 else if NoClients(ls.slots) then p.rd else p.wr
  {
    OpenStands(ls, p, id, size);
  }

  /** An open takes the first slot that is free, with one more client counted; all other slots stay. */
  lemma {:induction false} OpenTakesFirstFree(ls: Listeners, id: int, i: nat)
    requires id != EMPTY && i < |ls.slots| && ls.slots[i].id == EMPTY
    requires forall k :: 0 <= k < |ls.slots| ==> ls.slots[k].id != id
    requires forall k :: 0 <= k < i ==> ls.slots[k].id != EMPTY
    ensures var after := Add(ls, id);
            && |after.slots| == |ls.slots| && after.slots[i].id == id && after.count == ls.count + 1
            && after.global == ls.global && after.popped == ls.popped
            && forall k :: 0 <= k < |ls.slots| && k != i ==> after.slots[k] == ls.slots[k]
  {
    assert SlotFor(ls.slots, id) == i;
  }

  /** A close empties the slot of the client and leaves the others alone; for a client that is not there it
      changes nothing. */
  lemma {:induction false} CloseUnregisters(ls: Listeners, id: int)
    requires id != EMPTY
    requires forall j, k :: 0 <= j < k < |ls.slots| ==> ls.slots[j].id == id ==> ls.slots[k].id != id
    ensures var after := Delete(ls, id);
            && |after.slots| == |ls.slots| && after.global == ls.global && after.popped == ls.popped
            && (forall k :: 0 <= k < |ls.slots| ==>
                  after.slots[k] == if ls.slots[k].id == id then Listener(EMPTY, 0, 0) else ls.slots[k])
            && after.count == ls.count - (if exists k :: 0 <= k < |ls.slots| && ls.slots[k].id == id then 1 else 0)
  {
    var i := Find(ls.slots, id);
    if i < |ls.slots| {
      assert ls.slots[i].id == id;
    }
  }

  /** Opening and closing again gives the table back, where its free slots are reset ones. */
  lemma {:induction false} CloseUndoesOpen(ls: Listeners, id: int)
    requires id != EMPTY && forall k :: 0 <= k < |ls.slots| ==> ls.slots[k].id != id
    requires forall k :: 0 <= k < |ls.slots| && ls.slots[k].id == EMPTY ==> ls.slots[k] == RESET
    requires exists k :: 0 <= k < |ls.slots| && ls.slots[k].id == EMPTY
    ensures Delete(Add(ls, id), id) == ls
  {
    var i := SlotFor(ls.slots, id);
    assert i < |ls.slots|;
    OpenTakesFirstFree(ls, id, i);
    CloseUnregisters(Add(ls, id), id);
    assert Add(ls, id).slots[i].id == id;
    assert Delete(Add(ls, id), id).slots == ls.slots;
  }
}
