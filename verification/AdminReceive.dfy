/** The admin receive queue: events of the firmware, delivered and their buffers posted again. */
module AdminReceive {
  import opened Cyclic
  import opened AdminSend

  const FLAG_ERR: bv16 := 0x4
  const FLAG_LB: bv16 := 0x200
  const FLAG_BUF: bv16 := 0x1000
  const LARGE_BUF := 512
  const HEAD_MASK := 1024

  /** An event as the firmware writes it: its descriptor, which has the length, and its message. */
  datatype Event = Event(desc: Desc, msg: seq<nat>)

  datatype Received = NoWork | Received(status: Status, desc: Desc, msg: seq<nat>)

  /** A descriptor that offers its slot's buffer to the firmware. */
  function Offer(addr: nat, size: nat, bufSize: nat): Desc {
    EMPTY_DESC.(flags := if bufSize > LARGE_BUF then FLAG_BUF | FLAG_LB else FLAG_BUF,
        datalen := size % 0x1_0000, addr := addr)
  }

  /** Events not yet taken stand in their slots with their messages; every other slot offers its own
      buffer, address and size as at first. */
  ghost predicate InQueue(descs: seq<Desc>, dma: seq<seq<nat>>, offers: seq<Desc>, events: seq<Event>,
      cleaned: nat, n: nat) {
    && |descs| == |dma| == |offers| == n
    && n > 0
    && cleaned <= |events| < cleaned + n
    && (forall j {:trigger At(j, n)} :: cleaned <= j < |events| ==>
          descs[At(j, n)] == events[j].desc && events[j].msg <= dma[At(j, n)])
    && (forall j {:trigger At(j, n)} :: |events| <= j < cleaned + n ==> descs[At(j, n)] == offers[At(j, n)])
  }

  lemma {:induction false} EventInQueue(
    descs: seq<Desc>, dma: seq<seq<nat>>, offers: seq<Desc>, events: seq<Event>, cleaned: nat, n: nat, e: Event,
        data: seq<nat>)
    requires InQueue(descs, dma, offers, events, cleaned, n) && |events| + 1 < cleaned + n && e.msg <= data
    ensures var i := At(|events|, n);
            InQueue(descs[i := e.desc], dma[i := data], offers, events + [e], cleaned, n)
  {
    var h := |events|;
    forall j {:trigger At(j, n)} | cleaned <= j < cleaned + n && j != h ensures At(j, n) != At(h, n) {
      if j < h { SlotsDiffer(j, h, n); } else { SlotsDiffer(h, j, n); }
    }
  }

  lemma {:induction false} TakeInQueue(
    descs: seq<Desc>, dma: seq<seq<nat>>, offers: seq<Desc>, events: seq<Event>, cleaned: nat, n: nat)
    requires InQueue(descs, dma, offers, events, cleaned, n) && cleaned < |events|
    ensures var i := At(cleaned, n);
            && descs[i] == events[cleaned].desc && events[cleaned].msg <= dma[i]
            && InQueue(descs[i := offers[i]], dma, offers, events, cleaned + 1, n)
  {
    AddPeriod(cleaned, n);
    assert At(cleaned + n, n) == At(cleaned, n);
    forall j {:trigger At(j, n)} | cleaned < j < cleaned + n ensures At(j, n) != At(cleaned, n) {
      SlotsDiffer(cleaned, j, n);
    }
  }

  /** `*pending`. */
  function Pending(ntc: nat, ntu: nat, count: nat): int {
    (if ntc > ntu then count else 0) + (ntu - ntc)
  }

  lemma {:induction false} PendingCounts(clean: nat, head: nat, n: nat)
    requires n > 0 && clean <= head < clean + n
    ensures Pending(At(clean, n), At(head, n), n) == head - clean
  {
    DistanceOfPositions(clean, head, n);
  }

  function Least(a: nat, b: nat): (m: nat)
    ensures m <= a && m <= b && (m == a || m == b)
  {
    if a <= b then a else b
  }

  /** What a reader with room for bufLen values gets of an event. */
  function Delivered(e: Event, bufLen: nat): Received
    requires e.desc.datalen == |e.msg|
  {
    Received(if e.desc.flags & FLAG_ERR != 0 then QueueError else Success, e.desc, e.msg[..Least(|e.msg|, bufLen)])
  }

  /** A slot's offer: its own address and, as far as 16 bits hold it, size; the flag of a buffer, and that of a
      large one above 512 bytes, and no other. */
  lemma OfferMeans(addr: nat, size: nat, bufSize: nat)
    ensures var d := Offer(addr, size, bufSize);
            && d.addr == addr && (size < 0x1_0000 ==> d.datalen == size)
            && d.flags == (if bufSize <= 512 then 0x1000 else 0x1200)
            && d.opcode == 0 && d.cookie == 0 && d.retval == 0
  {
  }

  /** The reader gets the firmware's descriptor, the message as far as there is room, and an error exactly if
      bit 2 of the flags is set. */
  lemma DeliveredMeans(e: Event, bufLen: nat)
    requires e.desc.datalen == |e.msg|
    ensures var got := Delivered(e, bufLen);
            && got.Received? && got.desc == e.desc
            && got.status == (if e.desc.flags & 0x4 == 0 then Success else QueueError)
            && (|e.msg| <= bufLen ==> got.msg == e.msg)
            && (bufLen <= |e.msg| ==> |got.msg| == bufLen && got.msg <= e.msg)
  {
  }

  class AdminReceiveQueue {
    const count: nat
    const ring: array<Desc>
    const dma: array<seq<nat>>
    const buffers: seq<(nat, nat)>
    const bufSize: nat
    ghost const offers: seq<Desc>
    var nextToClean: nat
    var nextToUse: nat
    var head: nat
    var tail: nat
    ghost var events: seq<Event>
    ghost var cleaned: nat

    /** The tail stays one slot behind the next one to clean. */
    ghost predicate Valid()
      reads this, ring, dma
    {
      && ring.Length == dma.Length == |offers| == |buffers| == count
      && (forall i :: 0 <= i < count ==> offers[i] == Offer(buffers[i].0, buffers[i].1, bufSize))
      && 0 < count <= HEAD_MASK
      && InQueue(ring[..], dma[..], offers, events, cleaned, count)
      && (forall j :: 0 <= j < |events| ==> events[j].desc.datalen == |events[j].msg|)
      && nextToClean == At(cleaned, count)
      && head == At(|events|, count)
      && tail == At(cleaned + count - 1, count)
    }

    /** The queue after `i40e_alloc_arq_bufs` and `i40e_config_arq_regs`. */
    constructor (buffers: seq<(nat, nat)>, bufSize: nat)
      requires 0 < |buffers| <= HEAD_MASK
      ensures Valid() && this.buffers == buffers && this.bufSize == bufSize
      ensures events == [] && cleaned == 0 && fresh(ring) && fresh(dma)
    {
      count, this.buffers, this.bufSize := |buffers|, buffers, bufSize;
      var posted := seq(|buffers|, (i: nat) requires i < |buffers| => Offer(buffers[i].0, buffers[i].1, bufSize));
      offers := posted;
      ring := new Desc[|buffers|](i requires 0 <= i < |posted| => posted[i]);
      dma := new seq<nat>[|buffers|](i => []);
      nextToClean, nextToUse, head, tail := 0, 0, 0, |buffers| - 1;
      events, cleaned := [], 0;
      new;
      DivModUnique(0, 0, 0, count);
      DivModUnique(count - 1, 0, count - 1, count);
    }

    /** The firmware writes an event, if its head has not reached the tail. */
    method Firmware(e: Event, data: seq<nat>)
      requires Valid() && e.desc.datalen == |e.msg| && e.msg <= data
      modifies ring, dma, this`head, this`events
      ensures Valid()
      ensures events == if |old(events)| + 1 < cleaned + count then old(events) + [e] else old(events)
    {
      SameSlot(|events|, cleaned + count - 1, count);
      if head != tail {
        EventInQueue(ring[..], dma[..], offers, events, cleaned, count, e, data);
        FollowingSlot(|events|, count);
        ring[head] := e.desc;
        dma[head] := data;
        head := Following(head, count);
        events := events + [e];
      }
    }

    /** Take the event at `next_to_clean`, offer its buffer again and move the tail there. */
    method TakeEvent(bufLen: nat) returns (got: Received)
      requires Valid() && cleaned < |events|
      modifies ring, this`tail, this`nextToClean, this`cleaned
      ensures Valid() && cleaned == old(cleaned) + 1
      ensures got == Delivered(events[old(cleaned)], bufLen)
    {
      TakeInQueue(ring[..], dma[..], offers, events, cleaned, count);
      FollowingSlot(cleaned, count);
      AddPeriod(cleaned, count);
      var desc := ring[nextToClean];
      ghost var e := events[cleaned];
      var msgLen := Least(desc.datalen, bufLen);
      var status := if desc.flags & FLAG_ERR != 0 then QueueError else Success;
      assert dma[nextToClean][..msgLen] == e.msg[..msgLen];
      got := Received(status, desc, dma[nextToClean][..msgLen]);
      ring[nextToClean] := Offer(buffers[nextToClean].0, buffers[nextToClean].1, bufSize);
      tail := nextToClean;
      nextToClean := Following(nextToClean, count);
      cleaned := cleaned + 1;
    }

    /** `i40e_clean_arq_element`: the next event in the firmware's order, and how many are left. */
    method CleanArqElement(bufLen: nat) returns (got: Received, pending: int)
      requires Valid()
      modifies ring, this`tail, this`nextToClean, this`nextToUse, this`cleaned
      ensures Valid()
      ensures got.NoWork? <==> old(cleaned) == |events|
      ensures if got.NoWork? then cleaned == old(cleaned)
              else cleaned == old(cleaned) + 1 && got == Delivered(events[old(cleaned)], bufLen)
      ensures pending == |events| - cleaned
      ensures nextToUse == if got.NoWork? then old(nextToUse) else head
    {
      SameSlot(cleaned, |events|, count);
      DivModUnique(head, 0, head, HEAD_MASK);
      var ntu := head % HEAD_MASK;
      got := NoWork;
      if ntu != nextToClean {
        got := TakeEvent(bufLen);
        nextToUse := ntu;
      }
      PendingCounts(cleaned, |events|, count);
      pending := Pending(nextToClean, ntu, count);
    }
  }
}
