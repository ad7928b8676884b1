/** The client's handle and the request by which it acknowledges bytes and waits for more. */
module HandleModel {
  import opened Cyclic
  import opened WriteCounter
  import opened ListenerModel

  const SLEEP_QUANT := 200

  /** The fields of `struct hpcap_handle` that reading changes. */
  datatype Handle = Handle(rdoff: nat, avail: nat, acks: nat, fileOffset: nat)

  /** The sizes of the circular buffer and of a RAW file. */
  datatype Sizes = Sizes(buffer: nat, file: nat) {
    predicate Valid() {
      0 < buffer <= TWO_32 && file > 0
    }
  }

  /** `_hpcap_advance_rdoff_by`. */
  function AdvanceBy(h: Handle, n: nat, sz: Sizes): Handle
    requires sz.Valid()
  {
    h.(rdoff := (h.rdoff + n) % sz.buffer, fileOffset := (h.fileOffset + n) % sz.file)
  }

  /** `_hpcap_advance_rdoff_to`. */
  function AdvanceTo(h: Handle, offset: nat, sz: Sizes): Handle
    requires sz.Valid() && h.rdoff < sz.buffer
  {
    if offset > h.rdoff then AdvanceBy(h, offset - h.rdoff, sz)
    else if offset < h.rdoff then AdvanceBy(h, sz.buffer - h.rdoff + offset, sz)
    else AdvanceBy(h, 0, sz)
  }

  /** `num_loops`: an `int`, of an unsigned timeout. */
  function Loops(timeoutNs: nat): int {
    ToInt32(timeoutNs / SLEEP_QUANT)
  }

  /** What the poll thread does to the listeners in one of its iterations: pop, then push n bytes. */
  function Poll(ls: Listeners, n: nat, size: nat): (ls': Listeners)
    requires ls.InBuffer(size)
    ensures ls'.InBuffer(size)
  {
    PushAll(PopGlobal(ls, size), n, size)
  }

  /** What `hpcap_wait_listener_user` leaves and sees; the poll thread pushes pushes[k] bytes during the
      k-th sleep. */
  function Waited(ls: Listeners, i: nat, desired: nat, loops: int, pushes: seq<nat>, size: nat): (w: (Listeners, nat))
    requires ls.InBuffer(size) && i < |ls.slots| && loops <= |pushes|
    ensures w.0.InBuffer(size) && |w.0.slots| == |ls.slots|
    ensures w.1 == Used(w.0.slots[i], size)
    decreases |pushes|
  {
    var avail := Used(ls.slots[i], size);
    if avail >= desired || loops <= 0 then (ls, avail)
    else Waited(Poll(ls, pushes[0], size), i, desired, loops - 1, pushes[1..], size)
  }

  datatype Answer = Answer(ls: Listeners, ret: int, available: nat, readOffset: nat)

  /** The HPCAP_IOC_LSTOP branch of `hpcap_ioctl`. */
  function Lstop(ls: Listeners, id: int, ack: nat, want: nat, loops: int, pushes: seq<nat>, size: nat): (a: Answer)
    requires ls.InBuffer(size) && loops <= |pushes|
    ensures a.ls.InBuffer(size)
  {
    var i := Find(ls.slots, id);
    if i == |ls.slots| then Answer(ls, -EINVAL, 0, 0)
    else
      var acked := Acknowledge(ls, id, ack, size);
      if want == 0 then Answer(acked, 0, 0, 0)
      else
        var w := Waited(acked, i, want, loops, pushes, size);
        Answer(w.0, 0, w.1, w.0.slots[i].rd)
  }

  const EINVAL := 22

  datatype Result = Ok | Err | Aborted

  /** The client's side of `_hpcap_do_listener_op`, given the driver's answer. */
  function Settle(h: Handle, a: Answer, want: nat, doAck: bool, sz: Sizes): (Handle, Result)
    requires sz.Valid() && h.rdoff < sz.buffer
  {
    if a.ret < 0 then (h, Err)
    else if doAck && h.avail < h.acks then (h, Aborted)
    else
      var acked := if doAck then h.(avail := h.avail - h.acks, acks := 0) else h;
      if want > 0 && a.available >= want then (AdvanceTo(acked.(avail := a.available), a.readOffset, sz), Ok)
      else (acked, Ok)
  }

  function AckBytes(h: Handle, doAck: bool): nat {
    if doAck && h.acks > 0 then h.acks else 0
  }
}
