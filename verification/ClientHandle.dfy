/** The handle as the client library updates it, against the driver's listener table. */
module ClientHandle {
  import opened Cyclic
  import opened WriteCounter
  import opened ListenerModel
  import opened ListenerTable
  import opened HandleModel

  lemma PollIs(ls: Listeners, n: nat, size: nat)
    requires ls.InBuffer(size)
    ensures Poll(ls, n, size) == PushAll(PopGlobal(ls, size), n, size)
    ensures |PushAll(PopGlobal(ls, size), n, size).slots| == |ls.slots|
  {
  }

  /** `hpcap_wait_listener_user`; the poll thread pushes pushes[k] bytes during the k-th sleep. */
  method WaitListenerUser(b: BufferListeners, i: nat, desired: nat, timeoutNs: nat, pushes: seq<nat>)
    returns (avail: nat)
    requires b.Valid() && i < b.listeners.Length && Loops(timeoutNs) <= |pushes|
    modifies b`global, b.listeners
    ensures b.Valid()
    ensures (b.View(), avail) == Waited(old(b.View()), i, desired, Loops(timeoutNs), pushes, b.size)
  {
    hide Poll;
    ghost var target := Waited(b.View(), i, desired, Loops(timeoutNs), pushes, b.size);
    var numLoops := Loops(timeoutNs);
    var k := 0;
    avail := Used(b.listeners[i], b.size);
    while avail < desired && numLoops > 0
      invariant b.Valid() && k <= |pushes| && numLoops <= |pushes| - k
      invariant avail == Used(b.listeners[i], b.size)
      invariant target == Waited(b.View(), i, desired, numLoops, pushes[k..], b.size)
      decreases numLoops
    {
      assert pushes[k..][0] == pushes[k] && pushes[k..][1..] == pushes[k + 1..];
      ghost var before := b.View();
      var freed := b.PopGlobalListener();
      b.PushAllListeners(pushes[k]);
      PollIs(before, pushes[k], b.size);
      avail := Used(b.listeners[i], b.size);
      numLoops := numLoops - 1;
      k := k + 1;
    }
  }

  method IoctlLstop(b: BufferListeners, id: int, ackBytes: nat, expectBytes: nat, timeoutNs: nat, pushes: seq<nat>)
    returns (ret: int, available: nat, readOffset: nat)
    requires b.Valid() && Loops(timeoutNs) <= |pushes|
    modifies b`global, b`alreadyPopped, b.listeners
    ensures b.Valid()
    ensures Answer(b.View(), ret, available, readOffset) ==
              Lstop(old(b.View()), id, ackBytes, expectBytes, Loops(timeoutNs), pushes, b.size)
    ensures ret == if exists i :: 0 <= i < b.listeners.Length && old(b.listeners[i].id) == id then 0 else -22
    ensures ret < 0 ==> b.View() == old(b.View()) && available == 0 && readOffset == 0
  {
    ret, available, readOffset := 0, 0, 0;
    var i := b.GetListener(id);
    if i == b.listeners.Length {
      ret := -EINVAL;
      return;
    }
    b.AcknowledgeBytes(id, ackBytes);
    if expectBytes > 0 {
      available := WaitListenerUser(b, i, expectBytes, timeoutNs, pushes);
      readOffset := b.listeners[i].rd;
    }
  }

  class HpcapHandle {
    const sz: Sizes
    var rdoff: nat
    var avail: nat
    var acks: nat
    var fileOffset: nat

    ghost predicate Valid()
      reads this
    {
      sz.Valid() && rdoff < sz.buffer
    }

    ghost function View(): Handle
      reads this
    {
      Handle(rdoff, avail, acks, fileOffset)
    }

    /** `hpcap_open`, and the buffer size that `hpcap_map` asks the driver for. */
    constructor (sizes: Sizes)
      requires sizes.Valid()
      ensures Valid() && sz == sizes && View() == Handle(0, 0, 0, 0)
    {
      sz := sizes;
      rdoff, avail, acks, fileOffset := 0, 0, 0, 0;
    }

    method AdvanceRdoffBy(readBytes: nat)
      requires Valid()
      modifies this`rdoff, this`fileOffset
      ensures Valid() && View() == AdvanceBy(old(View()), readBytes, sz)
    {
      rdoff := (rdoff + readBytes) % sz.buffer;
      fileOffset := (fileOffset + readBytes) % sz.file;
    }

    method AdvanceRdoffTo(newOffset: nat)
      requires Valid()
      modifies this`rdoff, this`fileOffset
      ensures Valid() && View() == AdvanceTo(old(View()), newOffset, sz)
    {
      var readBytes := 0;
      if newOffset > rdoff {
        readBytes := newOffset - rdoff;
      } else if newOffset < rdoff {
        readBytes := sz.buffer - rdoff + newOffset;
      }
      AdvanceRdoffBy(readBytes);
    }

    method DoListenerOp(b: BufferListeners, id: int, expectBytes: nat, doAck: bool, timeoutNs: nat, pushes: seq<nat>)
      returns (r: Result)
      requires Valid() && b.Valid() && b.size == sz.buffer && Loops(timeoutNs) <= |pushes|
      modifies this, b`global, b`alreadyPopped, b.listeners
      ensures Valid() && b.Valid()
      ensures var a := Lstop(old(b.View()), id, AckBytes(old(View()), doAck), expectBytes, Loops(timeoutNs),
              pushes, b.size);
              b.View() == a.ls && (View(), r) == Settle(old(View()), a, expectBytes, doAck, sz)
    {
      var ackBytes := if doAck && acks > 0 then acks else 0;
      var ret, available, readOffset := IoctlLstop(b, id, ackBytes, expectBytes, timeoutNs, pushes);
      if ret < 0 {
        return Err;
      }
      if doAck {
        if avail < acks {
          return Aborted;
        }
        avail := avail - acks;
        acks := 0;
      }
      if expectBytes > 0 && available >= expectBytes {
        avail := available;
        AdvanceRdoffTo(readOffset);
      }
      return Ok;
    }
  }
}
