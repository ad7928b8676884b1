/** The readers of a buffer: one global pair of offsets and one pair for every client.

    The functions follow the C text, with its error branches and integer widths. */
module ListenerModel {
  import opened Cyclic
  import opened WriteCounter

  const EMPTY := 0
  const EUSERS := 87
  const EIDRM := 43

  /** `struct hpcap_listener` without the buffer size, which all of them share. */
  datatype Listener = Listener(id: int, wr: nat, rd: nat) {
    predicate InBuffer(size: nat) {
      wr < size && rd < size
    }
  }

  const RESET := Listener(EMPTY, 0, 0)

  /** `struct hpcap_buffer_listeners`. */
  datatype Listeners = Listeners(slots: seq<Listener>, global: Listener, count: int, popped: bool) {
    predicate InBuffer(size: nat) {
      && global.InBuffer(size)
      && forall i :: 0 <= i < |slots| ==> slots[i].InBuffer(size)
    }
  }

  function Used(l: Listener, size: nat): (u: nat)
    requires l.InBuffer(size)
    ensures u < size
  {
    Distance(l.rd, l.wr, size)
  }

  function Avail(l: Listener, size: nat): nat
    requires l.InBuffer(size)
  {
    size - Used(l, size) - 1
  }

  /** `hpcap_push_listener` on one listener. */
  function PushOne(l: Listener, n: nat, size: nat): (l': Listener)
    requires l.InBuffer(size)
    ensures l'.InBuffer(size)
  {
    var count := if Avail(l, size) < n then ToSizeT(Avail(l, size) - 1) else n;
    l.(wr := ToSizeT(l.wr + count) % size)
  }

  function PushSlots(slots: seq<Listener>, n: nat, size: nat): (out: seq<Listener>)
    requires forall i :: 0 <= i < |slots| ==> slots[i].InBuffer(size)
    ensures |out| == |slots| && forall i :: 0 <= i < |slots| ==>
              out[i] == if slots[i].id == EMPTY then slots[i] else PushOne(slots[i], n, size)
  {
    seq(|slots|, (i: nat) requires i < |slots| =>
      if slots[i].id == EMPTY then slots[i] else PushOne(slots[i], n, size))
  }

  /** `hpcap_push_all_listeners`. */
  function PushAll(ls: Listeners, n: nat, size: nat): (ls': Listeners)
    requires ls.InBuffer(size)
    ensures ls'.InBuffer(size)
  {
    ls.(global := if n > 0 then PushOne(ls.global, n, size) else ls.global,
        slots := PushSlots(ls.slots, n, size))
  }

  /** `hpcap_pop_listener`. */
  function PopOne(l: Listener, n: nat, size: nat): (l': Listener)
    requires l.InBuffer(size)
    ensures l'.InBuffer(size)
  {
    var count := if Used(l, size) < n then Used(l, size) else n;
    l.(rd := ToSizeT(l.rd + count) % size)
  }

  /** The `int` the global pop keeps each distance in, as it is compared with a 64-bit minimum. */
  function DistanceAsInt(from: nat, to: nat, size: nat): nat
    requires from <= size
  {
    ToSizeT(ToInt32(Distance(from, to, size)))
  }

  function MinDistance(slots: seq<Listener>, from: nat, size: nat): nat
    requires from <= size
  {
    if |slots| == 0 then size + 1
    else
      var rest := MinDistance(slots[..|slots| - 1], from, size);
      var l := slots[|slots| - 1];
      if l.id != EMPTY && DistanceAsInt(from, l.rd, size) < rest then DistanceAsInt(from, l.rd, size) else rest
  }

  /** `hpcap_pop_global_listener`. */
  function PopGlobal(ls: Listeners, size: nat): (ls': Listeners)
    requires ls.InBuffer(size)
    ensures ls'.InBuffer(size)
  {
    var d := MinDistance(ls.slots, ls.global.rd, size);
    if 0 < d <= size then ls.(global := ls.global.(rd := ToSizeT(ls.global.rd + d) % size)) else ls
  }

  /** The first slot that has the id or is free. */
  function SlotFor(slots: seq<Listener>, id: int): (i: nat)
    ensures i <= |slots|
    ensures i < |slots| ==> slots[i].id == id || slots[i].id == EMPTY
    ensures forall k :: 0 <= k < i ==> slots[k].id != id && slots[k].id != EMPTY
  {
    if |slots| == 0 || slots[0].id == id || slots[0].id == EMPTY then 0
    else 1 + SlotFor(slots[1..], id)
  }

  /** `hpcap_get_listener`. */
  function Find(slots: seq<Listener>, id: int): (i: nat)
    ensures i <= |slots|
    ensures i < |slots| ==> slots[i].id == id
    ensures forall k :: 0 <= k < i ==> slots[k].id != id
  {
    if |slots| == 0 || slots[0].id == id then 0 else 1 + Find(slots[1..], id)
  }

  /** `hpcap_add_listener`. */
  function Add(ls: Listeners, id: int): Listeners {
    var i := SlotFor(ls.slots, id);
    if i < |ls.slots| && ls.slots[i].id != id then
      var rd := if ls.count == 0 || !ls.popped then ls.global.rd else ls.global.wr;
      ls.(slots := ls.slots[i := Listener(id, ls.global.wr, rd)], count := ls.count + 1)
    else ls
  }

  /** `hpcap_del_listener`. */
  function Delete(ls: Listeners, id: int): Listeners {
    var i := Find(ls.slots, id);
    if i < |ls.slots| then ls.(slots := ls.slots[i := RESET], count := ls.count - 1) else ls
  }

  /** The acknowledgement of the HPCAP_IOC_LSTOP request. */
  function Acknowledge(ls: Listeners, id: int, n: nat, size: nat): (ls': Listeners)
    requires ls.InBuffer(size)
    ensures ls'.InBuffer(size)
  {
    var i := Find(ls.slots, id);
    if i < |ls.slots| && n > 0 then ls.(slots := ls.slots[i := PopOne(ls.slots[i], n, size)], popped := true) else ls
  }

  /** `hpcap_global_listener_reset_offset`. */
  function ResetOffsets(ls: Listeners): Listeners {
    ls.(global := ls.global.(wr := 0, rd := 0), popped := false)
  }
}
