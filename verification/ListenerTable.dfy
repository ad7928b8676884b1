/** The listener table as the driver updates it in place. */
module ListenerTable {
  import opened Cyclic
  import opened WriteCounter
  import opened ListenerModel

  class BufferListeners {
    const size: nat
    const listeners: array<Listener>
    var global: Listener
    var listenersCount: int
    var alreadyPopped: bool

    ghost predicate Valid()
      reads this, listeners
    {
      View().InBuffer(size)
    }

    ghost function View(): Listeners
      reads this, listeners
    {
      Listeners(listeners[..], global, listenersCount, alreadyPopped)
    }

    /** `hpcap_init_listeners`. */
    constructor (bufsize: nat, maxListeners: nat)
      requires bufsize > 0
      ensures Valid() && size == bufsize && fresh(listeners)
      ensures View() == Listeners(seq(maxListeners, (i: nat) => RESET), RESET, 0, false)
    {
      size := bufsize;
      listeners := new Listener[maxListeners](i => RESET);
      global, listenersCount, alreadyPopped := RESET, 0, false;
    }

    method PushListener(l: Listener, n: nat) returns (l': Listener)
      requires l.InBuffer(size)
      ensures l' == PushOne(l, n, size)
    {
      var count := n;
      if Avail(l, size) < count {
        count := ToSizeT(Avail(l, size) - 1);
      }
      l' := l.(wr := ToSizeT(l.wr + count) % size);
    }

    method PushAllListeners(n: nat)
      requires Valid()
      modifies this`global, listeners
      ensures Valid() && View() == PushAll(old(View()), n, size)
    {
      ghost var before := View();
      if n > 0 {
        global := PushListener(global, n);
      }
      for i := 0 to listeners.Length
        invariant forall k :: i <= k < listeners.Length ==> listeners[k] == before.slots[k]
        invariant forall k :: 0 <= k < i ==>
                    listeners[k] == PushSlots(before.slots, n, size)[k]
        invariant global == if n > 0 then PushOne(before.global, n, size) else before.global
        invariant Valid()
      {
        if listeners[i].id != EMPTY {
          listeners[i] := PushListener(listeners[i], n);
        }
      }
      assert listeners[..] == PushSlots(before.slots, n, size);
    }

    method PopGlobalListener() returns (freed: int)
      requires Valid()
      modifies this`global
      ensures Valid() && View() == PopGlobal(old(View()), size)
      ensures var d := MinDistance(old(listeners[..]), old(global.rd), size);
              freed == if 0 < d <= size then ToInt32(d) else 0
    {
      var minDist := size + 1;
      for i := 0 to listeners.Length
        invariant minDist == MinDistance(listeners[..i], global.rd, size)
      {
        assert listeners[..i + 1][..i] == listeners[..i];
        if listeners[i].id != EMPTY {
          var dist := ToInt32(Distance(global.rd, listeners[i].rd, size));
          if ToSizeT(dist) < minDist {
            minDist := ToSizeT(dist);
          }
        }
      }
      assert listeners[..listeners.Length] == listeners[..];
      if 0 < minDist <= size {
        global := global.(rd := ToSizeT(global.rd + minDist) % size);
        return ToInt32(minDist);
      }
      return 0;
    }

    method GetListener(id: int) returns (i: nat)
      ensures i == Find(listeners[..], id)
    {
      i := 0;
      while i < listeners.Length && listeners[i].id != id
        invariant i <= listeners.Length
        invariant forall k :: 0 <= k < i ==> listeners[k].id != id
      {
        i := i + 1;
      }
    }

    /** The return value is -EUSERS on every path, whatever was done. */
    method AddListener(id: int) returns (ret: int)
      requires Valid()
      modifies this`listenersCount, listeners
      ensures Valid() && View() == Add(old(View()), id)
      ensures ret == -87
    {
      ghost var before := View();
      var i := 0;
      while i < listeners.Length && listeners[i].id != id && listeners[i].id != EMPTY
        invariant i <= listeners.Length
        invariant forall k :: 0 <= k < i ==> listeners[k].id != id && listeners[k].id != EMPTY
      {
        i := i + 1;
      }
      assert i == SlotFor(before.slots, id);
      if i < listeners.Length && listeners[i].id != id {
        var rd := global.wr;
        if listenersCount == 0 || !alreadyPopped {
          rd := global.rd;
        }
        listeners[i] := Listener(id, global.wr, rd);
        listenersCount := listenersCount + 1;
      }
      assert View() == Add(before, id);
      return -EUSERS;
    }

    method DelListener(id: int) returns (ret: int)
      requires Valid()
      modifies this`listenersCount, listeners
      ensures Valid() && View() == Delete(old(View()), id)
      ensures ret == if Find(old(listeners[..]), id) < listeners.Length then 0 else -43
    {
      var i := GetListener(id);
      ret := -EIDRM;
      if i < listeners.Length {
        listeners[i] := RESET;
        listenersCount := listenersCount - 1;
        ret := 0;
      }
      assert View() == Delete(old(View()), id);
    }

    method AcknowledgeBytes(id: int, ackBytes: nat)
      requires Valid()
      modifies this`alreadyPopped, listeners
      ensures Valid() && View() == Acknowledge(old(View()), id, ackBytes, size)
    {
      var i := GetListener(id);
      if i < listeners.Length && ackBytes > 0 {
        alreadyPopped := true;
        var l := listeners[i];
        var count := ackBytes;
        if Used(l, size) < count {
          count := Used(l, size);
        }
        listeners[i] := l.(rd := ToSizeT(l.rd + count) % size);
      }
      assert View() == Acknowledge(old(View()), id, ackBytes, size);
    }

    method ResetGlobalOffsets()
      requires Valid()
      modifies this`global, this`alreadyPopped
      ensures Valid() && View() == ResetOffsets(old(View()))
    {
      global := global.(wr := 0, rd := 0);
      alreadyPopped := false;
    }
  }
}
