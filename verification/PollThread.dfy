/** What an iteration of a poll thread does to offsets before and after it receives. */
module PollThread {
  import opened Cyclic
  import opened WriteCounter
  import opened ListenerModel
  import opened ListenerTable
  import opened CaptureRuns

  /** Reset everything while nobody listens, and work out the limit of the coming call of thread c; `left` is
      what the calls of all threads have left of theirs. */
  method BeginIteration(
    b: BufferListeners, writeOff: int, consumers: nat, c: nat, ghost left: seq<nat>, ghost most: nat)
    returns (writeOff': int, limit: nat)
    requires b.Valid() && consumers == |left| && c < consumers && left[c] == 0
    modifies b`global, b`alreadyPopped
    ensures b.Valid()
    ensures var sz := Sizing(b.size, most);
            var restarted := Perform(Queue(old(b.View()), writeOff, left), Restart(c), sz);
            && restarted == Queue(b.View(), writeOff', left)
            && Perform(restarted, Begin(c), sz) == Queue(b.View(), writeOff', left[c := limit])
  {
    writeOff' := writeOff;
    if b.listenersCount <= 0 {
      b.ResetGlobalOffsets();
      writeOff' := 0;
    }
    limit := Avail(b.global, b.size) / consumers;
  }

  /** The first thread's part: free what all have read, then publish what has been reserved. */
  method UpdatePointers(b: BufferListeners, writeOff: int, ghost left: seq<nat>, ghost most: nat) returns (readOff: nat)
    requires b.Valid() && |left| > 0 && left[0] == 0
    modifies b`global, b.listeners
    ensures b.Valid() && readOff == b.global.rd
    ensures var sz := Sizing(b.size, most);
            var popped := Perform(Queue(old(b.View()), writeOff, left), Pop, sz);
            Queue(b.View(), writeOff, left) == Perform(popped, Publish, sz)
  {
    var freed := b.PopGlobalListener();
    var newOffset := ToSizeT(writeOff) % b.size;
    var newBytes := Distance(b.global.wr, newOffset, b.size);
    if newBytes > 0 {
      b.PushAllListeners(newBytes);
    }
    readOff := b.global.rd;
  }
}
