/** A whole call of `hpcap_rx`: frames leave the descriptor ring and go to the circular buffer in one loop. */
module ReceiveCall {
  import opened Geometry
  import opened RingProtocol
  import opened StreamLayout
  import opened RawRecord
  import opened RxWriter
  import opened RxLoop
  import opened RxRing

  /** What the loop finds in the descriptor that holds a frame of this number. */
  type Contents = nat -> Found

  /** What is found when these frames arrive, of which `keeps` are to be kept, and at most `caplen` bytes of
      each if that is not 0. */
  function Seen(arrivals: nat -> Arrival, keeps: nat -> bool, caplen: nat): Contents {
    (k: nat) => Found(Captured(arrivals(k), caplen), keeps(k))
  }

  ghost predicate AllFound(cfg: Config, contents: Contents) {
    forall k: nat :: contents(k).frame.Fits(cfg)
  }

  // ----- The loop -----

  /** One frame found: what it leaves in the buffer, and whether the limit stopped it. */
  function StoreFound(cfg: Config, buf: seq<Byte>, p: nat, one: Found, limit: nat, cnt: nat): (r: (Left, bool))
    requires cfg.Valid() && one.frame.Fits(cfg) && |buf| == cfg.buffer && cfg.most <= |buf| && cnt <= limit
    ensures |r.0.buf| == |buf|
  {
    if one.kept then
      var first := PlanFrame(cfg, p, one.frame, limit, cnt);
      (Left(WriteTrips(cfg, buf, p, first.trips), first.end, first.cnt + one.frame.len), first.full)
    else (Left(buf, p, cnt + one.frame.len), false)
  }

  /** The frame in the descriptor thread c looks at next. */
  function NextFrame(r: Ring, g: Geometry, c: nat): nat
    requires r.Shape(g) && c < g.consumers
  {
    r.slots[r.threads[c].next].frame
  }

  /** The ring and the buffer after the call, which ends with the limit, with the room in it, or with the
      frames; `budget` bounds the frames that arrive while it runs. */
  ghost function Received(g: Geometry, r: Ring, c: nat, cfg: Config, left: Left, contents: Contents, limit: nat,
                          budget: nat): (Ring, Left)
    requires r.Shape(g) && c < g.consumers && cfg.Valid() && AllFound(cfg, contents)
    requires |left.buf| == cfg.buffer && cfg.most <= cfg.buffer
    decreases budget
  {
    if budget == 0 || left.cnt >= limit || !CanRead(g, r, c) then (Finish(g, r, c), left)
    else
      var (left', full) :=
        StoreFound(cfg, left.buf, left.reserved, contents(NextFrame(r, g, c)), limit, left.cnt);
      if full then (Finish(g, Read(g, r, c), c), left')
      else Received(g, Read(g, r, c), c, cfg, left', contents, limit, budget - 1)
  }

  /** How many frames the call takes off the ring. */
  ghost function Taken(g: Geometry, r: Ring, c: nat, cfg: Config, left: Left, contents: Contents, limit: nat,
                       budget: nat): (n: nat)
    requires r.Shape(g) && c < g.consumers && cfg.Valid() && AllFound(cfg, contents)
    requires |left.buf| == cfg.buffer && cfg.most <= cfg.buffer
    ensures n <= budget
    decreases budget
  {
    if budget == 0 || left.cnt >= limit || !CanRead(g, r, c) then 0
    else
      var (left', full) :=
        StoreFound(cfg, left.buf, left.reserved, contents(NextFrame(r, g, c)), limit, left.cnt);
      if full then 1 else 1 + Taken(g, Read(g, r, c), c, cfg, left', contents, limit, budget - 1)
  }

  // ----- The ring's half and the buffer's half -----

  function Named(contents: Contents, frames: seq<nat>): (found: seq<Found>)
    ensures |found| == |frames| && forall i :: 0 <= i < |found| ==> found[i] == contents(frames[i])
  {
    seq(|frames|, (i: nat) requires i < |frames| => contents(frames[i]))
  }

  lemma NamedFit(cfg: Config, contents: Contents, frames: seq<nat>)
    requires AllFound(cfg, contents)
    ensures FoundFit(cfg, Named(contents, frames))
  {
  }

  lemma {:induction false} LeftByFirst(cfg: Config, left: Left, found: seq<Found>, limit: nat)
    requires cfg.Valid() && FoundFit(cfg, found) && |left.buf| == cfg.buffer && cfg.most <= cfg.buffer
    requires |found| > 0 && left.cnt < limit
    ensures var (left', full) := StoreFound(cfg, left.buf, left.reserved, found[0], limit, left.cnt);
            LeftBy(cfg, left.buf, left.reserved, found, limit, left.cnt) ==
              if full then left' else LeftBy(cfg, left'.buf, left'.reserved, found[1..], limit, left'.cnt)
  {
    hide LeftBy, PlanFrame, WriteTrips;
    if found[0].kept {
      LeftByKept(cfg, left.buf, left.reserved, found, limit, left.cnt);
    } else {
      LeftByIgnored(cfg, left.buf, left.reserved, found, limit, left.cnt);
    }
  }

  lemma LeftByNone(cfg: Config, left: Left, found: seq<Found>, limit: nat)
    requires cfg.Valid() && FoundFit(cfg, found) && |left.buf| == cfg.buffer && cfg.most <= cfg.buffer
    requires |found| == 0 || left.cnt >= limit
    ensures LeftBy(cfg, left.buf, left.reserved, found, limit, left.cnt) == left
  {
  }

  lemma ReadDelivers(g: Geometry, r: Ring, c: nat)
    requires r.Shape(g) && c < g.consumers
    ensures Read(g, r, c).delivered[c] == r.delivered[c] + [NextFrame(r, g, c)]
    ensures Finish(g, r, c).delivered[c] == r.delivered[c]
  {
  }

  lemma RxCallFirst(g: Geometry, r: Ring, c: nat, n: nat)
    requires r.Shape(g) && c < g.consumers && n > 0 && CanRead(g, r, c)
    ensures RxCall(g, r, c, n) == RxCall(g, Read(g, r, c), c, n - 1)
    ensures RxCall(g, r, c, 0) == Finish(g, r, c)
  {
  }

  /** The two halves of the call meet: the ring gives away, in order, exactly the frames the buffer's loop
      consumes, and each half is what it is when the other one is an input. */
  lemma {:induction false} HalvesMeet(
    g: Geometry, r: Ring, c: nat, cfg: Config, left: Left, contents: Contents, limit: nat, budget: nat)
    requires r.Shape(g) && c < g.consumers && cfg.Valid() && AllFound(cfg, contents)
    requires |left.buf| == cfg.buffer && cfg.most <= cfg.buffer
    ensures var n := Taken(g, r, c, cfg, left, contents, limit, budget);
            var r' := RxCall(g, r, c, n);
            && |r'.delivered[c]| == |r.delivered[c]| + n && r.delivered[c] <= r'.delivered[c]
            && var found := Named(contents, r'.delivered[c][|r.delivered[c]|..]);
               && FoundFit(cfg, found)
               && Received(g, r, c, cfg, left, contents, limit, budget) ==
                    (r', LeftBy(cfg, left.buf, left.reserved, found, limit, left.cnt))
    decreases budget
  {
    hide CanRead, Read, Finish, StoreFound, LeftBy, RxCall;
    var n := Taken(g, r, c, cfg, left, contents, limit, budget);
    var r' := RxCall(g, r, c, n);
    ReadDelivers(g, r, c);
    if budget == 0 || left.cnt >= limit || !CanRead(g, r, c) {
      NoneTaken(g, r, c);
      LeftByNone(cfg, left, Named(contents, r'.delivered[c][|r.delivered[c]|..]), limit);
    } else {
      var k := NextFrame(r, g, c);
      var r1 := Read(g, r, c);
      var (left', full) := StoreFound(cfg, left.buf, left.reserved, contents(k), limit, left.cnt);
      RxCallFirst(g, r, c, n);
      var n' := if full then 0 else Taken(g, r1, c, cfg, left', contents, limit, budget - 1);
      if full {
        NoneTaken(g, r1, c);
        ReadDelivers(g, r1, c);
      } else {
        HalvesMeet(g, r1, c, cfg, left', contents, limit, budget - 1);
      }
      var frames, rest := r'.delivered[c][|r.delivered[c]|..], r'.delivered[c][|r1.delivered[c]|..];
      assert frames[1..] == rest && frames[0] == k;
      NamedFit(cfg, contents, frames);
      assert Named(contents, frames)[1..] == Named(contents, rest);
      LeftByFirst(cfg, left, Named(contents, frames), limit);
    }
  }

  lemma NoneTaken(g: Geometry, r: Ring, c: nat)
    requires r.Shape(g) && c < g.consumers
    ensures RxCall(g, r, c, 0) == Finish(g, r, c)
  {
  }

  // ----- The method -----

  /** `hpcap_rx`. */
  method HpcapRx(ring: HwRing, b: CaptureBuffer, c: nat, arrivals: nat -> Arrival, keeps: nat -> bool, caplen: nat,
                 limit: nat, budget: nat)
    returns (cnt: nat)
    requires ring.Valid() && b.Valid() && c < ring.g.consumers
    requires AllFound(b.cfg, Seen(arrivals, keeps, caplen))
    modifies ring`tail, ring.slots, ring.threads, ring.canFree, ring.freedLast, ring.delivered
    modifies b`consumerWriteOff, b`reserved, b.bufferCopia
    ensures ring.Valid() && b.Valid() && ring.head == old(ring.head)
    ensures var before, left := old(ring.View()), Left(old(b.bufferCopia[..]), old(b.reserved), 0);
            var contents := Seen(arrivals, keeps, caplen);
            var taken := Taken(ring.g, before, c, b.cfg, left, contents, limit, budget);
            && ring.View() == RxCall(ring.g, before, c, taken)
            && |ring.delivered[c]| == |before.delivered[c]| + taken
            && var found := Named(contents, ring.delivered[c][|before.delivered[c]|..]);
               && FoundFit(b.cfg, found)
               && Left(b.bufferCopia[..], b.reserved, cnt) ==
                    LeftBy(b.cfg, left.buf, left.reserved, found, limit, 0)
  {
    hide CanRead, Read, Finish, StoreFound, RxCall, LeftBy, Taken, Seen;
    ghost var contents := Seen(arrivals, keeps, caplen);
    HalvesMeet(ring.g, ring.View(), c, b.cfg, Left(b.bufferCopia[..], b.reserved, 0), contents, limit, budget);
    ghost var target := Received(ring.g, ring.View(), c, b.cfg, Left(b.bufferCopia[..], b.reserved, 0), contents,
                                 limit, budget);
    cnt := 0;
    var left := budget;
    var found, outOfSpace := true, false;
    while cnt < limit && !outOfSpace && found && left > 0
      invariant ring.Valid() && b.Valid() && ring.head == old(ring.head)
      invariant !found ==> !CanRead(ring.g, ring.View(), c)
      invariant target == if outOfSpace
                          then (Finish(ring.g, ring.View(), c), Left(b.bufferCopia[..], b.reserved, cnt))
                          else Received(ring.g, ring.View(), c, b.cfg, Left(b.bufferCopia[..], b.reserved, cnt),
                                        contents, limit, left)
      decreases left, found
    {
      var k := ring.slots[ring.threads[c].next].frame;
      found := ring.ReceiveOne(c);
      if found {
        var one := Receive(arrivals(k), keeps(k), caplen);
        SeenIs(arrivals, keeps, caplen, k);
        cnt, outOfSpace := TakeOne(b, one, limit, cnt);
        left := left - 1;
      }
    }
    ring.FinishCall(c);
  }

  lemma SeenIs(arrivals: nat -> Arrival, keeps: nat -> bool, caplen: nat, k: nat)
    ensures Seen(arrivals, keeps, caplen)(k) == Found(Captured(arrivals(k), caplen), keeps(k))
  {
  }

  /** The length to capture, and the RAW header's fields. */
  method Receive(a: Arrival, kept: bool, caplen: nat) returns (one: Found)
    ensures one == Found(Captured(a, caplen), kept)
  {
    var len := |a.bytes|;
    var capl := len;
    if caplen != 0 && caplen < len {
      capl := caplen;
    }
    one := Found(Frame(a.sec, a.nsec, len, a.bytes[..capl]), kept);
  }

  /** What the loop does with a frame found. */
  method TakeOne(b: CaptureBuffer, one: Found, limit: nat, cnt: nat) returns (cnt': nat, outOfSpace: bool)
    requires b.Valid() && one.frame.Fits(b.cfg) && cnt < limit
    modifies b`consumerWriteOff, b`reserved, b.bufferCopia
    ensures b.Valid()
    ensures StoreFound(b.cfg, old(b.bufferCopia[..]), old(b.reserved), one, limit, cnt) ==
            (Left(b.bufferCopia[..], b.reserved, cnt'), outOfSpace)
  {
    cnt', outOfSpace := cnt, false;
    if one.kept {
      hide StoreFrame, PlanFrame, WriteTrips;
      StoreIsPlan(b.cfg, b.bufferCopia[..], b.reserved, one.frame, limit, cnt);
      cnt', outOfSpace := b.Store(one.frame, limit, cnt);
    }
    cnt' := cnt' + one.frame.len;
  }
}
