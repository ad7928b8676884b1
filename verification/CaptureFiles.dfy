/** The loop that cuts the stream into files. */
module CaptureFiles {
  import opened Cyclic
  import opened StreamLayout
  import opened WriteCounter
  import opened RawRecord
  import opened CircularBuffer
  import opened ByteStream
  import opened ListenerModel
  import opened ListenerTable
  import opened HandleModel
  import opened ClientHandle

  const ONE_SECOND := 1_000_000_000

  // ----- One block -----

  function Least(a: nat, b: nat): nat {
    if a <= b then a else b
  }

  /** `hpcap_write_block`, when the writes succeed: a whole block or nothing. */
  function WriteBlock(buf: seq<Byte>, h: Handle, most: nat, bs: nat, sz: Sizes): (Handle, seq<Byte>)
    requires sz.Valid() && |buf| == sz.buffer && h.rdoff < sz.buffer && bs <= sz.buffer
  {
    if Least(h.avail, most) >= bs then (AdvanceBy(h, bs, sz).(acks := h.acks + bs), Read(buf, h.rdoff, bs))
    else (h, [])
  }

  method HpcapWriteBlock(h: HpcapHandle, buf: seq<Byte>, most: nat, bs: nat) returns (written: seq<Byte>)
    requires h.Valid() && |buf| == h.sz.buffer && bs <= h.sz.buffer
    modifies h`rdoff, h`acks, h`fileOffset
    ensures h.Valid()
    ensures (h.View(), written) == WriteBlock(buf, old(h.View()), most, bs, h.sz)
  {
    written := [];
    var ready := if h.avail <= most then h.avail else most;
    if ready < bs {
      return;
    }
    ReadAcrossEnd(buf, h.rdoff, bs);
    if h.rdoff + bs > h.sz.buffer {
      var aux := h.sz.buffer - h.rdoff;
      written := buf[h.rdoff..];
      written := written + buf[..bs - aux];
    } else {
      written := buf[h.rdoff..h.rdoff + bs];
    }
    h.AdvanceRdoffBy(bs);
    h.acks := h.acks + bs;
  }

  // ----- The loop -----

  /** What happens during one turn: the poll thread's pushes while the client waits, and the contents
      of the buffer when it then writes. */
  datatype Round = Round(pushes: seq<nat>, buf: seq<Byte>)

  /** The driver's listeners, the handle, the files closed and the one being written. */
  datatype Dump = Dump(ls: Listeners, h: Handle, files: seq<seq<Byte>>, current: seq<Byte>)

  predicate RoundOk(rd: Round, sz: Sizes) {
    |rd.buf| == sz.buffer && Loops(ONE_SECOND) <= |rd.pushes|
  }

  predicate Fitting(d: Dump, bs: nat, sz: Sizes) {
    sz.Valid() && 0 < bs <= sz.buffer && d.ls.InBuffer(sz.buffer) && d.h.rdoff < sz.buffer
  }

  /** What the file being written has room for. */
  function Room(d: Dump, sz: Sizes): nat {
    if |d.current| <= sz.file then sz.file - |d.current| else 0
  }

  /** `hpcap_ack_wait_timeout`, then `hpcap_write_block` if a block is there. */
  function Turn(d: Dump, rd: Round, id: int, bs: nat, sz: Sizes): (d': Dump)
    requires Fitting(d, bs, sz) && RoundOk(rd, sz)
    ensures Fitting(d', bs, sz)
  {
    var a := Lstop(d.ls, id, AckBytes(d.h, true), bs, Loops(ONE_SECOND), rd.pushes, sz.buffer);
    SettleKeeps(d.h, a, bs, true, sz);
    var h1 := Settle(d.h, a, bs, true, sz).0;
    if h1.avail >= bs then
      var (h2, bytes) := WriteBlock(rd.buf, h1, Room(d, sz), bs, sz);
      Dump(a.ls, h2, d.files, d.current + bytes)
    else Dump(a.ls, h1, d.files, d.current)
  }

  /** The end of a file: acknowledge what is in it and start the next. */
  function Close(d: Dump, id: int, bs: nat, sz: Sizes): (d': Dump)
    requires Fitting(d, bs, sz)
    ensures Fitting(d', bs, sz)
  {
    var a := Lstop(d.ls, id, AckBytes(d.h, true), 0, 0, [], sz.buffer);
    SettleKeeps(d.h, a, 0, true, sz);
    Dump(a.ls, Settle(d.h, a, 0, true, sz).0, d.files + [d.current], [])
  }

  /** The stop branch, with a file open: retrieve what is there without waiting, write at most one block of
      it, acknowledge.  `buf` is the buffer at that moment. */
  function Stopped(d: Dump, buf: seq<Byte>, id: int, bs: nat, sz: Sizes): (d': Dump)
    requires Fitting(d, bs, sz) && |buf| == sz.buffer
    ensures Fitting(d', bs, sz)
  {
    var a := Lstop(d.ls, id, AckBytes(d.h, true), 1, 0, [], sz.buffer);
    SettleKeeps(d.h, a, 1, true, sz);
    var h1 := Settle(d.h, a, 1, true, sz).0;
    var (h2, bytes) := if h1.avail > 0 then WriteBlock(buf, h1, Room(d, sz), bs, sz) else (h1, []);
    var b := Lstop(a.ls, id, AckBytes(h2, true), 0, 0, [], sz.buffer);
    SettleKeeps(h2, b, 0, true, sz);
    Dump(b.ls, Settle(h2, b, 0, true, sz).0, d.files, d.current + bytes)
  }

  function Captured(d: Dump, rounds: seq<Round>, id: int, bs: nat, sz: Sizes): (d': Dump)
    requires Fitting(d, bs, sz) && forall i :: 0 <= i < |rounds| ==> RoundOk(rounds[i], sz)
    ensures Fitting(d', bs, sz)
    decreases |rounds|
  {
    if |rounds| == 0 then d
    else
      var d1 := Turn(d, rounds[0], id, bs, sz);
      Captured(if |d1.current| >= sz.file then Close(d1, id, bs, sz) else d1, rounds[1..], id, bs, sz)
  }

  lemma SettleKeeps(h: Handle, a: Answer, want: nat, doAck: bool, sz: Sizes)
    requires sz.Valid() && h.rdoff < sz.buffer
    ensures Settle(h, a, want, doAck, sz).0.rdoff < sz.buffer
  {
  }

  // ----- The method -----

  method OneTurn(h: HpcapHandle, b: BufferListeners, rd: Round, id: int, bs: nat, written: nat)
      returns (bytes: seq<Byte>)
    requires h.Valid() && b.Valid() && b.size == h.sz.buffer && RoundOk(rd, h.sz) && 0 < bs <= h.sz.buffer
    requires written < h.sz.file
    modifies h, b`global, b`alreadyPopped, b.listeners
    ensures h.Valid() && b.Valid()
    ensures forall files, current :: |current| == written ==>
              Turn(Dump(old(b.View()), old(h.View()), files, current), rd, id, bs, h.sz) ==
              Dump(b.View(), h.View(), files, current + bytes)
  {
    bytes := [];
    var r := h.DoListenerOp(b, id, bs, true, ONE_SECOND, rd.pushes);
    hide Lstop, Settle, WriteBlock;
    if h.avail >= bs {
      bytes := HpcapWriteBlock(h, rd.buf, h.sz.file - written, bs);
    }
    assert forall current: seq<Byte> :: current + [] == current;
  }

  method CloseFile(h: HpcapHandle, b: BufferListeners, id: int, bs: nat, ghost files: seq<seq<Byte>>,
      current: seq<Byte>)
    requires h.Valid() && b.Valid() && b.size == h.sz.buffer && 0 < bs <= h.sz.buffer
    modifies h, b`global, b`alreadyPopped, b.listeners
    ensures h.Valid() && b.Valid()
    ensures Close(Dump(old(b.View()), old(h.View()), files, current), id, bs, h.sz) ==
            Dump(b.View(), h.View(), files + [current], [])
  {
    DivModUnique(0, 0, 0, SLEEP_QUANT);
    DivModUnique(0, 0, 0, TWO_32);
    var r := h.DoListenerOp(b, id, 0, true, 0, []);
    hide Lstop, Settle;
  }

  lemma NoLoops(timeoutNs: nat)
    requires timeoutNs < SLEEP_QUANT
    ensures Loops(timeoutNs) == 0
  {
    DivModUnique(timeoutNs, 0, timeoutNs, SLEEP_QUANT);
    DivModUnique(0, 0, 0, TWO_32);
  }

  /** The stop branch of the program. */
  method StopCapture(h: HpcapHandle, b: BufferListeners, buf: seq<Byte>, id: int, bs: nat, written: nat)
      returns (bytes: seq<Byte>)
    requires h.Valid() && b.Valid() && b.size == h.sz.buffer == |buf| && 0 < bs <= h.sz.buffer
    requires written <= h.sz.file
    modifies h, b`global, b`alreadyPopped, b.listeners
    ensures h.Valid() && b.Valid()
    ensures forall files, current :: |current| == written ==>
              Stopped(Dump(old(b.View()), old(h.View()), files, current), buf, id, bs, h.sz) ==
              Dump(b.View(), h.View(), files, current + bytes)
  {
    hide Lstop, Settle, WriteBlock, Loops;
    NoLoops(1);
    NoLoops(0);
    bytes := [];
    var r := h.DoListenerOp(b, id, 1, true, 1, []);
    if h.avail > 0 {
      bytes := HpcapWriteBlock(h, buf, h.sz.file - written, bs);
    }
    r := h.DoListenerOp(b, id, 0, true, 0, []);
  }

  /** The whole capture: the loops, until a stop is seen while a file is open, and then the stop branch. */
  method CaptureUntilStopped(h: HpcapHandle, b: BufferListeners, rounds: seq<Round>, buf: seq<Byte>, id: int, bs: nat)
    returns (files: seq<seq<Byte>>, last: seq<Byte>)
    requires h.Valid() && b.Valid() && b.size == h.sz.buffer == |buf| && 0 < bs <= h.sz.buffer
    requires forall i :: 0 <= i < |rounds| ==> RoundOk(rounds[i], h.sz)
    modifies h, b`global, b`alreadyPopped, b.listeners
    ensures h.Valid() && b.Valid()
    ensures Dump(b.View(), h.View(), files, last) ==
            Stopped(Captured(Dump(old(b.View()), old(h.View()), [], []), rounds, id, bs, h.sz), buf, id, bs, h.sz)
  {
    hide Stopped, Captured;
    files, last := CaptureLoop(h, b, rounds, id, bs);
    var bytes := StopCapture(h, b, buf, id, bs, |last|);
    last := last + bytes;
  }

  /** The two nested loops of the capture program.  They end with the rounds; the file then being written is
      returned as it stands. */
  method CaptureLoop(h: HpcapHandle, b: BufferListeners, rounds: seq<Round>, id: int, bs: nat)
    returns (files: seq<seq<Byte>>, current: seq<Byte>)
    requires h.Valid() && b.Valid() && b.size == h.sz.buffer && 0 < bs <= h.sz.buffer
    requires forall i :: 0 <= i < |rounds| ==> RoundOk(rounds[i], h.sz)
    modifies h, b`global, b`alreadyPopped, b.listeners
    ensures h.Valid() && b.Valid()
    ensures |current| < h.sz.file
    ensures Dump(b.View(), h.View(), files, current) ==
            Captured(Dump(old(b.View()), old(h.View()), [], []), rounds, id, bs, h.sz)
  {
    hide Turn, Close;
    files, current := [], [];
    var k := 0;
    assert rounds[0..] == rounds;
    ghost var target := Captured(Dump(b.View(), h.View(), [], []), rounds, id, bs, h.sz);
    while k < |rounds|
      invariant k <= |rounds| && h.Valid() && b.Valid() && |current| < h.sz.file
      invariant target == Captured(Dump(b.View(), h.View(), files, current), rounds[k..], id, bs, h.sz)
    {
      ghost var k0 := k;
      while k < |rounds| && |current| < h.sz.file
        invariant k <= |rounds| && h.Valid() && b.Valid() && (k == k0 ==> |current| < h.sz.file) && k0 <= k
        invariant target ==
          if |current| < h.sz.file
          then Captured(Dump(b.View(), h.View(), files, current), rounds[k..], id, bs, h.sz)
          else Captured(Close(Dump(b.View(), h.View(), files, current), id, bs, h.sz), rounds[k..], id, bs, h.sz)
      {
        assert rounds[k..][0] == rounds[k] && rounds[k..][1..] == rounds[k + 1..];
        var bytes := OneTurn(h, b, rounds[k], id, bs, |current|);
        current := current + bytes;
        k := k + 1;
      }
      if |current| >= h.sz.file {
        CloseFile(h, b, id, bs, files, current);
        files, current := files + [current], [];
      }
    }
  }
}
