/** The files the capture program writes are the driver's byte stream. */
module DumpRuns {
  import opened Cyclic
  import opened StreamLayout
  import opened RawRecord
  import opened CircularBuffer
  import opened ByteStream
  import opened FrameLog
  import opened ListenerModel
  import LR = ListenerRuns
  import opened HandleModel
  import CR = ClientRuns
  import opened ReaderModel
  import opened CheckRaw
  import opened CaptureFiles

  /** A block divides a file and has room for a header. */
  ghost predicate BlocksOk(cfg: Config, bs: nat, sz: Sizes) {
    && cfg.Valid() && sz.Valid()
    && sz.buffer == cfg.buffer && sz.file == cfg.file
    && RAW_HLEN <= bs <= sz.buffer && cfg.file % bs == 0
  }

  function Flat(files: seq<seq<Byte>>): seq<Byte> {
    if |files| == 0 then [] else Flat(files[..|files| - 1]) + files[|files| - 1]
  }

  /** Where the driver has the listener, how far the handle has moved, and the stream position at which
      the listener was opened. */
  datatype Mark = Mark(p: LR.Positions, t: CR.Track, start: nat) {
    function At(): nat {
      if t.started then t.base + t.at else start
    }
  }

  ghost predicate Attached(d: Dump, m: Mark, id: int, bs: nat, sz: Sizes) {
    && Fitting(d, bs, sz)
    && CR.InAgreement(CR.Session(d.ls, m.p, d.h, m.t), id, sz)
    && (!m.t.started ==> m.p.readers[Find(d.ls.slots, id)] == m.start)
  }

  /** The files closed and the one open are the stream, from where the listener started to where the
      handle stands; closed files are full and the open one holds whole blocks. */
  ghost predicate Saved(d: Dump, m: Mark, s: seq<Byte>, bs: nat, sz: Sizes)
    requires bs > 0
  {
    && m.start <= m.At() <= |s|
    && Flat(d.files) + d.current == s[m.start..m.At()]
    && (forall f :: f in d.files ==> |f| == sz.file)
    && |d.current| <= sz.file && |d.current| % bs == 0 && m.At() % bs == 0
  }

  // ----- Blocks -----

  lemma {:induction false} RoomForBlock(c: nat, file: nat, bs: nat)
    requires bs > 0 && c % bs == 0 && file % bs == 0 && c < file
    ensures c + bs <= file && (c + bs) % bs == 0
  {
    DivModExpand(c, bs);
    DivModExpand(file, bs);
    AddPeriod(c, bs);
    var k, n := c / bs, file / bs;
    if k >= n {
      MulOrder(n, k, bs);
      assert false;
    }
    MulOrder(k, n, bs);
  }

  /** Aligned blocks are never read while their file's first header is still owed: a block that has been
      pushed whole is in the stable part of the stream. */
  lemma {:induction false} BlockIsStable(cfg: Config, x: nat, wr: nat, bs: nat)
    requires cfg.Valid() && RAW_HLEN <= bs && cfg.file % bs == 0 && x % bs == 0 && x + bs <= wr
    ensures x + bs <= Stable(cfg, wr)
  {
    if StartsInHead(cfg, wr) {
      var head := FileStart(cfg, wr);
      var k := wr / cfg.file;
      DivModExpand(wr, cfg.file);
      assert head == k * cfg.file;
      DivModExpand(cfg.file, bs);
      Regroup(0, k, k, cfg.file);
      MultipleOfMultiple(k, cfg.file, bs);
      if x < head {
        RoomForBlock(x, head, bs);
      }
    }
  }

  lemma MultipleOfMultiple(k: nat, m: nat, n: nat)
    requires n > 0 && m % n == 0
    ensures k * m >= 0 && (k * m) % n == 0
  {
    var q := m / n;
    assert m == q * n;
    assert k * m == (k * q) * n;
    DivModUnique(k * m, k * q, 0, n);
  }

  // ----- One turn -----

  /** The driver's part of a turn: pushes fit, and once it is over the buffer shows the stream from the
      read position on, as far as it is stable. */
  ghost predicate RoundFits(cfg: Config, d: Dump, m: Mark, rd: Round, s: seq<Byte>, id: int, bs: nat, sz: Sizes)
    requires Attached(d, m, id, bs, sz) && cfg.file > 0
  {
    && RoundOk(rd, sz)
    && CR.OpFits(d.ls, m.p, id, d.h, bs, true, Loops(ONE_SECOND), rd.pushes, sz.buffer)
    && var p' := CR.OpPositions(d.ls, m.p, id, d.h, bs, true, Loops(ONE_SECOND), rd.pushes, sz.buffer);
       && Find(d.ls.slots, id) < |p'.readers|
       && Stable(cfg, p'.wr) <= |s|
       && Shows(rd.buf, s[..Stable(cfg, p'.wr)], p'.readers[Find(d.ls.slots, id)])
  }

  /** The state after the wait of a turn. */
  datatype Waited = Waited(ls: Listeners, h: Handle, m: Mark)

  function AfterWait(d: Dump, m: Mark, want: nat, loops: int, pushes: seq<nat>, id: int, sz: Sizes): Waited
    requires sz.Valid() && d.ls.InBuffer(sz.buffer) && d.h.rdoff < sz.buffer && loops <= |pushes|
    requires |d.ls.slots| == |m.p.readers| && Find(d.ls.slots, id) < |d.ls.slots|
  {
    var a := Lstop(d.ls, id, AckBytes(d.h, true), want, loops, pushes, sz.buffer);
    var p' := CR.OpPositions(d.ls, m.p, id, d.h, want, true, loops, pushes, sz.buffer);
    Waited(a.ls, Settle(d.h, a, want, true, sz).0,
           Mark(p', CR.OpTrack(m.t, m.p.readers[Find(d.ls.slots, id)] + AckBytes(d.h, true), a, want, sz), m.start))
  }

  /** The same in terms of the handle and the track alone. */
  lemma {:induction false} SettleKeepsPlace(
    h: Handle, a: Answer, r: nat, wr: nat, wr': nat, t: CR.Track, start: nat, want: nat, sz: Sizes)
    requires sz.Valid() && CR.Agrees(h, r, wr, t, sz) && wr <= wr' && a.ret == 0
    requires want > 0 ==> a.available == wr' - (r + h.acks) && a.readOffset == (r + h.acks) % sz.buffer
    requires !t.started ==> r == start
    ensures h.rdoff < sz.buffer
    ensures var h' := Settle(h, a, want, true, sz).0;
            var t' := CR.OpTrack(t, r + h.acks, a, want, sz);
            var at := if t.started then t.base + t.at else start;
            && h'.acks == 0
            && (if t'.started then t'.base + t'.at else start) == at
            && (!t'.started ==> r + h.acks == start && h'.avail == 0)
            && (t'.started ==> r + h.acks == at && h'.rdoff == at % sz.buffer && at + h'.avail <= wr')
  {
    CR.SettleAgrees(h, a, r, r + h.acks, wr, wr', t, want, true, sz);
    CR.LapStart(r + h.acks, sz.buffer);
    var t' := CR.OpTrack(t, r + h.acks, a, want, sz);
    AddWrapped(t'.base, t'.at, sz.buffer);
    AddWrapped(t'.at, 0, sz.buffer);
    hide Settle, CR.OpTrack, AdvanceTo;
  }

  lemma AttachedShape(d: Dump, m: Mark, id: int, bs: nat, sz: Sizes)
    requires Attached(d, m, id, bs, sz)
    ensures sz.Valid() && id != EMPTY && LR.Stands(d.ls, m.p, sz.buffer) && d.ls.InBuffer(sz.buffer)
    ensures |d.ls.slots| == |m.p.readers| && Find(d.ls.slots, id) < |d.ls.slots| && d.h.rdoff < sz.buffer
    ensures CR.Agrees(d.h, m.p.readers[Find(d.ls.slots, id)], m.p.wr, m.t, sz)
  {
    LR.StandsInBuffer(d.ls, m.p, sz.buffer);
    hide LR.Stands, Find;
  }

  lemma AfterWaitIs(d: Dump, m: Mark, want: nat, loops: int, pushes: seq<nat>, id: int, sz: Sizes)
    requires sz.Valid() && d.ls.InBuffer(sz.buffer) && d.h.rdoff < sz.buffer && loops <= |pushes|
    requires |d.ls.slots| == |m.p.readers| && Find(d.ls.slots, id) < |d.ls.slots|
    ensures var w, ack := AfterWait(d, m, want, loops, pushes, id, sz), AckBytes(d.h, true);
            var a := Lstop(d.ls, id, ack, want, loops, pushes, sz.buffer);
            && w.ls == a.ls && w.h == Settle(d.h, a, want, true, sz).0 && w.m.start == m.start
            && w.m.p == CR.OpPositions(d.ls, m.p, id, d.h, want, true, loops, pushes, sz.buffer)
            && w.m.t == CR.OpTrack(m.t, m.p.readers[Find(d.ls.slots, id)] + ack, a, want, sz)
  {
    hide Lstop, CR.OpPositions, CR.OpTrack, Settle, Find, AckBytes;
  }

  lemma {:induction false} WaitAgrees(
    d: Dump, m: Mark, want: nat, loops: int, pushes: seq<nat>, id: int, bs: nat, sz: Sizes)
    requires Attached(d, m, id, bs, sz)
    requires CR.OpFits(d.ls, m.p, id, d.h, want, true, loops, pushes, sz.buffer)
    ensures loops <= |pushes| && |d.ls.slots| == |m.p.readers| && Find(d.ls.slots, id) < |d.ls.slots|
    ensures var w := AfterWait(d, m, want, loops, pushes, id, sz);
            && w.h.rdoff < sz.buffer && w.ls.InBuffer(sz.buffer)
            && Find(w.ls.slots, id) == Find(d.ls.slots, id)
            && CR.InAgreement(CR.Session(w.ls, w.m.p, w.h, w.m.t), id, sz)
  {
    hide Lstop, CR.OpPositions, CR.OpFits, CR.OpTrack, CR.Agrees, Settle, LR.Stands, Find, AfterWait, AckBytes,
         Attached;
    AttachedShape(d, m, id, bs, sz);
    CR.OpFitsShape(d.ls, m.p, id, d.h, want, true, loops, pushes, sz.buffer);
    var i := Find(d.ls.slots, id);
    var ack := AckBytes(d.h, true);
    CR.OpAgrees(d.ls, m.p, id, d.h, m.t, want, true, loops, pushes, sz);
    CR.DriverAnswers(d.ls, m.p, id, d.h, m.t, want, true, loops, pushes, sz);
    CR.RequestKeepsListener(d.ls, id, ack, want, loops, pushes, sz.buffer);
    SettleKeeps(d.h, Lstop(d.ls, id, ack, want, loops, pushes, sz.buffer), want, true, sz);
    AfterWaitIs(d, m, want, loops, pushes, id, sz);
    var w := AfterWait(d, m, want, loops, pushes, id, sz);
    CR.AgreementIs(CR.Session(w.ls, w.m.p, w.h, w.m.t), id, sz, i);
  }

  /** Acknowledging and waiting moves neither the reading position nor the stream read so far. */
  lemma {:induction false} WaitKeepsPlace(
    d: Dump, m: Mark, want: nat, loops: int, pushes: seq<nat>, id: int, bs: nat, sz: Sizes)
    requires Attached(d, m, id, bs, sz) && loops <= |pushes|
    requires CR.OpFits(d.ls, m.p, id, d.h, want, true, loops, pushes, sz.buffer)
    requires |d.ls.slots| == |m.p.readers| && Find(d.ls.slots, id) < |d.ls.slots|
    ensures var w := AfterWait(d, m, want, loops, pushes, id, sz);
            var i := Find(d.ls.slots, id);
            && w.m.At() == m.At() && w.m.start == m.start && i < |w.m.p.readers|
            && (!w.m.t.started ==> w.m.p.readers[i] == w.m.start && w.h.avail == 0)
            && (w.m.t.started ==> w.m.p.readers[i] == m.At() && w.h.rdoff == m.At() % sz.buffer
                                  && m.At() + w.h.avail <= w.m.p.wr)
            && w.h.acks == 0
  {
    hide Lstop, CR.OpPositions, CR.OpFits, CR.OpTrack, CR.Agrees, Settle, LR.Stands, Find;
    var i := Find(d.ls.slots, id);
    var ack := AckBytes(d.h, true);
    CR.DriverAnswers(d.ls, m.p, id, d.h, m.t, want, true, loops, pushes, sz);
    var a := Lstop(d.ls, id, ack, want, loops, pushes, sz.buffer);
    var p' := CR.OpPositions(d.ls, m.p, id, d.h, want, true, loops, pushes, sz.buffer);
    SettleKeepsPlace(d.h, a, m.p.readers[i], m.p.wr, p'.wr, m.t, m.start, want, sz);
  }

  // ----- Turns and closes -----

  /** The mark after a turn. */
  function TurnMark(d: Dump, m: Mark, rd: Round, id: int, bs: nat, sz: Sizes): Mark
    requires Fitting(d, bs, sz) && RoundOk(rd, sz)
    requires |d.ls.slots| == |m.p.readers| && Find(d.ls.slots, id) < |d.ls.slots|
  {
    var w := AfterWait(d, m, bs, Loops(ONE_SECOND), rd.pushes, id, sz);
    if Turn(d, rd, id, bs, sz).h.acks > 0 then w.m.(t := w.m.t.(at := w.m.t.at + bs)) else w.m
  }

  /** Writing a block after the wait: the bytes are the next ones of the stream. */
  lemma {:induction false} BlockIsStream(cfg: Config, h: Handle, buf: seq<Byte>, s: seq<Byte>, x: nat, wr: nat,
      most: nat, bs: nat, sz: Sizes)
    requires BlocksOk(cfg, bs, sz) && |buf| == sz.buffer && most >= bs && h.avail >= bs
    requires h.rdoff == x % sz.buffer && x + h.avail <= wr && x % bs == 0
    requires Stable(cfg, wr) <= |s| && Shows(buf, s[..Stable(cfg, wr)], x)
    ensures x + bs <= |s|
    ensures WriteBlock(buf, h, most, bs, sz) == (AdvanceBy(h, bs, sz).(acks := h.acks + bs), s[x..x + bs])
  {
    BlockIsStable(cfg, x, wr, bs);
    ReadShows(buf, s[..Stable(cfg, wr)], x, x, bs);
    assert s[..Stable(cfg, wr)][x..x + bs] == s[x..x + bs];
    hide Shows, Read, Stable, AdvanceBy;
  }

  lemma {:induction false} SavedGrows(d: Dump, m: Mark, s: seq<Byte>, bs: nat, sz: Sizes, bytes: seq<Byte>, at': nat)
    requires 0 < bs && m.start <= m.At() <= at' <= |s| && bytes == s[m.At()..at']
    requires Flat(d.files) + d.current == s[m.start..m.At()]
    ensures Flat(d.files) + (d.current + bytes) == s[m.start..at']
  {
    assert Flat(d.files) + (d.current + bytes) == (Flat(d.files) + d.current) + bytes;
  }

  /** What a turn does after its wait. */
  lemma {:induction false} TurnIs(d: Dump, m: Mark, rd: Round, id: int, bs: nat, sz: Sizes)
    requires Fitting(d, bs, sz) && RoundOk(rd, sz) && |d.current| < sz.file
    requires |d.ls.slots| == |m.p.readers| && Find(d.ls.slots, id) < |d.ls.slots|
    ensures var w := AfterWait(d, m, bs, Loops(ONE_SECOND), rd.pushes, id, sz);
            && w.h.rdoff < sz.buffer
            && var (h2, bytes) := WriteBlock(rd.buf, w.h, sz.file - |d.current|, bs, sz);
               Turn(d, rd, id, bs, sz) == Dump(w.ls, h2, d.files, d.current + bytes)
  {
    hide Lstop, CR.OpPositions, Settle, CR.OpTrack, Read, Loops;
    var a := Lstop(d.ls, id, AckBytes(d.h, true), bs, Loops(ONE_SECOND), rd.pushes, sz.buffer);
    SettleKeeps(d.h, a, bs, true, sz);
    assert d.current + [] == d.current;
  }

  ghost predicate Waits(d: Dump, m: Mark, w: Waited, id: int, sz: Sizes)
    requires sz.Valid()
  {
    var i := Find(d.ls.slots, id);
    && w.h.rdoff < sz.buffer && w.ls.InBuffer(sz.buffer)
    && Find(w.ls.slots, id) == i && i < |w.m.p.readers|
    && CR.InAgreement(CR.Session(w.ls, w.m.p, w.h, w.m.t), id, sz)
    && w.m.At() == m.At() && w.m.start == m.start
    && (!w.m.t.started ==> w.m.p.readers[i] == w.m.start && w.h.avail == 0)
    && (w.m.t.started ==> w.m.p.readers[i] == m.At() && w.h.rdoff == m.At() % sz.buffer
                          && m.At() + w.h.avail <= w.m.p.wr)
    && w.h.acks == 0
  }

  /** After the wait, the buffer shows the stream from the read position on. */
  ghost predicate Ready(cfg: Config, w: Waited, i: nat, buf: seq<Byte>, s: seq<Byte>)
    requires cfg.file > 0
  {
    && i < |w.m.p.readers|
    && Stable(cfg, w.m.p.wr) <= |s|
    && Shows(buf, s[..Stable(cfg, w.m.p.wr)], w.m.p.readers[i])
  }

  lemma {:induction false} BlockEnds(
    cfg: Config, d: Dump, m: Mark, w: Waited, buf: seq<Byte>, s: seq<Byte>, id: int, bs: nat, sz: Sizes)
    requires BlocksOk(cfg, bs, sz) && Saved(d, m, s, bs, sz) && Waits(d, m, w, id, sz) && |buf| == sz.buffer
    requires |d.current| + bs <= sz.file && (|d.current| + bs) % bs == 0
    requires Ready(cfg, w, Find(d.ls.slots, id), buf, s) && w.h.avail >= bs
    ensures var (h2, bytes) := WriteBlock(buf, w.h, sz.file - |d.current|, bs, sz);
            var d' := Dump(w.ls, h2, d.files, d.current + bytes);
            var m' := w.m.(t := w.m.t.(at := w.m.t.at + bs));
            h2.acks > 0 && Attached(d', m', id, bs, sz) && Saved(d', m', s, bs, sz)
  {
    hide WriteBlock, Shows, Stable, CR.InAgreement, Find, Read;
    var x := m.At();
    BlockIsStream(cfg, w.h, buf, s, x, w.m.p.wr, sz.file - |d.current|, bs, sz);
    CR.ReadAgrees(CR.Session(w.ls, w.m.p, w.h, w.m.t), bs, id, sz);
    SavedGrows(d, m, s, bs, sz, s[x..x + bs], x + bs);
    AddPeriod(x, bs);
  }

  lemma {:induction false} NoBlockEnds(
    d: Dump, m: Mark, w: Waited, buf: seq<Byte>, s: seq<Byte>, most: nat, id: int, bs: nat, sz: Sizes)
    requires sz.Valid() && 0 < bs <= sz.buffer == |buf| && Saved(d, m, s, bs, sz) && Waits(d, m, w, id, sz)
    requires w.h.avail < bs
    ensures WriteBlock(buf, w.h, most, bs, sz) == (w.h, [])
    ensures var d' := Dump(w.ls, w.h, d.files, d.current + []);
            Attached(d', w.m, id, bs, sz) && Saved(d', w.m, s, bs, sz) && w.h.acks == 0
  {
    hide CR.InAgreement, Find, Read;
    assert d.current + [] == d.current;
  }

  lemma {:induction false} WaitDone(cfg: Config, d: Dump, m: Mark, rd: Round, s: seq<Byte>, id: int, bs: nat, sz: Sizes)
    requires BlocksOk(cfg, bs, sz) && Attached(d, m, id, bs, sz)
    requires RoundFits(cfg, d, m, rd, s, id, bs, sz)
    ensures Fitting(d, bs, sz) && RoundOk(rd, sz)
    ensures |d.ls.slots| == |m.p.readers| && Find(d.ls.slots, id) < |d.ls.slots|
    ensures var w := AfterWait(d, m, bs, Loops(ONE_SECOND), rd.pushes, id, sz);
            Waits(d, m, w, id, sz) && Ready(cfg, w, Find(d.ls.slots, id), rd.buf, s)
  {
    WaitAgrees(d, m, bs, Loops(ONE_SECOND), rd.pushes, id, bs, sz);
    WaitKeepsPlace(d, m, bs, Loops(ONE_SECOND), rd.pushes, id, bs, sz);
    hide CR.OpFits, CR.OpPositions, Shows, Loops, Stable, Find, Lstop, Settle, CR.InAgreement, CR.OpTrack;
  }

  /** A turn appends the next whole block of the stream, or nothing. */
  lemma {:induction false} TurnSaves(cfg: Config, d: Dump, m: Mark, rd: Round, s: seq<Byte>, id: int, bs: nat,
      sz: Sizes)
    requires BlocksOk(cfg, bs, sz) && Attached(d, m, id, bs, sz) && Saved(d, m, s, bs, sz) && |d.current| < sz.file
    requires RoundFits(cfg, d, m, rd, s, id, bs, sz)
    ensures Fitting(d, bs, sz) && RoundOk(rd, sz)
    ensures |d.ls.slots| == |m.p.readers| && Find(d.ls.slots, id) < |d.ls.slots|
    ensures var d', m' := Turn(d, rd, id, bs, sz), TurnMark(d, m, rd, id, bs, sz);
            Attached(d', m', id, bs, sz) && Saved(d', m', s, bs, sz)
  {
    hide AfterWait, Turn, WriteBlock, Attached, RoundFits, Ready, Loops, Find, Waits, Flat;
    WaitDone(cfg, d, m, rd, s, id, bs, sz);
    RoomForBlock(|d.current|, sz.file, bs);
    TurnIs(d, m, rd, id, bs, sz);
    var w := AfterWait(d, m, bs, Loops(ONE_SECOND), rd.pushes, id, sz);
    if w.h.avail >= bs {
      BlockEnds(cfg, d, m, w, rd.buf, s, id, bs, sz);
    } else {
      NoBlockEnds(d, m, w, rd.buf, s, sz.file - |d.current|, id, bs, sz);
    }
  }

  /** Closing a full file changes no byte of what is saved. */
  lemma {:induction false} CloseSaves(d: Dump, m: Mark, s: seq<Byte>, id: int, bs: nat, sz: Sizes)
    requires 0 < bs && Attached(d, m, id, bs, sz) && Saved(d, m, s, bs, sz) && |d.current| >= sz.file
    ensures |d.ls.slots| == |m.p.readers| && Find(d.ls.slots, id) < |d.ls.slots|
    ensures var d', m' := Close(d, id, bs, sz), AfterWait(d, m, 0, 0, [], id, sz).m;
            && Attached(d', m', id, bs, sz) && Saved(d', m', s, bs, sz)
            && d'.current == []
  {
    WaitAgrees(d, m, 0, 0, [], id, bs, sz);
    WaitKeepsPlace(d, m, 0, 0, [], id, bs, sz);
    hide Lstop, CR.OpPositions, Settle, CR.OpTrack, CR.InAgreement, Find;
    FlatAppend(d.files, d.current);
    DivModUnique(0, 0, 0, bs);
  }

  lemma FlatAppend(files: seq<seq<Byte>>, f: seq<Byte>)
    ensures Flat(files + [f]) + [] == Flat(files) + f
  {
    assert (files + [f])[..|files|] == files;
  }

  // ----- Whole runs -----

  /** One pass of the loops: a turn, and the close if the file is full. */
  function Next(d: Dump, rd: Round, id: int, bs: nat, sz: Sizes): (d': Dump)
    requires Fitting(d, bs, sz) && RoundOk(rd, sz)
    ensures Fitting(d', bs, sz)
  {
    var d1 := Turn(d, rd, id, bs, sz);
    if |d1.current| >= sz.file then Close(d1, id, bs, sz) else d1
  }

  function NextMark(d: Dump, m: Mark, rd: Round, id: int, bs: nat, sz: Sizes): Mark
    requires Fitting(d, bs, sz) && RoundOk(rd, sz)
    requires |d.ls.slots| == |m.p.readers| && Find(d.ls.slots, id) < |d.ls.slots|
  {
    var d1, m1 := Turn(d, rd, id, bs, sz), TurnMark(d, m, rd, id, bs, sz);
    if |d1.current| >= sz.file && |d1.ls.slots| == |m1.p.readers| && Find(d1.ls.slots, id) < |d1.ls.slots|
    then AfterWait(d1, m1, 0, 0, [], id, sz).m else m1
  }

  lemma {:induction false} NextSaves(cfg: Config, d: Dump, m: Mark, rd: Round, s: seq<Byte>, id: int, bs: nat,
      sz: Sizes)
    requires BlocksOk(cfg, bs, sz) && Attached(d, m, id, bs, sz) && Saved(d, m, s, bs, sz) && |d.current| < sz.file
    requires RoundFits(cfg, d, m, rd, s, id, bs, sz)
    ensures Fitting(d, bs, sz) && RoundOk(rd, sz)
    ensures |d.ls.slots| == |m.p.readers| && Find(d.ls.slots, id) < |d.ls.slots|
    ensures var d', m' := Next(d, rd, id, bs, sz), NextMark(d, m, rd, id, bs, sz);
            Attached(d', m', id, bs, sz) && Saved(d', m', s, bs, sz) && |d'.current| < sz.file && m'.start == m.start
  {
    hide Attached, RoundFits, Turn, Close, AfterWait, Loops, Find, Flat, TurnMark;
    TurnSaves(cfg, d, m, rd, s, id, bs, sz);
    TurnKeepsStart(d, m, rd, id, bs, sz);
    var d1, m1 := Turn(d, rd, id, bs, sz), TurnMark(d, m, rd, id, bs, sz);
    if |d1.current| >= sz.file {
      CloseSaves(d1, m1, s, id, bs, sz);
      CloseKeepsStart(d1, m1, id, bs, sz);
    }
  }

  lemma TurnKeepsStart(d: Dump, m: Mark, rd: Round, id: int, bs: nat, sz: Sizes)
    requires Fitting(d, bs, sz) && RoundOk(rd, sz)
    requires |d.ls.slots| == |m.p.readers| && Find(d.ls.slots, id) < |d.ls.slots|
    ensures TurnMark(d, m, rd, id, bs, sz).start == m.start
  {
    hide Turn, Lstop, Settle, CR.OpPositions, CR.OpTrack, Loops, Find;
  }

  lemma CloseKeepsStart(d: Dump, m: Mark, id: int, bs: nat, sz: Sizes)
    requires Fitting(d, bs, sz)
    requires |d.ls.slots| == |m.p.readers| && Find(d.ls.slots, id) < |d.ls.slots|
    ensures AfterWait(d, m, 0, 0, [], id, sz).m.start == m.start
  {
    hide Lstop, Settle, CR.OpPositions, CR.OpTrack, Find;
  }

  /** Every turn of the run fits. */
  ghost predicate RunFits(cfg: Config, d: Dump, m: Mark, rounds: seq<Round>, s: seq<Byte>, id: int, bs: nat, sz: Sizes)
    requires BlocksOk(cfg, bs, sz) && Attached(d, m, id, bs, sz) && Saved(d, m, s, bs, sz) && |d.current| < sz.file
    decreases |rounds|
  {
    |rounds| == 0 ||
    (RoundFits(cfg, d, m, rounds[0], s, id, bs, sz) &&
     (NextSaves(cfg, d, m, rounds[0], s, id, bs, sz);
      RunFits(cfg, Next(d, rounds[0], id, bs, sz), NextMark(d, m, rounds[0], id, bs, sz), rounds[1..], s, id, bs, sz)))
  }

  ghost predicate SavedFrom(d: Dump, start: nat, m: Mark, s: seq<Byte>, id: int, bs: nat, sz: Sizes)
    requires bs > 0
  {
    Attached(d, m, id, bs, sz) && Saved(d, m, s, bs, sz) && m.start == start && |d.current| < sz.file
  }

  /** Over any run: the closed files one after the other, and then the open one, are the stream from the
      listener's start on, without gap or repeat; every closed file is exactly full. */
  lemma {:induction false} RunSaves(
    cfg: Config, d: Dump, m: Mark, rounds: seq<Round>, s: seq<Byte>, id: int, bs: nat, sz: Sizes)
    requires BlocksOk(cfg, bs, sz) && Attached(d, m, id, bs, sz) && Saved(d, m, s, bs, sz) && |d.current| < sz.file
    requires RunFits(cfg, d, m, rounds, s, id, bs, sz)
    ensures Fitting(d, bs, sz) && forall i :: 0 <= i < |rounds| ==> RoundOk(rounds[i], sz)
    ensures exists m' :: SavedFrom(Captured(d, rounds, id, bs, sz), m.start, m', s, id, bs, sz)
    decreases |rounds|
  {
    hide Attached, RoundFits, Saved, Turn, Close, NextMark, AfterWait, Loops, Find;
    AttachedFits(d, m, id, bs, sz);
    if |rounds| == 0 {
      assert SavedFrom(Captured(d, rounds, id, bs, sz), m.start, m, s, id, bs, sz);
    } else {
      NextSaves(cfg, d, m, rounds[0], s, id, bs, sz);
      var d1, m1 := Next(d, rounds[0], id, bs, sz), NextMark(d, m, rounds[0], id, bs, sz);
      RunSaves(cfg, d1, m1, rounds[1..], s, id, bs, sz);
      assert forall i :: 0 <= i < |rounds| ==> rounds[i] == if i == 0 then rounds[0] else rounds[1..][i - 1];
      assert Captured(d, rounds, id, bs, sz) == Captured(d1, rounds[1..], id, bs, sz);
    }
  }

  lemma AttachedFits(d: Dump, m: Mark, id: int, bs: nat, sz: Sizes)
    requires Attached(d, m, id, bs, sz)
    ensures Fitting(d, bs, sz)
  {
  }

  lemma {:induction false} FlatSize(files: seq<seq<Byte>>, size: nat, total: nat)
    requires total == |files| * size && forall f :: f in files ==> |f| == size
    ensures |Flat(files)| == total
  {
    if |files| > 0 {
      var n := |files| - 1;
      Distribute(n, 1, size);
      assert files[n] in files;
      FlatSize(files[..n], size, n * size);
    }
  }

  lemma {:induction false} PieceOfFlat(files: seq<seq<Byte>>, k: nat, size: nat, x: nat)
    requires k < |files| && x == k * size && forall f :: f in files ==> |f| == size
    ensures x + size <= |Flat(files)| && files[k] == Flat(files)[x..x + size]
  {
    var n := |files| - 1;
    var y := n * size;
    FlatSize(files[..n], size, y);
    assert files[n] in files;
    if k < n {
      MulOrder(k, n, size);
      PieceOfFlat(files[..n], k, size, x);
      SliceOfPrefix(Flat(files[..n]), files[n], x, x + size);
    } else {
      assert x == y;
      SliceOfSuffix(Flat(files[..n]), files[n]);
    }
  }

  lemma SliceOfSuffix(a: seq<Byte>, b: seq<Byte>)
    ensures (a + b)[|a|..|a| + |b|] == b
  {
  }

  lemma SliceOfPrefix(a: seq<Byte>, b: seq<Byte>, x: nat, y: nat)
    requires x <= y <= |a|
    ensures (a + b)[x..y] == a[x..y]
  {
  }

  lemma SliceOfSlice(s: seq<Byte>, a: nat, b: nat, x: nat, y: nat)
    requires a <= b <= |s| && x <= y && a + y <= b
    ensures s[a..b][x..y] == s[a + x..a + y]
  {
    forall k | 0 <= k < y - x ensures s[a..b][x..y][k] == s[a + x..a + y][k] {
    }
  }

  lemma SavedBytes(d: Dump, m: Mark, s: seq<Byte>, bs: nat, sz: Sizes)
    requires 0 < bs && Saved(d, m, s, bs, sz)
    ensures m.start <= m.At() <= |s| && Flat(d.files) + d.current == s[m.start..m.At()]
    ensures forall f :: f in d.files ==> |f| == sz.file
  {
  }

  lemma {:induction false} FileIsPiece(d: Dump, m: Mark, s: seq<Byte>, k: nat, first: nat, bs: nat, sz: Sizes)
    requires 0 < bs && Saved(d, m, s, bs, sz) && k < |d.files| && m.start == first * sz.file
    ensures 0 <= (first + k) * sz.file && (first + k) * sz.file + sz.file <= |s|
    ensures d.files[k] == s[(first + k) * sz.file..(first + k) * sz.file + sz.file]
  {
    hide *;
    Distribute(first, k, sz.file);
    MulOrder(0, k, sz.file);
    PieceOfSaved(d, m, s, k, k * sz.file, bs, sz);
  }

  lemma {:induction false} PieceOfSaved(d: Dump, m: Mark, s: seq<Byte>, k: nat, x: nat, bs: nat, sz: Sizes)
    requires 0 < bs && Saved(d, m, s, bs, sz) && k < |d.files| && x == k * sz.file
    ensures m.start + x + sz.file <= |s|
    ensures d.files[k] == s[m.start + x..m.start + x + sz.file]
  {
    hide *;
    SavedBytes(d, m, s, bs, sz);
    PieceOfFlat(d.files, k, sz.file, x);
    var b := m.At();
    assert Flat(d.files) + d.current == s[m.start..b];
    SliceOfPrefix(Flat(d.files), d.current, x, x + sz.file);
    SliceOfSlice(s, m.start, b, x, x + sz.file);
  }

  /** A client that starts at a file boundary: each file it closes is the stream between two multiples of
      the file size, so it passes the repository's check. */
  lemma {:induction false} ClosedFilesPass(
    cfg: Config, d: Dump, m: Mark, t: Tape, k: nat, first: nat, bs: nat, sz: Sizes, o: Options)
    requires BlocksOk(cfg, bs, sz) && Saved(d, m, t.stream, bs, sz) && k < |d.files| && m.start == first * sz.file
    requires Recorded(cfg, t) && SaneFrames(t.trips, o)
    ensures Checked(d.files[k], 0, Tally(0, 0, false), o).errors == 0
  {
    hide Saved, Recorded, Checked, SaneFrames;
    FileIsPiece(d, m, t.stream, k, first, bs, sz);
    CapturedFilesPass(cfg, t, first + k, o);
  }

  /** The run starts when the client has opened its handle. */
  lemma OpenedSaved(ls: Listeners, p: LR.Positions, s: seq<Byte>, id: int, bs: nat, sz: Sizes)
    requires sz.Valid() && 0 < bs <= sz.buffer && LR.Stands(ls, p, sz.buffer) && id != EMPTY
    requires Find(ls.slots, id) < |ls.slots|
    requires p.readers[Find(ls.slots, id)] <= |s| && p.readers[Find(ls.slots, id)] % bs == 0
    ensures var d := Dump(ls, Handle(0, 0, 0, 0), [], []);
            var m := Mark(p, CR.Track(0, 0, false), p.readers[Find(ls.slots, id)]);
            Attached(d, m, id, bs, sz) && Saved(d, m, s, bs, sz)
  {
    LR.StandsInBuffer(ls, p, sz.buffer);
    CR.OpenedAgrees(ls, p, id, sz);
    DivModUnique(0, 0, 0, bs);
  }

  lemma {:induction false} StableOrder(cfg: Config, a: nat, b: nat)
    requires cfg.Valid() && a <= b
    ensures Stable(cfg, a) <= Stable(cfg, b)
  {
    if StartsInHead(cfg, b) && FileStart(cfg, b) < a {
      var d := a - FileStart(cfg, b);
      DivModExpand(b, cfg.file);
      DivModUnique(a, b / cfg.file, d, cfg.file);
    }
  }

  /** What a turn asks of the buffer is what the driver's trips leave there: whatever the poll thread has
      published of the reserved bytes, and however much has been acknowledged. */
  lemma {:induction false} TapeIsReady(cfg: Config, t: Tape, w: Waited, i: nat, s: seq<Byte>)
    requires Recorded(cfg, t) && t.stream <= s && i < |w.m.p.readers|
    requires t.from <= w.m.p.readers[i] && w.m.p.wr <= Reserved(t.trips)
    ensures cfg.file > 0 && Ready(cfg, w, i, t.buf, s)
  {
    hide Stable, Sound, Log, EntryHolds, Reserved;
    RecordedShape(cfg, t);
    StableOrder(cfg, w.m.p.wr, Reserved(t.trips));
    var q := Stable(cfg, w.m.p.wr);
    forall x | w.m.p.readers[i] <= x < q ensures At(t.buf, x) == s[..q][x] {
      assert s[x] == t.stream[x];
    }
  }

  // ----- Stopping -----

  /** What the stop branch asks of the buffer. */
  ghost predicate StopFits(cfg: Config, d: Dump, m: Mark, buf: seq<Byte>, s: seq<Byte>, id: int, bs: nat, sz: Sizes)
    requires Attached(d, m, id, bs, sz) && cfg.file > 0
  {
    && |buf| == sz.buffer && Find(d.ls.slots, id) < |d.ls.slots| == |m.p.readers|
    && Ready(cfg, AfterWait(d, m, 1, 0, [], id, sz), Find(d.ls.slots, id), buf, s)
  }

  lemma {:induction false} NoWaitFits(d: Dump, m: Mark, id: int, bs: nat, sz: Sizes)
    requires Attached(d, m, id, bs, sz)
    ensures CR.OpFits(d.ls, m.p, id, d.h, 1, true, 0, [], sz.buffer)
    ensures |d.ls.slots| == |m.p.readers| && Find(d.ls.slots, id) < |d.ls.slots|
    ensures CR.OpPositions(d.ls, m.p, id, d.h, 1, true, 0, [], sz.buffer).wr == m.p.wr
  {
    CR.AckIsWhole(d.ls, m.p, id, d.h, m.t, true, sz);
  }

  /** Retrieving what is there leaves all published bytes not yet saved available. */
  lemma {:induction false} StopAvailable(d: Dump, m: Mark, id: int, bs: nat, sz: Sizes)
    requires Attached(d, m, id, bs, sz)
    ensures |d.ls.slots| == |m.p.readers| && Find(d.ls.slots, id) < |d.ls.slots|
    ensures var w := AfterWait(d, m, 1, 0, [], id, sz);
            Waits(d, m, w, id, sz) && w.m.p.wr == m.p.wr && m.At() + w.h.avail == m.p.wr
  {
    NoWaitFits(d, m, id, bs, sz);
    WaitAgrees(d, m, 1, 0, [], id, bs, sz);
    WaitKeepsPlace(d, m, 1, 0, [], id, bs, sz);
    CR.DriverAnswers(d.ls, m.p, id, d.h, m.t, 1, true, 0, [], sz);
    hide CR.OpFits, CR.OpPositions, Find, Lstop, CR.InAgreement, LR.Stands;
  }

  /** Acknowledging alone changes no byte of what is saved. */
  lemma {:induction false} AckSaves(d: Dump, m: Mark, s: seq<Byte>, id: int, bs: nat, sz: Sizes)
    requires 0 < bs && Attached(d, m, id, bs, sz) && Saved(d, m, s, bs, sz)
    ensures |d.ls.slots| == |m.p.readers| && Find(d.ls.slots, id) < |d.ls.slots|
    ensures var w := AfterWait(d, m, 0, 0, [], id, sz);
            var d' := Dump(w.ls, w.h, d.files, d.current);
            Attached(d', w.m, id, bs, sz) && Saved(d', w.m, s, bs, sz) && w.m.At() == m.At()
  {
    WaitAgrees(d, m, 0, 0, [], id, bs, sz);
    WaitKeepsPlace(d, m, 0, 0, [], id, bs, sz);
    hide Lstop, CR.OpPositions, Settle, CR.OpTrack, CR.InAgreement, Find;
  }

  /** What a stop leaves: the files and the file being written are the stream from the listener's start to
      `at`, of which `wr` bytes had been published. */
  ghost predicate StoppedAt(d: Dump, start: nat, at: nat, s: seq<Byte>, sz: Sizes) {
    && start <= at <= |s| && Flat(d.files) + d.current == s[start..at]
    && (forall f :: f in d.files ==> |f| == sz.file) && |d.current| <= sz.file
  }

  lemma SavedIsStopped(d: Dump, m: Mark, s: seq<Byte>, bs: nat, sz: Sizes)
    requires 0 < bs && Saved(d, m, s, bs, sz)
    ensures StoppedAt(d, m.start, m.At(), s, sz)
  {
  }

  lemma {:induction false} StopSavesBlock(
    cfg: Config, d: Dump, m: Mark, w: Waited, buf: seq<Byte>, s: seq<Byte>, id: int, bs: nat, sz: Sizes)
    requires BlocksOk(cfg, bs, sz) && Saved(d, m, s, bs, sz) && Waits(d, m, w, id, sz) && |buf| == sz.buffer
    requires Ready(cfg, w, Find(d.ls.slots, id), buf, s)
    ensures var more := w.h.avail >= bs && |d.current| < sz.file;
            var (h2, bytes) := if w.h.avail > 0 then WriteBlock(buf, w.h, Room(d, sz), bs, sz) else (w.h, []);
            var d1 := Dump(w.ls, h2, d.files, d.current + bytes);
            var m1 := if more then w.m.(t := w.m.t.(at := w.m.t.at + bs)) else w.m;
            && Attached(d1, m1, id, bs, sz) && Saved(d1, m1, s, bs, sz) && m1.start == m.start
            && m1.At() == m.At() + (if more then bs else 0)
  {
    hide CR.InAgreement, Find, Read, Shows, Stable, Flat;
    if w.h.avail >= bs && |d.current| < sz.file {
      RoomForBlock(|d.current|, sz.file, bs);
      BlockEnds(cfg, d, m, w, buf, s, id, bs, sz);
      WaitsStarted(d, m, w, bs, id, sz);
    } else {
      assert d.current + [] == d.current;
    }
  }

  lemma WaitsStarted(d: Dump, m: Mark, w: Waited, bs: nat, id: int, sz: Sizes)
    requires sz.Valid() && Waits(d, m, w, id, sz) && w.h.avail >= bs > 0
    ensures w.m.t.started
  {
    hide CR.InAgreement, Find;
  }

  lemma WaitsInBuffer(d: Dump, m: Mark, w: Waited, id: int, sz: Sizes)
    requires sz.Valid() && Waits(d, m, w, id, sz)
    ensures w.h.rdoff < sz.buffer && w.ls.InBuffer(sz.buffer)
  {
    hide CR.InAgreement, Find;
  }

  /** The program is stopped with a file open.  It announces all that is there as the final block, but writes
      a block of it only if there is a whole one and the file has room for it; the rest is never saved.
      All published bytes are in the files exactly if there were none left, or just one block with room. */
  lemma {:induction false} RemainderIsDropped(
    cfg: Config, d: Dump, m: Mark, buf: seq<Byte>, s: seq<Byte>, id: int, bs: nat, sz: Sizes)
    requires BlocksOk(cfg, bs, sz) && Attached(d, m, id, bs, sz) && Saved(d, m, s, bs, sz)
    requires StopFits(cfg, d, m, buf, s, id, bs, sz)
    ensures Fitting(d, bs, sz) && m.At() <= m.p.wr
    ensures var left, room := m.p.wr - m.At(), |d.current| < sz.file;
            var at := m.At() + (if left >= bs && room then bs else 0);
            && StoppedAt(Stopped(d, buf, id, bs, sz), m.start, at, s, sz)
            && (at == m.p.wr <==> left == 0 || (left == bs && room))
  {
    hide Attached, Saved, WriteBlock, Ready, Waits, Flat, Lstop, Settle, CR.OpPositions, CR.OpTrack, Find, StoppedAt;
    AttachedFits(d, m, id, bs, sz);
    StopAvailable(d, m, id, bs, sz);
    var w := AfterWait(d, m, 1, 0, [], id, sz);
    StopSavesBlock(cfg, d, m, w, buf, s, id, bs, sz);
    WaitsInBuffer(d, m, w, id, sz);
    StopIs(d, m, s, w, buf, id, bs, sz);
    var more := w.h.avail >= bs && |d.current| < sz.file;
    var (h2, bytes) := if w.h.avail > 0 then WriteBlock(buf, w.h, Room(d, sz), bs, sz) else (w.h, []);
    var d1 := Dump(w.ls, h2, d.files, d.current + bytes);
    var m1 := if more then w.m.(t := w.m.t.(at := w.m.t.at + bs)) else w.m;
    AttachedFits(d1, m1, id, bs, sz);
    AckSaves(d1, m1, s, id, bs, sz);
    AckKeepsStart(d1, m1, id, bs, sz);
    var w1 := AfterWait(d1, m1, 0, 0, [], id, sz);
    SavedIsStopped(Dump(w1.ls, w1.h, d1.files, d1.current), w1.m, s, bs, sz);
  }

  lemma AckKeepsStart(d: Dump, m: Mark, id: int, bs: nat, sz: Sizes)
    requires Attached(d, m, id, bs, sz)
    requires |d.ls.slots| == |m.p.readers| && Find(d.ls.slots, id) < |d.ls.slots|
    ensures AfterWait(d, m, 0, 0, [], id, sz).m.start == m.start
  {
    AttachedFits(d, m, id, bs, sz);
    CloseKeepsStart(d, m, id, bs, sz);
  }

  lemma {:induction false} StopIs(
    d: Dump, m: Mark, s: seq<Byte>, w: Waited, buf: seq<Byte>, id: int, bs: nat, sz: Sizes)
    requires Fitting(d, bs, sz) && |buf| == sz.buffer && Saved(d, m, s, bs, sz)
    requires |d.ls.slots| == |m.p.readers| && Find(d.ls.slots, id) < |d.ls.slots|
    requires w == AfterWait(d, m, 1, 0, [], id, sz) && w.h.rdoff < sz.buffer && w.ls.InBuffer(sz.buffer)
    ensures var (h2, bytes) := if w.h.avail > 0 then WriteBlock(buf, w.h, Room(d, sz), bs, sz) else (w.h, []);
            var d1 := Dump(w.ls, h2, d.files, d.current + bytes);
            forall m1: Mark :: |d1.ls.slots| == |m1.p.readers| && Find(d1.ls.slots, id) < |d1.ls.slots|
                               && Fitting(d1, bs, sz) ==>
              var w1 := AfterWait(d1, m1, 0, 0, [], id, sz);
              Stopped(d, buf, id, bs, sz) == Dump(w1.ls, w1.h, d1.files, d1.current)
  {
    hide Lstop, CR.OpPositions, Settle, CR.OpTrack, WriteBlock, Flat, Find;
  }

  /** Over a whole run that is then stopped. */
  lemma {:induction false} StoppedRun(
    cfg: Config, d: Dump, m: Mark, rounds: seq<Round>, buf: seq<Byte>, s: seq<Byte>, id: int, bs: nat, sz: Sizes)
    requires BlocksOk(cfg, bs, sz) && Attached(d, m, id, bs, sz) && Saved(d, m, s, bs, sz) && |d.current| < sz.file
    requires RunFits(cfg, d, m, rounds, s, id, bs, sz)
    requires Fitting(d, bs, sz) && forall i :: 0 <= i < |rounds| ==> RoundOk(rounds[i], sz)
    requires forall m' :: SavedFrom(Captured(d, rounds, id, bs, sz), m.start, m', s, id, bs, sz) ==>
               StopFits(cfg, Captured(d, rounds, id, bs, sz), m', buf, s, id, bs, sz)
    ensures |buf| == sz.buffer
    ensures exists m' ::
              && SavedFrom(Captured(d, rounds, id, bs, sz), m.start, m', s, id, bs, sz)
              && StoppedAt(Stopped(Captured(d, rounds, id, bs, sz), buf, id, bs, sz), m.start,
                           m'.At() + (if m'.p.wr - m'.At() >= bs then bs else 0), s, sz)
  {
    hide Attached, Saved, StopFits, Captured, Stopped, RunFits, StoppedAt;
    RunSaves(cfg, d, m, rounds, s, id, bs, sz);
    var d' := Captured(d, rounds, id, bs, sz);
    var m' :| SavedFrom(d', m.start, m', s, id, bs, sz);
    BufferThere(cfg, d', m', buf, s, id, bs, sz);
    RemainderIsDropped(cfg, d', m', buf, s, id, bs, sz);
  }

  lemma BufferThere(cfg: Config, d: Dump, m: Mark, buf: seq<Byte>, s: seq<Byte>, id: int, bs: nat, sz: Sizes)
    requires cfg.file > 0 && Attached(d, m, id, bs, sz) && StopFits(cfg, d, m, buf, s, id, bs, sz)
    ensures |buf| == sz.buffer
  {
  }
}
