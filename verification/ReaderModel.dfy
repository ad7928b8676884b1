/** Reading records back out of the circular buffer. */
module ReaderModel {
  import opened Cyclic
  import opened StreamLayout
  import opened FileLayout
  import opened RawRecord
  import opened CircularBuffer
  import opened ByteStream
  import opened FrameLog
  import opened HandleModel

  // ----- What the code reads -----

  /** n bytes at a buffer offset: in place, or through `copy_from_circ_buffer` into `scratch` when they
      go round the end. */
  function Fetch(reading: Reading, buf: seq<Byte>, off: nat, n: nat, scratch: seq<Byte>): (bs: seq<Byte>)
    requires off < |buf| && n <= |buf| && n <= |scratch|
    ensures |bs| == n
  {
    if off + n > |buf| then CopiedOut(reading, buf, off, scratch, n)[..n] else buf[off..off + n]
  }

  datatype Item = None | Item(head: Header, data: seq<Byte>)

  /** Where the two copies of one read go. */
  datatype Scratch = Scratch(head: seq<Byte>, data: seq<Byte>) {
    predicate Big(size: nat) {
      |head| == RAW_HLEN && |data| >= U16 && size >= U16
    }
  }

  /** `_hpcap_read_next`: the handle after it, and the record; for padding only the header is read. */
  function ReadNext(reading: Reading, buf: seq<Byte>, h: Handle, sc: Scratch, sz: Sizes): (Handle, Item)
    requires sz.Valid() && |buf| == sz.buffer && h.rdoff < sz.buffer && sc.Big(sz.buffer)
  {
    if h.avail < RAW_HLEN || h.avail <= h.acks || h.avail - RAW_HLEN < h.acks then (h, None)
    else
      var head := Decode(Fetch(reading, buf, h.rdoff, RAW_HLEN, sc.head));
      var h1 := AdvanceBy(h, RAW_HLEN, sz);
      var data := if head.IsPadding() then [] else Fetch(reading, buf, h1.rdoff, head.caplen, sc.data);
      var h2 := AdvanceBy(h1, head.caplen, sz);
      (h2.(acks := h2.acks + RAW_HLEN + head.caplen), Item(head, data))
  }

  /** The copy areas at each read, whatever they hold by then. */
  type Scratches = nat -> Scratch

  ghost predicate AllBig(sc: Scratches, size: nat) {
    forall n: nat :: sc(n).Big(size)
  }

  /** Reading on until nothing is returned, padding left out. */
  ghost function ReadAll(reading: Reading, buf: seq<Byte>, h: Handle, sc: Scratches, sz: Sizes): (Handle, seq<Frame>)
    requires sz.Valid() && |buf| == sz.buffer && h.rdoff < sz.buffer && AllBig(sc, sz.buffer)
    decreases h.avail - h.acks
  {
    var (h', item) := ReadNext(reading, buf, h, sc(h.acks), sz);
    if item.None? then (h, [])
    else
      var (last, rest) := ReadAll(reading, buf, h', sc, sz);
      (last, (if item.head.IsPadding() then [] else [FrameOf(item)]) + rest)
  }

  function FrameOf(item: Item): Frame
    requires item.Item?
  {
    Frame(item.head.sec, item.head.nsec, item.head.len, item.data)
  }

  // ----- What stands in the buffer -----

  /** Reading it in place or by the copy as documented gives the bytes of the range. */
  predicate InOnePiece(reading: Reading, size: nat, x: nat, n: nat)
    requires size > 0
  {
    reading.AsDocumented? || x % size + n <= size
  }

  lemma {:induction false} FetchIsRead(reading: Reading, buf: seq<Byte>, off: nat, n: nat, scratch: seq<Byte>)
    requires off < |buf| && n <= |buf| && n <= |scratch|
    requires reading.AsDocumented? || off + n <= |buf|
    ensures Fetch(reading, buf, off, n, scratch) == Read(buf, off, n)
  {
    CopyRight(reading, buf, off, scratch, n);
    ReadAcrossEnd(buf, off, n);
    hide CopiedOut, Read;
  }

  lemma {:induction false} ReadShows(buf: seq<Byte>, s: seq<Byte>, from: nat, x: nat, n: nat)
    requires Shows(buf, s, from) && from <= x && x + n <= |s|
    ensures Read(buf, x % |buf|, n) == s[x..x + n]
  {
    hide At;
    var off := x % |buf|;
    forall k | 0 <= k < n ensures Read(buf, off, n)[k] == s[x + k] {
      AtWrapped(buf, x, k);
    }
  }

  lemma AtWrapped(buf: seq<Byte>, x: nat, k: nat)
    requires |buf| > 0
    ensures At(buf, x % |buf| + k) == At(buf, x + k)
  {
    AddWrapped(x, k, |buf|);
  }

  lemma {:induction false} FetchShows(
    reading: Reading, buf: seq<Byte>, s: seq<Byte>, from: nat, x: nat, n: nat, scratch: seq<Byte>)
    requires Shows(buf, s, from) && from <= x && x + n <= |s|
    requires n <= |buf| && n <= |scratch| && InOnePiece(reading, |buf|, x, n)
    ensures Fetch(reading, buf, x % |buf|, n, scratch) == s[x..x + n]
  {
    hide Fetch, Read, At;
    ReadShows(buf, s, from, x, n);
    FetchIsRead(reading, buf, x % |buf|, n, scratch);
  }

  /** The parts of a record that are read: its header and, of a frame, its data. */
  predicate Readable(reading: Reading, size: nat, r: Record)
    requires size > 0 && r.size >= RAW_HLEN
  {
    && InOnePiece(reading, size, r.pos, RAW_HLEN)
    && (!r.padding ==> InOnePiece(reading, size, r.pos + RAW_HLEN, r.size - RAW_HLEN))
  }

  function HeadOf(e: Entry): Header
    requires e.record.size >= RAW_HLEN
  {
    if e.record.padding then PaddingHeader(e.record.size) else e.frame.Head()
  }

  /** What the log says of one entry. */
  ghost predicate Entered(s: seq<Byte>, e: Entry) {
    && EntryHolds(s, e)
    && (e.record.padding || (e.frame.sec > 0 && e.record.size == e.frame.Size()))
  }

  /** One read at the start of a logged record returns its header and its bytes, moves to the record's
      end, and counts exactly its size. */
  lemma {:induction false} ReadsEntry(
    reading: Reading, buf: seq<Byte>, s: seq<Byte>, from: nat, e: Entry, h: Handle, sc: Scratch, sz: Sizes)
    requires sz.Valid() && |buf| == sz.buffer && sc.Big(sz.buffer)
    requires Shows(buf, s, from) && from <= e.record.pos && Entered(s, e)
    requires Readable(reading, sz.buffer, e.record)
    requires h.rdoff == e.record.pos % sz.buffer && h.acks + RAW_HLEN <= h.avail
    ensures var (h', item) := ReadNext(reading, buf, h, sc, sz);
            && item.Item? && item.head == HeadOf(e)
            && item.head.IsPadding() == e.record.padding
            && (if e.record.padding then item.data == [] else FrameOf(item) == e.frame)
            && h'.rdoff == e.record.End() % sz.buffer
            && h'.acks == h.acks + e.record.size && h'.avail == h.avail
  {
    hide Fetch, Shows, EntryHolds, Decode;
    var x := e.record.pos;
    HeadStands(s, e);
    FetchShows(reading, buf, s, from, x, RAW_HLEN, sc.head);
    AddWrapped(x, RAW_HLEN, sz.buffer);
    AddWrapped(x + RAW_HLEN, e.record.size - RAW_HLEN, sz.buffer);
    if !e.record.padding {
      FetchShows(reading, buf, s, from, x + RAW_HLEN, |e.frame.data|, sc.data);
    }
  }

  /** Nothing is returned, and nothing changes, exactly when fewer than the twelve bytes of a header are
      available and not yet to be acknowledged. */
  lemma ReadsNothingIff(reading: Reading, buf: seq<Byte>, h: Handle, sc: Scratch, sz: Sizes)
    requires sz.Valid() && |buf| == sz.buffer && h.rdoff < sz.buffer && sc.Big(sz.buffer)
    ensures var (h', item) := ReadNext(reading, buf, h, sc, sz);
            && (item.None? <==> h.avail < h.acks + 12)
            && (item.None? ==> h' == h)
  {
    hide Fetch, Decode, AdvanceBy;
  }

  lemma {:induction false} HeadStands(s: seq<Byte>, e: Entry)
    requires Entered(s, e)
    ensures e.record.pos + RAW_HLEN <= |s|
    ensures Decode(s[e.record.pos..e.record.pos + RAW_HLEN]) == HeadOf(e)
    ensures HeadOf(e).IsPadding() == e.record.padding && HeadOf(e).caplen == e.record.size - RAW_HLEN
    ensures !e.record.padding ==>
              && e.record.End() <= |s|
              && s[e.record.pos + RAW_HLEN..e.record.pos + RAW_HLEN + |e.frame.data|] == e.frame.data
  {
    var put := PutOf(e.record, e.frame);
    var x := e.record.pos;
    DecodeEncode(HeadOf(e));
    hide Decode, Encode;
    assert put.bytes[..RAW_HLEN] == Encode(HeadOf(e));
    assert s[x..x + RAW_HLEN] == s[x..put.End()][..RAW_HLEN];
    if !e.record.padding {
      assert put.bytes[RAW_HLEN..] == e.frame.data;
      assert s[x + RAW_HLEN..put.End()] == s[x..put.End()][RAW_HLEN..];
    }
  }

  // ----- The whole log -----

  lemma {:induction false} LogEntry(cfg: Config, trips: seq<Frame>, i: nat)
    requires cfg.Valid() && (forall k :: 0 <= k < |trips| ==> trips[k].Fits(cfg)) && i < |Log(cfg, trips)|
    ensures var e := Log(cfg, trips)[i];
            e.record.padding || (e.frame.sec > 0 && e.record.size == e.frame.Size())
  {
    var before, frame := trips[..|trips| - 1], trips[|trips| - 1];
    if i < |Log(cfg, before)| {
      LogEntry(cfg, before, i);
    } else {
      TripEntry(cfg, Reserved(before), frame, i - |Log(cfg, before)|);
    }
  }

  lemma TripEntry(cfg: Config, p: nat, frame: Frame, k: nat)
    requires cfg.Valid() && frame.Fits(cfg) && k < |Reserve(cfg, p, frame.Size())|
    ensures var r := Reserve(cfg, p, frame.Size())[k]; r.padding || r.size == frame.Size()
  {
    hide PadLength;
  }

  /** The log as the reader meets it: entries end to end, each standing in the stream. */
  ghost predicate Chained(s: seq<Byte>, es: seq<Entry>, i: nat, end: nat)
    requires i <= |es|
    decreases |es| - i
  {
    if i == |es| then true
    else
      && Entered(s, es[i])
      && es[i].record.pos + RAW_HLEN <= end
      && (i + 1 < |es| ==> es[i].record.End() == es[i + 1].record.pos)
      && Chained(s, es, i + 1, end)
  }

  ghost predicate Linked(s: seq<Byte>, es: seq<Entry>, i: nat, end: nat)
    requires i < |es|
  {
    && Entered(s, es[i])
    && es[i].record.pos + RAW_HLEN <= end
    && (i + 1 < |es| ==> es[i].record.End() == es[i + 1].record.pos)
  }

  lemma {:induction false} ChainFrom(s: seq<Byte>, es: seq<Entry>, i: nat, end: nat)
    requires i <= |es| && forall k :: i <= k < |es| ==> Linked(s, es, k, end)
    ensures Chained(s, es, i, end)
    decreases |es| - i
  {
    hide Entered;
    if i < |es| {
      ChainFrom(s, es, i + 1, end);
      assert Linked(s, es, i, end);
    }
  }

  lemma {:induction false} LogChained(cfg: Config, t: Tape, i: nat)
    requires Recorded(cfg, t) && i <= |Log(cfg, t.trips)|
    ensures Chained(t.stream, Log(cfg, t.trips), i, Reserved(t.trips))
  {
    forall k | i <= k < |Log(cfg, t.trips)|
      ensures Linked(t.stream, Log(cfg, t.trips), k, Reserved(t.trips))
    {
      LogLinks(cfg, t, k);
      LogEntered(cfg, t, k);
      hide Log, Reserved, Cover, Entered;
    }
    ChainFrom(t.stream, Log(cfg, t.trips), i, Reserved(t.trips));
  }

  lemma {:induction false} LogEntered(cfg: Config, t: Tape, i: nat)
    requires Recorded(cfg, t) && i < |Log(cfg, t.trips)|
    ensures Entered(t.stream, Log(cfg, t.trips)[i])
  {
    LogEntry(cfg, t.trips, i);
    hide Log, EntryHolds, Stable, Shows, LaidOut, Reserved;
  }

  /** Neighbours touch, and no header lies beyond what is reserved. */
  lemma {:induction false} LogLinks(cfg: Config, t: Tape, i: nat)
    requires Recorded(cfg, t) && i < |Log(cfg, t.trips)|
    ensures var es := Log(cfg, t.trips);
            && es[i].record.pos + RAW_HLEN <= Reserved(t.trips)
            && (i + 1 < |es| ==> es[i].record.End() == es[i + 1].record.pos)
            && (i + 1 == |es| ==> es[i].record.End() == Cover(cfg, Reserved(t.trips)))
  {
    var ws := TripSizes(t.trips);
    var rs := Emitted(cfg, ws);
    LogIsEmitted(cfg, t.trips);
    StreamTiles(cfg, ws);
    hide Emitted, Tiled, Cover, Exposed, Log, RecordOk;
    forall r | r in rs ensures r.size > 0 {
      EmittedOk(cfg, ws, r);
      OkHasSize(cfg, r);
    }
    TiledAt(rs, 0, Cover(cfg, Total(ws)), i);
    EmittedOk(cfg, ws, rs[i]);
    if i + 1 < |rs| {
      assert Log(cfg, t.trips)[i + 1].record == rs[i + 1];
    }
  }

  /** Where entry i starts; the end of the log for i == |es|. */
  function StartOf(es: seq<Entry>, i: nat, end: nat): nat
    requires i <= |es|
  {
    if i < |es| then es[i].record.pos else end
  }

  lemma {:induction false} FramesFront(es: seq<Entry>, i: nat)
    requires i < |es|
    ensures Frames(es[i..]) == (if es[i].record.padding then [] else [es[i].frame]) + Frames(es[i + 1..])
  {
    assert es[i..] == [es[i]] + es[i + 1..];
    FramesAppend([es[i]], es[i + 1..]);
    assert [es[i]][..0] == [];
    assert Frames([es[i]]) == (if es[i].record.padding then [] else [es[i].frame]);
  }

  /** From the start of any entry on, reading until nothing more is returned gives exactly the frames of
      the rest of the log, and acknowledges exactly the bytes from there to the end of the log. */
  lemma {:induction false} ReadsChain(
    reading: Reading, buf: seq<Byte>, s: seq<Byte>, from: nat, es: seq<Entry>, i: nat, wr: nat, end: nat,
    h: Handle, sc: Scratches, sz: Sizes)
    requires sz.Valid() && |buf| == sz.buffer && AllBig(sc, sz.buffer) && Shows(buf, s, from)
    requires i <= |es| && Chained(s, es, i, wr)
    requires i < |es| ==> from <= es[i].record.pos && es[|es| - 1].record.End() == end
    requires wr < end + RAW_HLEN
    requires forall k :: i <= k < |es| ==> es[k].record.size >= RAW_HLEN && Readable(reading, sz.buffer, es[k].record)
    requires h.rdoff == StartOf(es, i, end) % sz.buffer
    requires h.avail - h.acks == wr - StartOf(es, i, end)
    ensures h.rdoff < sz.buffer
    ensures var (h', frames) := ReadAll(reading, buf, h, sc, sz);
            && frames == Frames(es[i..])
            && h'.acks == h.acks + (end - StartOf(es, i, end))
            && h'.rdoff == end % sz.buffer && h'.avail == h.avail
    decreases |es| - i
  {
    if i == |es| {
      assert es[i..] == [];
    } else {
      var e := es[i];
      ReadsEntry(reading, buf, s, from, e, h, sc(h.acks), sz);
      FramesFront(es, i);
      var (h', item) := ReadNext(reading, buf, h, sc(h.acks), sz);
      hide ReadNext, Readable, Frames, Entered;
      ReadsChain(reading, buf, s, from, es, i + 1, wr, end, h', sc, sz);
    }
  }

  /** The round trip.  A handle at the start of a logged record, with everything the driver has reserved
      available to it, reads back exactly the stored frames from there on: header, length and bytes, in
      order, each once.  The bytes it will acknowledge run to the end of the last record written. */
  lemma {:induction false} ReadBack(
    cfg: Config, t: Tape, reading: Reading, i: nat, h: Handle, sc: Scratches, sz: Sizes)
    requires Recorded(cfg, t) && sz.Valid() && sz.buffer == cfg.buffer && AllBig(sc, sz.buffer)
    requires var es := Log(cfg, t.trips);
             && i < |es| && t.from <= es[i].record.pos <= Reserved(t.trips)
             && (forall k :: i <= k < |es| ==> es[k].record.size >= RAW_HLEN && Readable(reading, sz.buffer,
                 es[k].record))
             && h.rdoff == es[i].record.pos % sz.buffer
             && h.avail - h.acks == Reserved(t.trips) - es[i].record.pos
    ensures h.rdoff < sz.buffer
    ensures var start := Log(cfg, t.trips)[i].record.pos;
            var (h', frames) := ReadAll(reading, t.buf, h, sc, sz);
            && frames == Frames(Log(cfg, t.trips)[i..])
            && h'.acks == h.acks + (Cover(cfg, Reserved(t.trips)) - start)
  {
    var es := Log(cfg, t.trips);
    var wr := Reserved(t.trips);
    LogChained(cfg, t, i);
    LogLinks(cfg, t, |es| - 1);
    CoverNear(cfg, wr);
    hide Log, Reserved, Cover, Chained, LaidOut, EntryHolds, Stable;
    ReadsChain(reading, t.buf, t.stream, t.from, es, i, wr, Cover(cfg, wr), h, sc, sz);
  }

  lemma CoverNear(cfg: Config, p: nat)
    requires cfg.Valid()
    ensures Cover(cfg, p) < p + RAW_HLEN && p < Cover(cfg, p) + RAW_HLEN
    ensures Cover(cfg, p) == p <==> p % cfg.file == 0 || RAW_HLEN <= p % cfg.file <= cfg.file - RAW_HLEN
    ensures Cover(cfg, p) > p <==> p % cfg.file + RAW_HLEN > cfg.file
  {
  }

  /** What has been read is what was reserved exactly when the reservations stop away from a file
      boundary.  In the last eleven bytes of a file the padding read runs past what the driver has
      pushed: the count of read bytes passes the available ones, and the next acknowledgement is the
      library's fatal error. */
  lemma {:induction false} ReadsAllReserved(
    cfg: Config, t: Tape, reading: Reading, i: nat, h: Handle, sc: Scratches, sz: Sizes)
    requires Recorded(cfg, t) && sz.Valid() && sz.buffer == cfg.buffer && AllBig(sc, sz.buffer)
    requires var es := Log(cfg, t.trips);
             && i < |es| && t.from <= es[i].record.pos <= Reserved(t.trips)
             && (forall k :: i <= k < |es| ==> es[k].record.size >= RAW_HLEN && Readable(reading, sz.buffer,
                 es[k].record))
             && h.rdoff == es[i].record.pos % sz.buffer
             && h.avail - h.acks == Reserved(t.trips) - es[i].record.pos
    ensures h.rdoff < sz.buffer
    ensures var f := Reserved(t.trips) % cfg.file;
            var last := ReadAll(reading, t.buf, h, sc, sz).0;
            && (last.acks - h.acks == Reserved(t.trips) - Log(cfg, t.trips)[i].record.pos
                <==> f == 0 || RAW_HLEN <= f <= cfg.file - RAW_HLEN)
            && (last.acks > last.avail <==> f + RAW_HLEN > cfg.file)
  {
    ReadBack(cfg, t, reading, i, h, sc, sz);
    CoverNear(cfg, Reserved(t.trips));
    KeepsAvail(reading, t.buf, h, sc, sz);
    hide Log, Reserved, Cover, Recorded, Readable, ReadAll;
  }

  lemma {:induction false} KeepsAvail(reading: Reading, buf: seq<Byte>, h: Handle, sc: Scratches, sz: Sizes)
    requires sz.Valid() && |buf| == sz.buffer && h.rdoff < sz.buffer && AllBig(sc, sz.buffer)
    ensures ReadAll(reading, buf, h, sc, sz).0.avail == h.avail
    decreases h.avail - h.acks
  {
    hide Fetch, Decode;
    var (h', item) := ReadNext(reading, buf, h, sc(h.acks), sz);
    if item.Item? {
      KeepsAvail(reading, buf, h', sc, sz);
    }
  }

  /** Where a buffer holds whole files, no record goes round its end, so the code's copy is never used
      where it is wrong. */
  lemma {:induction false} WholeFilesReadable(cfg: Config, t: Tape, reading: Reading, k: nat)
    requires Recorded(cfg, t) && cfg.buffer % cfg.file == 0 && k < |Log(cfg, t.trips)|
    ensures Log(cfg, t.trips)[k].record.size >= RAW_HLEN
    ensures Readable(reading, cfg.buffer, Log(cfg, t.trips)[k].record)
  {
    var ws := TripSizes(t.trips);
    LogIsEmitted(cfg, t.trips);
    var r := Emitted(cfg, ws)[k];
    EmittedOk(cfg, ws, r);
    hide Emitted, Log, LaidOut;
    OkReadable(cfg, r, reading);
  }

  lemma {:induction false} OkReadable(cfg: Config, r: Record, reading: Reading)
    requires cfg.Valid() && RecordOk(cfg, r) && cfg.buffer % cfg.file == 0
    ensures Readable(reading, cfg.buffer, r)
  {
    var F, B := cfg.file, cfg.buffer;
    var o := r.pos % B;
    ModOfMultiple(r.pos, B, F);
    assert o % F == r.pos % F;
    // o lies in the file that starts at o - o % F, which ends inside the buffer.
    DivModExpand(o, F);
    DivModExpand(B, F);
    var k, n := o / F, B / F;
    if k >= n {
      MulOrder(n, k, F);
      assert false;
    }
    MulOrder(k, n, F);
    assert o + r.size <= B;
    AddWrapped(r.pos, RAW_HLEN, B);
    if r.size > RAW_HLEN {
      DivModUnique(o + RAW_HLEN, 0, o + RAW_HLEN, B);
    }
  }
}
