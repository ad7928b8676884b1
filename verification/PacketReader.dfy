/** `hpcap_read_packet`: the next frame, past any padding. */
module PacketReader {
  import opened Cyclic
  import opened StreamLayout
  import opened FileLayout
  import opened RawRecord
  import opened CircularBuffer
  import opened ByteStream
  import opened FrameLog
  import opened HandleModel
  import opened ClientHandle
  import opened ReaderModel
  import opened Reader

  const MAX_PADDINGS := 4

  datatype Packet = TooManyAcks | TooFewBytes | GaveUp | Packet(head: Header, data: seq<Byte>)

  /** Where the loop over padding ends: at the header of a frame, or nowhere. */
  datatype Skipped = Lost | Found(h: Handle, offs: nat, acks: nat, head: Header)

  function SkipPadding(reading: Reading, buf: seq<Byte>, h: Handle, offs: nat, acks: nat, paddings: nat,
                       rawh: seq<Byte>, sz: Sizes): (s: Skipped)
    requires sz.Valid() && |buf| == sz.buffer >= U16 && h.rdoff < sz.buffer && offs < sz.buffer
    requires |rawh| == RAW_HLEN
    ensures s.Found? ==> s.h.rdoff < sz.buffer && s.offs < sz.buffer && s.head.Fits()
    decreases MAX_PADDINGS - paddings
  {
    if paddings >= MAX_PADDINGS then Lost
    else
      var rawh' := CopiedOut(reading, buf, offs, rawh, RAW_HLEN);
      var head := Decode(rawh');
      var offs1, acks1 := (offs + RAW_HLEN) % sz.buffer, acks + RAW_HLEN;
      if h.avail < h.acks + acks1 + head.caplen then Lost
      else if head.sec == 0 then
        var offs2, acks2 := (offs1 + head.caplen) % sz.buffer, acks1 + head.caplen;
        if h.avail < h.acks + acks2 + RAW_HLEN then Lost
        else SkipPadding(reading, buf, AdvanceTo(h, offs2, sz), offs2, acks2, paddings + 1, rawh', sz)
      else Found(h, offs1, acks1, head)
  }

  /** The function for callers that want the header in fields; rawh is what the local header variable
      holds at first. */
  function ReadPacket(reading: Reading, buf: seq<Byte>, h: Handle, rawh: seq<Byte>, aux: seq<Byte>, sz: Sizes):
      (Handle, Packet)
    requires sz.Valid() && |buf| == sz.buffer >= U16 && h.rdoff < sz.buffer && |aux| >= U16
    requires |rawh| == RAW_HLEN
  {
    if h.acks >= h.avail then (h, TooManyAcks)
    else if h.avail < RAW_HLEN then (h, TooFewBytes)
    else
      var s := SkipPadding(reading, buf, h, h.rdoff, 0, 0, rawh, sz);
      if s.Lost? then (h, GaveUp)
      else
        var data := Fetch(reading, buf, s.offs, s.head.caplen, aux);
        var h' := AdvanceTo(s.h, (s.offs + s.head.caplen) % sz.buffer, sz);
        (h'.(acks := h'.acks + s.acks + s.head.caplen), Packet(s.head, data))
  }

  /** The test for padding names `sec` twice; the documented one also asks for `nsec`.  They differ
      exactly on a header with a time of zero seconds and some nanoseconds. */
  lemma PaddingTestsAgreeIff(head: Header)
    ensures (head.sec == 0) == head.IsPadding() <==> !(head.sec == 0 && head.nsec != 0)
  {
  }

  /** On every record the driver lays, the two tests agree, and with what the record is. */
  lemma {:induction false} LogTestsAgree(cfg: Config, t: Tape, i: nat)
    requires Recorded(cfg, t) && i < |Log(cfg, t.trips)|
    ensures var e := Log(cfg, t.trips)[i];
            && RAW_HLEN <= e.record.size
            && (HeadOf(e).sec == 0) == HeadOf(e).IsPadding() == e.record.padding
  {
    var e := Log(cfg, t.trips)[i];
    LogEntered(cfg, t, i);
    HeadStands(t.stream, e);
    HeadTold(t.stream, e);
    hide Recorded, Log;
  }

  lemma AdvanceToOffset(h: Handle, offset: nat, sz: Sizes)
    requires sz.Valid() && h.rdoff < sz.buffer && offset < sz.buffer
    ensures var h' := AdvanceTo(h, offset, sz);
            h'.rdoff == offset && h'.avail == h.avail && h'.acks == h.acks
  {
    if offset >= h.rdoff {
      DivModUnique(offset, 0, offset, sz.buffer);
    } else {
      DivModUnique(sz.buffer + offset, 1, offset, sz.buffer);
    }
  }

  lemma HeadTold(s: seq<Byte>, e: Entry)
    requires Entered(s, e)
    ensures HeadOf(e).sec == 0 <==> e.record.padding
  {
    hide Holds, PutOf;
  }

  lemma WholeCopy(reading: Reading, buf: seq<Byte>, off: nat, rawh: seq<Byte>)
    requires off < |buf| && RAW_HLEN <= |buf| && |rawh| == RAW_HLEN
    ensures CopiedOut(reading, buf, off, rawh, RAW_HLEN)[..RAW_HLEN] == CopiedOut(reading, buf, off, rawh, RAW_HLEN)
  {
  }

  /** One header at the start of a logged record. */
  lemma {:induction false} HeaderRead(
    reading: Reading, buf: seq<Byte>, s: seq<Byte>, from: nat, e: Entry, rawh: seq<Byte>)
    requires U16 <= |buf| && |rawh| == RAW_HLEN && Shows(buf, s, from) && from <= e.record.pos && Entered(s, e)
    requires Readable(reading, |buf|, e.record)
    ensures Decode(CopiedOut(reading, buf, e.record.pos % |buf|, rawh, RAW_HLEN)) == HeadOf(e)
    ensures HeadOf(e).sec == 0 <==> e.record.padding
    ensures HeadOf(e).caplen == e.record.size - RAW_HLEN
    ensures (e.record.pos % |buf| + RAW_HLEN) % |buf| == (e.record.pos + RAW_HLEN) % |buf|
    ensures ((e.record.pos + RAW_HLEN) % |buf| + HeadOf(e).caplen) % |buf| == e.record.End() % |buf|
  {
    hide Read, CopiedOut, Decode, HeadOf, Shows, EntryHolds;
    HeadStands(s, e);
    HeadTold(s, e);
    ReadShows(buf, s, from, e.record.pos, RAW_HLEN);
    CopyRight(reading, buf, e.record.pos % |buf|, rawh, RAW_HLEN);
    WholeCopy(reading, buf, e.record.pos % |buf|, rawh);
    AddWrapped(e.record.pos, RAW_HLEN, |buf|);
    AddWrapped(e.record.pos + RAW_HLEN, e.record.size - RAW_HLEN, |buf|);
  }

  /** The records i..j - 1 are padding and j is a frame. */
  predicate NextFrame(es: seq<Entry>, i: nat, j: nat) {
    && i <= j < |es|
    && !es[j].record.padding
    && forall k :: i <= k < j ==> es[k].record.padding
  }

  ghost predicate AllReadable(reading: Reading, es: seq<Entry>, size: nat)
    requires size > 0
  {
    forall k :: 0 <= k < |es| ==> es[k].record.size >= RAW_HLEN && Readable(reading, size, es[k].record)
  }

  lemma ChainHead(s: seq<Byte>, es: seq<Entry>, i: nat, wr: nat)
    requires i < |es| && Chained(s, es, i, wr)
    ensures Entered(s, es[i])
    ensures i + 1 < |es| ==> es[i].record.End() == es[i + 1].record.pos && Chained(s, es, i + 1, wr)
  {
  }

  lemma SkipIs(reading: Reading, buf: seq<Byte>, h: Handle, offs: nat, acks: nat, paddings: nat, rawh: seq<Byte>,
               sz: Sizes)
    requires sz.Valid() && |buf| == sz.buffer >= U16 && h.rdoff < sz.buffer && offs < sz.buffer
    requires |rawh| == RAW_HLEN && paddings <= MAX_PADDINGS
    ensures SkipPadding(reading, buf, h, offs, acks, paddings, rawh, sz) ==
              if paddings >= MAX_PADDINGS then Lost
              else
                var rawh' := CopiedOut(reading, buf, offs, rawh, RAW_HLEN);
                var head := Decode(rawh');
                var offs1, acks1 := (offs + RAW_HLEN) % sz.buffer, acks + RAW_HLEN;
                if h.avail < h.acks + acks1 + head.caplen then Lost
                else if head.sec == 0 then
                  var offs2, acks2 := (offs1 + head.caplen) % sz.buffer, acks1 + head.caplen;
                  if h.avail < h.acks + acks2 + RAW_HLEN then Lost
                  else SkipPadding(reading, buf, AdvanceTo(h, offs2, sz), offs2, acks2, paddings + 1, rawh', sz)
                else Found(h, offs1, acks1, head)
  {
    hide CopiedOut, Decode, AdvanceTo;
  }

  /** One trip of the loop at a logged record. */
  lemma {:induction false} SkipsOne(
    reading: Reading, buf: seq<Byte>, s: seq<Byte>, from: nat, e: Entry, h: Handle, acks: nat, paddings: nat,
    rawh: seq<Byte>, sz: Sizes)
    requires sz.Valid() && |buf| == sz.buffer >= U16 && h.rdoff < sz.buffer && Shows(buf, s, from)
    requires |rawh| == RAW_HLEN
    requires from <= e.record.pos && Entered(s, e) && Readable(reading, |buf|, e.record) && paddings < MAX_PADDINGS
    requires h.avail - h.acks - acks >= e.record.size + (if e.record.padding then RAW_HLEN else 0)
    ensures var r := SkipPadding(reading, buf, h, e.record.pos % sz.buffer, acks, paddings, rawh, sz);
            var offs2 := e.record.End() % sz.buffer;
            if e.record.padding then
              r == SkipPadding(reading, buf, AdvanceTo(h, offs2, sz), offs2, acks + e.record.size, paddings + 1,
                               CopiedOut(reading, buf, e.record.pos % sz.buffer, rawh, RAW_HLEN), sz)
            else
              r == Found(h, (e.record.pos + RAW_HLEN) % sz.buffer, acks + RAW_HLEN, HeadOf(e))
  {
    hide SkipPadding, CopiedOut, Decode, AdvanceTo, Entered, Readable, Shows, HeadOf;
    HeaderRead(reading, buf, s, from, e, rawh);
    SkipIs(reading, buf, h, e.record.pos % sz.buffer, acks, paddings, rawh, sz);
  }

  /** The loop over padding arrives at the frame. */
  lemma {:induction false} SkipsTo(
    reading: Reading, buf: seq<Byte>, s: seq<Byte>, from: nat, es: seq<Entry>, i: nat, j: nat, wr: nat,
    h: Handle, acks: nat, paddings: nat, rawh: seq<Byte>, sz: Sizes)
    requires sz.Valid() && |buf| == sz.buffer >= U16 && h.rdoff < sz.buffer && Shows(buf, s, from)
    requires |rawh| == RAW_HLEN
    requires i <= |es| && Chained(s, es, i, wr) && NextFrame(es, i, j) && AllReadable(reading, es, sz.buffer)
    requires from <= es[i].record.pos <= es[j].record.pos && paddings + (j - i) < 4
    requires h.avail - h.acks - acks >= es[j].record.End() - es[i].record.pos
    ensures var offs := es[i].record.pos % sz.buffer;
            var r := SkipPadding(reading, buf, h, offs, acks, paddings, rawh, sz);
            && r.Found? && r.head == HeadOf(es[j])
            && r.offs == (es[j].record.pos + RAW_HLEN) % sz.buffer
            && r.acks == acks + (es[j].record.pos - es[i].record.pos) + RAW_HLEN
            && r.h.acks == h.acks && r.h.avail == h.avail
    decreases j - i
  {
    hide SkipPadding, CopiedOut, AdvanceTo, Entered, Readable, Shows, HeadOf, Chained;
    var e := es[i];
    ChainHead(s, es, i, wr);
    if i < j {
      LaterStart(s, es, i + 1, j, wr);
      var offs2 := e.record.End() % sz.buffer;
      AdvanceToOffset(h, offs2, sz);
      SkipsOne(reading, buf, s, from, e, h, acks, paddings, rawh, sz);
      SkipsTo(reading, buf, s, from, es, i + 1, j, wr, AdvanceTo(h, offs2, sz), acks + e.record.size, paddings + 1,
              CopiedOut(reading, buf, e.record.pos % sz.buffer, rawh, RAW_HLEN), sz);
    } else {
      SkipsOne(reading, buf, s, from, e, h, acks, paddings, rawh, sz);
    }
  }

  lemma {:induction false} LaterStart(s: seq<Byte>, es: seq<Entry>, i: nat, j: nat, wr: nat)
    requires i <= j < |es| && Chained(s, es, i, wr)
    ensures es[i].record.pos <= es[j].record.pos
    ensures Entered(s, es[j])
    decreases j - i
  {
    if i < j {
      LaterStart(s, es, i + 1, j, wr);
    }
  }

  /** With the next frame available, the function returns its header and its bytes and acknowledges
      exactly the padding it skipped and the frame; the abort on too many paddings is never reached. */
  lemma {:induction false} ReturnsNextFrame(
    cfg: Config, t: Tape, reading: Reading, i: nat, j: nat, h: Handle, rawh: seq<Byte>, aux: seq<Byte>, sz: Sizes)
    requires Recorded(cfg, t) && sz.Valid() && sz.buffer == cfg.buffer >= U16 && h.rdoff < sz.buffer && |aux| >= U16
    requires |rawh| == RAW_HLEN
    requires var es := Log(cfg, t.trips);
             && NextFrame(es, i, j) && AllReadable(reading, es, sz.buffer)
             && t.from <= es[i].record.pos && h.rdoff == es[i].record.pos % sz.buffer
             && h.avail - h.acks >= es[j].record.End() - es[i].record.pos
    ensures var es := Log(cfg, t.trips);
            var (h', got) := ReadPacket(reading, t.buf, h, rawh, aux, sz);
            && got == Packet(es[j].frame.Head(), es[j].frame.data)
            && h'.rdoff == es[j].record.End() % sz.buffer
            && h'.acks == h.acks + (es[j].record.End() - es[i].record.pos) && h'.avail == h.avail
  {
    var es := Log(cfg, t.trips);
    LogChained(cfg, t, i);
    FewPaddings(cfg, t, i, j);
    LaterStart(t.stream, es, i, j, Reserved(t.trips));
    PacketOf(reading, t.buf, t.stream, t.from, es, i, j, Reserved(t.trips), h, rawh, aux, sz);
  }

  lemma {:induction false} PacketOf(
    reading: Reading, buf: seq<Byte>, s: seq<Byte>, from: nat, es: seq<Entry>, i: nat, j: nat, wr: nat,
    h: Handle, rawh: seq<Byte>, aux: seq<Byte>, sz: Sizes)
    requires sz.Valid() && |buf| == sz.buffer >= U16 && h.rdoff < sz.buffer && |aux| >= U16 && Shows(buf, s, from)
    requires |rawh| == RAW_HLEN
    requires i <= |es| && Chained(s, es, i, wr) && NextFrame(es, i, j) && AllReadable(reading, es, sz.buffer)
    requires from <= es[i].record.pos <= es[j].record.pos && j - i < 4 && Entered(s, es[j])
    requires h.rdoff == es[i].record.pos % sz.buffer
    requires h.avail - h.acks >= es[j].record.End() - es[i].record.pos
    ensures var (h', got) := ReadPacket(reading, buf, h, rawh, aux, sz);
            && got == Packet(es[j].frame.Head(), es[j].frame.data)
            && h'.rdoff == es[j].record.End() % sz.buffer
            && h'.acks == h.acks + (es[j].record.End() - es[i].record.pos) && h'.avail == h.avail
  {
    hide SkipPadding, Fetch, AdvanceTo, Entered, Chained, Shows, EntryHolds;
    var e := es[j];
    var x := e.record.pos + RAW_HLEN;
    SkipsTo(reading, buf, s, from, es, i, j, wr, h, 0, 0, rawh, sz);
    HeadStands(s, e);
    FetchShows(reading, buf, s, from, x, |e.frame.data|, aux);
    AddWrapped(x, |e.frame.data|, sz.buffer);
    var sk := SkipPadding(reading, buf, h, h.rdoff, 0, 0, rawh, sz);
    AdvanceToOffset(sk.h, e.record.End() % sz.buffer, sz);
  }

  lemma {:induction false} FewPaddings(cfg: Config, t: Tape, i: nat, j: nat)
    requires Recorded(cfg, t) && NextFrame(Log(cfg, t.trips), i, j)
    ensures j - i <= 2
  {
    var es := Log(cfg, t.trips);
    var ws := TripSizes(t.trips);
    LogIsEmitted(cfg, t.trips);
    if i + 2 < j {
      assert es[i].record.padding && es[i + 1].record.padding && es[i + 2].record.padding;
      PaddingRunsAreShort(cfg, ws, i);
      hide Log, Emitted;
      assert false;
    }
  }

  // ----- When there is no frame to return -----

  /** How many records of padding follow one another from entry k on. */
  function PadsFrom(es: seq<Entry>, k: nat): (n: nat)
    requires k <= |es|
    ensures k + n <= |es|
    ensures forall x :: k <= x < k + n ==> es[x].record.padding
    ensures k + n < |es| ==> NextFrame(es, k, k + n)
    decreases |es| - k
  {
    if k == |es| || !es[k].record.padding then 0 else 1 + PadsFrom(es, k + 1)
  }

  /** The loop ends at a record that is not all available, and after padding that leaves no room for
      another header. */
  lemma {:induction false} StopsHere(
    reading: Reading, buf: seq<Byte>, s: seq<Byte>, from: nat, e: Entry, h: Handle, acks: nat, paddings: nat,
    rawh: seq<Byte>, sz: Sizes)
    requires sz.Valid() && |buf| == sz.buffer >= U16 && h.rdoff < sz.buffer && Shows(buf, s, from)
    requires |rawh| == RAW_HLEN
    requires from <= e.record.pos && Entered(s, e) && Readable(reading, |buf|, e.record)
    requires h.avail - h.acks - acks < e.record.size + (if e.record.padding then RAW_HLEN else 0)
    ensures SkipPadding(reading, buf, h, e.record.pos % sz.buffer, acks, paddings, rawh, sz).Lost?
  {
    HeaderRead(reading, buf, s, from, e, rawh);
    hide CopiedOut, Decode, AdvanceTo, Entered, Readable, Shows;
  }

  lemma {:induction false} GivesUp(
    reading: Reading, buf: seq<Byte>, s: seq<Byte>, from: nat, es: seq<Entry>, k: nat, wr: nat,
    h: Handle, acks: nat, paddings: nat, rawh: seq<Byte>, sz: Sizes)
    requires sz.Valid() && |buf| == sz.buffer >= U16 && h.rdoff < sz.buffer && Shows(buf, s, from)
    requires |rawh| == RAW_HLEN
    requires k < |es| && Chained(s, es, k, wr) && AllReadable(reading, es, sz.buffer) && from <= es[k].record.pos
    requires paddings + PadsFrom(es, k) < MAX_PADDINGS
    requires es[k].record.pos + (h.avail - h.acks - acks) <= wr < es[|es| - 1].record.End() + RAW_HLEN
    requires var next := k + PadsFrom(es, k);
             next < |es| ==> h.avail - h.acks - acks < es[next].record.End() - es[k].record.pos
    ensures SkipPadding(reading, buf, h, es[k].record.pos % sz.buffer, acks, paddings, rawh, sz).Lost?
    decreases |es| - k
  {
    hide SkipPadding, CopiedOut, AdvanceTo, Entered, Readable, Shows, Chained;
    var e := es[k];
    ChainHead(s, es, k, wr);
    if h.avail - h.acks - acks < e.record.size + (if e.record.padding then RAW_HLEN else 0) {
      StopsHere(reading, buf, s, from, e, h, acks, paddings, rawh, sz);
    } else {
      assert e.record.padding && k + 1 < |es|;
      var offs2 := e.record.End() % sz.buffer;
      AdvanceToOffset(h, offs2, sz);
      SkipsOne(reading, buf, s, from, e, h, acks, paddings, rawh, sz);
      GivesUp(reading, buf, s, from, es, k + 1, wr, AdvanceTo(h, offs2, sz), acks + e.record.size, paddings + 1,
              CopiedOut(reading, buf, e.record.pos % sz.buffer, rawh, RAW_HLEN), sz);
    }
  }

  /** Four records of padding in a row end the loop, whatever is available and whatever follows them. */
  lemma {:induction false} FourPaddingsGiveUp(
    reading: Reading, buf: seq<Byte>, s: seq<Byte>, from: nat, es: seq<Entry>, k: nat, wr: nat,
    h: Handle, acks: nat, paddings: nat, rawh: seq<Byte>, sz: Sizes)
    requires sz.Valid() && |buf| == sz.buffer >= U16 && h.rdoff < sz.buffer && Shows(buf, s, from)
    requires |rawh| == RAW_HLEN && paddings < 4
    requires k + 4 - paddings <= |es| && Chained(s, es, k, wr) && AllReadable(reading, es, sz.buffer)
    requires from <= es[k].record.pos && forall n :: k <= n < k + 4 - paddings ==> es[n].record.padding
    ensures SkipPadding(reading, buf, h, es[k].record.pos % sz.buffer, acks, paddings, rawh, sz).Lost?
    decreases 4 - paddings
  {
    hide SkipPadding, CopiedOut, AdvanceTo, Entered, Readable, Shows, Chained;
    var e := es[k];
    ChainHead(s, es, k, wr);
    if h.avail - h.acks - acks < e.record.size + RAW_HLEN {
      StopsHere(reading, buf, s, from, e, h, acks, paddings, rawh, sz);
    } else {
      var offs2 := e.record.End() % sz.buffer;
      var rawh' := CopiedOut(reading, buf, e.record.pos % sz.buffer, rawh, RAW_HLEN);
      AdvanceToOffset(h, offs2, sz);
      SkipsOne(reading, buf, s, from, e, h, acks, paddings, rawh, sz);
      if paddings == 3 {
        SkipIs(reading, buf, AdvanceTo(h, offs2, sz), offs2, acks + e.record.size, 4, rawh', sz);
      } else {
        FourPaddingsGiveUp(reading, buf, s, from, es, k + 1, wr, AdvanceTo(h, offs2, sz), acks + e.record.size,
                           paddings + 1, rawh', sz);
      }
    }
  }

  /** The two refusals before the loop, by what is available alone; they leave the handle as it was. */
  lemma RefusesIff(reading: Reading, buf: seq<Byte>, h: Handle, rawh: seq<Byte>, aux: seq<Byte>, sz: Sizes)
    requires sz.Valid() && |buf| == sz.buffer >= U16 && h.rdoff < sz.buffer && |aux| >= U16
    requires |rawh| == RAW_HLEN
    ensures var (h', got) := ReadPacket(reading, buf, h, rawh, aux, sz);
            && (got.TooManyAcks? <==> h.avail <= h.acks)
            && (got.TooFewBytes? <==> h.acks < h.avail < 12)
            && (got.TooManyAcks? || got.TooFewBytes? ==> h' == h)
  {
    hide SkipPadding, Fetch, AdvanceTo;
  }

  /** The log has a frame from entry i on that the available bytes reach the end of. */
  ghost predicate FrameAvailable(es: seq<Entry>, i: nat, available: nat)
    requires i < |es|
  {
    exists j: nat :: NextFrame(es, i, j) && es[j].record.End() <= es[i].record.pos + available
  }

  /** At the start of any logged record, with bytes available that the driver has reserved: a packet comes
      back if and only if they reach the end of the next frame of the log, and otherwise the function ends
      the client.  Padding with nothing behind it does that, and so does a frame cut off by the last
      publication. */
  lemma {:induction false} PacketIff(
    cfg: Config, t: Tape, reading: Reading, i: nat, h: Handle, rawh: seq<Byte>, aux: seq<Byte>, sz: Sizes)
    requires Recorded(cfg, t) && sz.Valid() && sz.buffer == cfg.buffer >= U16 && h.rdoff < sz.buffer && |aux| >= U16
    requires |rawh| == RAW_HLEN && h.acks < h.avail && RAW_HLEN <= h.avail
    requires var es := Log(cfg, t.trips);
             && i < |es| && AllReadable(reading, es, sz.buffer)
             && t.from <= es[i].record.pos && h.rdoff == es[i].record.pos % sz.buffer
             && es[i].record.pos + (h.avail - h.acks) <= Reserved(t.trips)
    ensures var got := ReadPacket(reading, t.buf, h, rawh, aux, sz).1;
            if FrameAvailable(Log(cfg, t.trips), i, h.avail - h.acks) then got.Packet? else got == GaveUp
  {
    hide *;
    RecordedShape(cfg, t);
    ShapeValid(cfg);
    if FrameAvailable(Log(cfg, t.trips), i, h.avail - h.acks) {
      PacketIf(cfg, t, reading, i, h, rawh, aux, sz);
    } else {
      PacketOnlyIf(cfg, t, reading, i, h, rawh, aux, sz);
    }
  }

  lemma ShapeValid(cfg: Config)
    requires cfg.Valid()
    ensures cfg.file > 0 && cfg.buffer > 0
  {
  }

  lemma {:induction false} PacketIf(
    cfg: Config, t: Tape, reading: Reading, i: nat, h: Handle, rawh: seq<Byte>, aux: seq<Byte>, sz: Sizes)
    requires Recorded(cfg, t) && sz.Valid() && sz.buffer == cfg.buffer >= U16 && h.rdoff < sz.buffer && |aux| >= U16
    requires |rawh| == RAW_HLEN && h.acks < h.avail
    requires var es := Log(cfg, t.trips);
             && i < |es| && AllReadable(reading, es, sz.buffer)
             && t.from <= es[i].record.pos && h.rdoff == es[i].record.pos % sz.buffer
             && FrameAvailable(es, i, h.avail - h.acks)
    ensures ReadPacket(reading, t.buf, h, rawh, aux, sz).1.Packet?
  {
    hide Recorded, Log, ReadPacket, AllReadable;
    RecordedShape(cfg, t);
    var es := Log(cfg, t.trips);
    var j: nat :| NextFrame(es, i, j) && es[j].record.End() <= es[i].record.pos + (h.avail - h.acks);
    ReturnsNextFrame(cfg, t, reading, i, j, h, rawh, aux, sz);
  }

  lemma {:induction false} PacketOnlyIf(
    cfg: Config, t: Tape, reading: Reading, i: nat, h: Handle, rawh: seq<Byte>, aux: seq<Byte>, sz: Sizes)
    requires Recorded(cfg, t) && sz.Valid() && sz.buffer == cfg.buffer >= U16 && h.rdoff < sz.buffer && |aux| >= U16
    requires |rawh| == RAW_HLEN && h.acks < h.avail && RAW_HLEN <= h.avail
    requires var es := Log(cfg, t.trips);
             && i < |es| && AllReadable(reading, es, sz.buffer)
             && t.from <= es[i].record.pos && h.rdoff == es[i].record.pos % sz.buffer
             && es[i].record.pos + (h.avail - h.acks) <= Reserved(t.trips)
             && !FrameAvailable(es, i, h.avail - h.acks)
    ensures ReadPacket(reading, t.buf, h, rawh, aux, sz).1 == GaveUp
  {
    hide Recorded, Log, ReadPacket, AllReadable, Reserved, FrameAvailable, Chained, Shows, PadsFrom;
    RecordedShape(cfg, t);
    LogFacts(cfg, t, i);
    NoFrameNoPacket(reading, t.buf, t.stream, t.from, Log(cfg, t.trips), i, Reserved(t.trips), h, rawh, aux, sz);
  }

  lemma {:induction false} LogFacts(cfg: Config, t: Tape, i: nat)
    requires Recorded(cfg, t) && i < |Log(cfg, t.trips)|
    ensures var es := Log(cfg, t.trips);
            && Chained(t.stream, es, i, Reserved(t.trips))
            && Reserved(t.trips) < es[|es| - 1].record.End() + RAW_HLEN
            && PadsFrom(es, i) <= 2
            && Shows(t.buf, t.stream, t.from) && |t.buf| == cfg.buffer
  {
    LogChained(cfg, t, i);
    LogLinks(cfg, t, |Log(cfg, t.trips)| - 1);
    FewPads(cfg, t, i);
    RecordedShows(cfg, t);
    RecordedShape(cfg, t);
    CoverNear(cfg, Reserved(t.trips));
    hide Recorded, Log, Reserved, Cover, PadsFrom, Chained, Shows;
  }

  lemma {:induction false} NoFrameNoPacket(
    reading: Reading, buf: seq<Byte>, s: seq<Byte>, from: nat, es: seq<Entry>, i: nat, wr: nat,
    h: Handle, rawh: seq<Byte>, aux: seq<Byte>, sz: Sizes)
    requires sz.Valid() && |buf| == sz.buffer >= U16 && h.rdoff < sz.buffer && |aux| >= U16 && Shows(buf, s, from)
    requires |rawh| == RAW_HLEN && h.acks < h.avail && RAW_HLEN <= h.avail
    requires i < |es| && Chained(s, es, i, wr) && AllReadable(reading, es, sz.buffer) && from <= es[i].record.pos
    requires PadsFrom(es, i) <= 2 && h.rdoff == es[i].record.pos % sz.buffer
    requires es[i].record.pos + (h.avail - h.acks) <= wr < es[|es| - 1].record.End() + RAW_HLEN
    requires !FrameAvailable(es, i, h.avail - h.acks)
    ensures ReadPacket(reading, buf, h, rawh, aux, sz).1 == GaveUp
  {
    hide SkipPadding, Fetch, Chained, Shows, Readable;
    var next := i + PadsFrom(es, i);
    if next < |es| {
      assert NextFrame(es, i, next);
    }
    GivesUp(reading, buf, s, from, es, i, wr, h, 0, 0, rawh, sz);
  }

  lemma RecordedShows(cfg: Config, t: Tape)
    requires Recorded(cfg, t)
    ensures Shows(t.buf, t.stream, t.from) && |t.buf| == cfg.buffer
  {
  }

  lemma {:induction false} FewPads(cfg: Config, t: Tape, i: nat)
    requires Recorded(cfg, t) && i <= |Log(cfg, t.trips)|
    ensures PadsFrom(Log(cfg, t.trips), i) <= 2
  {
    var es := Log(cfg, t.trips);
    LogIsEmitted(cfg, t.trips);
    if PadsFrom(es, i) > 2 {
      assert es[i].record.padding && es[i + 1].record.padding && es[i + 2].record.padding;
      PaddingRunsAreShort(cfg, TripSizes(t.trips), i);
      hide Log, Emitted;
      assert false;
    }
  }

  /** A trip that meets the end of a file and writes padding, and a publication right after it: the client
      that has read all the frames before is ended by its next read. */
  lemma {:induction false} PublishedPaddingEndsClient(
    cfg: Config, t: Tape, frame: Frame, reading: Reading, h: Handle, rawh: seq<Byte>, aux: seq<Byte>, sz: Sizes)
    requires Recorded(cfg, t) && CanDo(cfg, t, Trip(frame)) && frame.Fits(cfg)
    requires PadLength(cfg, Reserved(t.trips), frame.Size()) > 0
    requires |Reserve(cfg, Reserved(t.trips), frame.Size())| > 0
    requires sz.Valid() && sz.buffer == cfg.buffer >= U16 && h.rdoff < sz.buffer && |aux| >= U16 && |rawh| == RAW_HLEN
    requires var t' := Play(cfg, t, Trip(frame));
             var first := Reserve(cfg, Reserved(t.trips), frame.Size())[0];
             && AllReadable(reading, Log(cfg, t'.trips), sz.buffer)
             && t'.from <= first.pos && h.rdoff == first.pos % sz.buffer
             && h.acks == 0 && first.pos + h.avail == Reserved(t'.trips)
    ensures ReadPacket(reading, Play(cfg, t, Trip(frame)).buf, h, rawh, aux, sz).1 == GaveUp
  {
    hide Recorded, ReadPacket, Reserve, Log, Cover, PadLength, Play, CanDo, AllReadable, Reserved;
    RecordedShape(cfg, t);
    var t' := Play(cfg, t, Trip(frame));
    TripRecorded(cfg, t, frame);
    NewEntriesPad(cfg, t, frame);
    var i := |Log(cfg, t.trips)|;
    assert !FrameAvailable(Log(cfg, t'.trips), i, h.avail);
    PacketIff(cfg, t', reading, i, h, rawh, aux, sz);
  }

  lemma {:induction false} NewEntriesPad(cfg: Config, t: Tape, frame: Frame)
    requires Recorded(cfg, t) && CanDo(cfg, t, Trip(frame)) && frame.Fits(cfg)
    requires PadLength(cfg, Reserved(t.trips), frame.Size()) > 0
    requires |Reserve(cfg, Reserved(t.trips), frame.Size())| > 0
    ensures cfg.Valid() && |t.buf| == cfg.buffer && cfg.most <= cfg.buffer
    ensures var es := Log(cfg, Play(cfg, t, Trip(frame)).trips);
            var i := |Log(cfg, t.trips)|;
            && i < |es| && es[i].record == Reserve(cfg, Reserved(t.trips), frame.Size())[0]
            && (forall j :: i <= j < |es| ==> es[j].record.padding)
            && es[i].record.pos + RAW_HLEN <= Reserved(t.trips) + frame.Size()
            && Reserved(Play(cfg, t, Trip(frame)).trips) == Reserved(t.trips) + frame.Size()
  {
    hide Recorded, Log, PadLength, Reserve, Play, Reserved, CanDo;
    RecordedShape(cfg, t);
    PlayTrips(cfg, t, frame);
    LogAppend(cfg, t.trips, frame);
    SizesAppend(t.trips, frame);
    PaddingOnly(cfg, Reserved(t.trips), frame.Size());
    TripPlaceable(cfg, t, frame);
    var p, w := Reserved(t.trips), frame.Size();
    ReserveOk(cfg, p, w, Reserve(cfg, p, w)[0]);
  }

  lemma TripPlaceable(cfg: Config, t: Tape, frame: Frame)
    requires CanDo(cfg, t, Trip(frame))
    ensures TripOk(cfg, Reserved(t.trips), frame)
  {
    SoundPrefix(cfg, t.trips, frame);
  }

  lemma PlayTrips(cfg: Config, t: Tape, frame: Frame)
    requires cfg.Valid() && |t.buf| == cfg.buffer && cfg.most <= cfg.buffer && frame.Fits(cfg)
    ensures Play(cfg, t, Trip(frame)).trips == t.trips + [frame]
  {
    hide WriteAll, Puts, Reserve;
  }

  lemma PaddingOnly(cfg: Config, p: nat, w: nat)
    requires cfg.file > 0 && cfg.buffer > 0 && PadLength(cfg, p, w) > 0
    ensures forall k :: 0 <= k < |Reserve(cfg, p, w)| ==> Reserve(cfg, p, w)[k].padding
  {
  }

  /** The loop of `hpcap_read_packet` over padding. */
  method SkipPaddings(reading: Reading, h: HpcapHandle, buf: array<Byte>, rawh: array<Byte>)
    returns (found: bool, offs: nat, acks: nat, head: Header)
    requires h.Valid() && buf.Length == h.sz.buffer >= U16 && rawh.Length == RAW_HLEN && buf != rawh
    modifies h`rdoff, h`fileOffset, rawh
    ensures h.Valid()
    ensures SkipPadding(reading, buf[..], old(h.View()), old(h.rdoff), 0, 0, old(rawh[..]), h.sz) ==
              if found then Found(h.View(), offs, acks, head) else Lost
  {
    hide CopiedOut, Decode, AdvanceTo, AdvanceBy, SkipPadding;
    ghost var target := SkipPadding(reading, buf[..], h.View(), h.rdoff, 0, 0, rawh[..], h.sz);
    offs, acks, head, found := h.rdoff, 0, Header(0, 0, 0, 0), false;
    var numPaddings: nat := 0;
    while !found
      invariant h.Valid() && offs < buf.Length && numPaddings <= MAX_PADDINGS
      invariant h.avail == old(h.avail) && h.acks == old(h.acks)
      invariant target == if found then Found(h.View(), offs, acks, head)
                          else SkipPadding(reading, buf[..], h.View(), offs, acks, numPaddings, rawh[..], h.sz)
      decreases !found, MAX_PADDINGS - numPaddings
    {
      SkipIs(reading, buf[..], h.View(), offs, acks, numPaddings, rawh[..], h.sz);
      if numPaddings >= MAX_PADDINGS {
        return;
      }
      offs := CopyFromCircBuffer(reading, buf, offs, rawh, RAW_HLEN);
      head := Decode(rawh[..]);
      acks := acks + RAW_HLEN;
      if h.avail < h.acks + acks + head.caplen {
        return;
      }
      if head.sec == 0 {
        offs := (offs + head.caplen) % h.sz.buffer;
        acks := acks + head.caplen;
        h.AdvanceRdoffTo(offs);
        if h.avail < h.acks + acks + RAW_HLEN {
          return;
        }
      } else {
        found := true;
      }
      numPaddings := numPaddings + 1;
    }
  }

  /** `hpcap_read_packet`, with the header of each record read into rawh. */
  method HpcapReadPacket(reading: Reading, h: HpcapHandle, buf: array<Byte>, rawh: array<Byte>, auxbuf: array<Byte>)
    returns (got: Packet)
    requires h.Valid() && buf.Length == h.sz.buffer >= U16 && auxbuf.Length >= U16 && rawh.Length == RAW_HLEN
    requires buf != rawh && buf != auxbuf && rawh != auxbuf
    modifies h`rdoff, h`acks, h`fileOffset, rawh, auxbuf
    ensures h.Valid()
    ensures var r := ReadPacket(reading, buf[..], old(h.View()), old(rawh[..]), old(auxbuf[..]), h.sz);
            got == r.1 && (!got.GaveUp? ==> h.View() == r.0)
  {
    hide SkipPadding, Fetch, AdvanceTo;
    if h.acks >= h.avail {
      return TooManyAcks;
    } else if h.avail < RAW_HLEN {
      return TooFewBytes;
    }
    var found, offs, acks, head := SkipPaddings(reading, h, buf, rawh);
    if !found {
      return GaveUp;
    }
    var data := FetchBytes(reading, buf, offs, head.caplen, auxbuf);
    h.AdvanceRdoffTo((offs + head.caplen) % h.sz.buffer);
    h.acks := h.acks + acks + head.caplen;
    got := Packet(head, data);
  }
}
