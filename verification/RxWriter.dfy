/** The part of the receive loop that stores a frame: reserve, pad, repeat, write. */
module RxWriter {
  import opened Cyclic
  import opened StreamLayout
  import opened WriteCounter
  import opened RawRecord
  import opened CircularBuffer
  import opened ByteStream

  /** A frame in a receive descriptor. */
  datatype Arrival = Arrival(sec: nat, nsec: nat, bytes: seq<Byte>)

  /** `CALC_CAPLEN`. */
  function CapLen(caplen: nat, len: nat): nat {
    if caplen == 0 || len <= caplen then len else caplen
  }

  function Captured(a: Arrival, caplen: nat): Frame {
    Frame(a.sec, a.nsec, |a.bytes|, a.bytes[..CapLen(caplen, |a.bytes|)])
  }

  /** What is kept of a frame are its time, its length and its beginning; it can be laid out exactly when it is no
      larger than the largest record. */
  lemma CapturedFits(cfg: Config, a: Arrival, caplen: nat)
    requires cfg.Valid() && 0 < a.sec < U32 && a.nsec < U32 && 0 < |a.bytes| < U16
    ensures Captured(a, caplen).Fits(cfg) <==> |a.bytes| + RAW_HLEN <= cfg.most || 0 < caplen <= cfg.most - RAW_HLEN
    ensures var f := Captured(a, caplen); f.sec == a.sec && f.nsec == a.nsec && f.len == |a.bytes|
    ensures Captured(a, caplen).data <= a.bytes && (0 < caplen ==> |Captured(a, caplen).data| <= caplen)
    ensures |Captured(a, caplen).data| == |a.bytes| <==> caplen == 0 || |a.bytes| <= caplen
  {
  }

  // ----- Specification -----

  /** Buffer contents, bytes reserved so far, and whether the frame found room. */
  datatype Outcome = Outcome(buf: seq<Byte>, reserved: nat, stored: bool)

  function OneTrip(cfg: Config, buf: seq<Byte>, p: nat, frame: Frame): (out: seq<Byte>)
    requires cfg.Valid() && frame.Fits(cfg) && |buf| == cfg.buffer && cfg.most <= |buf|
    ensures |out| == |buf|
  {
    ReserveWritable(cfg, p, frame.Size());
    WriteAll(buf, Puts(Reserve(cfg, p, frame.Size()), frame))
  }

  /** The do-while loop for one frame, with `available` bytes of the call's limit left. */
  function StoreFrame(cfg: Config, buf: seq<Byte>, p: nat, frame: Frame, available: nat): Outcome
    requires cfg.Valid() && frame.Fits(cfg) && |buf| == cfg.buffer && cfg.most <= |buf|
    decreases available
  {
    var w := frame.Size();
    if available < w + RAW_HLEN then Outcome(buf, p, false)
    else if PadLength(cfg, p, w) > 0 then
      StoreFrame(cfg, OneTrip(cfg, buf, p, frame), p + w, frame, available - w)
    else Outcome(OneTrip(cfg, buf, p, frame), p + w, true)
  }

  /** What `set_padding` does to the buffer. */
  function Pad(buf: seq<Byte>, pos: nat, padlen: nat): (out: seq<Byte>)
    requires |buf| >= RAW_HLEN
    ensures |out| == |buf|
  {
    if padlen < RAW_HLEN then buf
    else Write(buf, pos, Encode(PaddingHeader(RAW_HLEN + (padlen - RAW_HLEN) % U16)))
  }

  lemma {:induction false} PadIsPut(buf: seq<Byte>, pos: nat, padlen: nat, frame: Frame)
    requires |buf| >= frame.Size() && frame.Head().Fits()
    ensures Writable(SetPadding(pos, padlen))
    ensures WriteAll(buf, Puts(SetPadding(pos, padlen), frame)) == Pad(buf, pos, padlen)
  {
    var rs := SetPadding(pos, padlen);
    if |rs| > 0 {
      var puts := Puts(rs, frame);
      assert puts[..0] == [];
      assert puts == [PutOf(rs[0], frame)];
    }
  }

  lemma {:induction false} FrameIsPut(buf: seq<Byte>, pos: nat, frame: Frame)
    requires |buf| >= frame.Size() && frame.Head().Fits() && frame.Size() < RAW_HLEN + U16
    ensures WriteAll(buf, Puts([Record(pos, frame.Size(), false)], frame)) ==
              Write(Write(buf, pos, Encode(frame.Head())), pos + RAW_HLEN, frame.data)
  {
    var rs := [Record(pos, frame.Size(), false)];
    var puts := Puts(rs, frame);
    assert puts[..0] == [];
    assert puts == [Put(pos, Encode(frame.Head()) + frame.data)];
    WriteTwice(buf, pos, Encode(frame.Head()), frame.data);
  }

  lemma {:induction false} PutsAppend(buf: seq<Byte>, rs: seq<Record>, ss: seq<Record>, frame: Frame)
    requires Writable(rs) && Writable(ss) && frame.Head().Fits() && |buf| >= frame.Size()
    ensures Writable(rs + ss)
    ensures WriteAll(buf, Puts(rs + ss, frame)) == WriteAll(WriteAll(buf, Puts(rs, frame)), Puts(ss, frame))
  {
    assert Puts(rs + ss, frame) == Puts(rs, frame) + Puts(ss, frame);
    WriteAllAppend(buf, Puts(rs, frame), Puts(ss, frame));
  }

  /** One trip that reaches the end of the file. */
  lemma {:induction false} TripAtEnd(cfg: Config, buf: seq<Byte>, p: nat, frame: Frame)
    requires cfg.Valid() && frame.Fits(cfg) && |buf| == cfg.buffer && cfg.most <= |buf|
    requires ReachesEnd(cfg, p, frame.Size())
    ensures var f, final := p % cfg.file, (p + frame.Size()) % cfg.file;
            var padlen := cfg.file - f;
            && padlen == PadLength(cfg, p, frame.Size())
            && OneTrip(cfg, buf, p, frame) ==
                 if final >= RAW_HLEN && (cfg.reading.AsCoded? || f + frame.Size() >= cfg.file)
                 then Pad(Pad(buf, p, padlen), p + padlen, final)
                 else Pad(buf, p, padlen)
  {
    hide Pad, WriteAll, Puts;
    var w := frame.Size();
    var f, final := p % cfg.file, (p + w) % cfg.file;
    var padlen := cfg.file - f;
    ReserveWritable(cfg, p, w);
    hide SetPadding;
    PadIsPut(buf, p, padlen, frame);
    var first, second := SetPadding(p, padlen), SetPadding(p + padlen, final);
    if final >= RAW_HLEN && (cfg.reading.AsCoded? || f + w >= cfg.file) {
      assert Reserve(cfg, p, w) == first + second;
      PadIsPut(Pad(buf, p, padlen), p + padlen, final, frame);
      PutsAppend(buf, first, second, frame);
    } else {
      assert Reserve(cfg, p, w) == first;
    }
  }

  /** One trip that completes the padding at the head of the file. */
  lemma {:induction false} TripInHead(cfg: Config, buf: seq<Byte>, p: nat, frame: Frame)
    requires cfg.Valid() && frame.Fits(cfg) && |buf| == cfg.buffer && cfg.most <= |buf|
    requires StartsInHead(cfg, p) && !ReachesEnd(cfg, p, frame.Size())
    ensures PadLength(cfg, p, frame.Size()) == HeadPadding(cfg, p, frame.Size()) > 0
    ensures OneTrip(cfg, buf, p, frame) == Pad(buf, FileStart(cfg, p), HeadPadding(cfg, p, frame.Size()))
  {
    var w := frame.Size();
    ReserveWritable(cfg, p, w);
    FileOffset(cfg, p, w);
    if cfg.reading.AsCoded? {
      HeadPaddingAsCoded(cfg, p, w);
    }
    PadIsPut(buf, FileStart(cfg, p), HeadPadding(cfg, p, w), frame);
    assert Reserve(cfg, p, w) == SetPadding(FileStart(cfg, p), HeadPadding(cfg, p, w));
  }

  /** One trip that writes the frame. */
  lemma {:induction false} TripForFrame(cfg: Config, buf: seq<Byte>, p: nat, frame: Frame)
    requires cfg.Valid() && frame.Fits(cfg) && |buf| == cfg.buffer && cfg.most <= |buf|
    requires !StartsInHead(cfg, p) && !ReachesEnd(cfg, p, frame.Size())
    ensures PadLength(cfg, p, frame.Size()) == 0
    ensures OneTrip(cfg, buf, p, frame) ==
              Write(Write(buf, p, Encode(frame.Head())), p + RAW_HLEN, frame.data)
  {
    ReserveWritable(cfg, p, frame.Size());
    FrameIsPut(buf, p, frame);
    assert Reserve(cfg, p, frame.Size()) == [Record(p, frame.Size(), false)];
  }

  // ----- The driver's buffer -----

  class CaptureBuffer {
    const cfg: Config
    const bufferCopia: array<Byte>
    var consumerWriteOff: int
    ghost var reserved: nat

    ghost predicate Valid()
      reads this
    {
      && cfg.Valid()
      && bufferCopia.Length == cfg.buffer && cfg.most <= cfg.buffer
      && TWO_32 % cfg.file == 0 && TWO_32 % cfg.buffer == 0
      && consumerWriteOff == ToInt32(reserved)
    }

    constructor (config: Config, storage: array<Byte>)
      requires config.Valid() && storage.Length == config.buffer && config.most <= config.buffer
      requires TWO_32 % config.file == 0 && TWO_32 % config.buffer == 0
      ensures Valid() && cfg == config && bufferCopia == storage && reserved == 0
    {
      cfg, bufferCopia, consumerWriteOff, reserved := config, storage, 0, 0;
    }

    /** `set_padding`, told a buffer offset; pos is the stream position it stands for. */
    method WritePadding(offset: nat, padlen: nat, ghost pos: nat)
      requires Valid() && offset == pos % cfg.buffer
      modifies bufferCopia
      ensures bufferCopia[..] == Pad(old(bufferCopia[..]), pos, padlen)
    {
      if padlen < RAW_HLEN {
        return;
      }
      var len := (padlen - RAW_HLEN) % U16;
      var rawh := Header(0, 0, len, len);
      ghost var before := bufferCopia[..];
      var end := CopyToCircularBuffer(bufferCopia, offset, Encode(rawh));
      WriteWrapped(before, pos, Encode(rawh));
    }

    /** Header, then payload. */
    method WriteFrame(offset: nat, frame: Frame, ghost pos: nat)
      requires Valid() && frame.Fits(cfg) && offset == pos % cfg.buffer
      modifies bufferCopia
      ensures bufferCopia[..] ==
                Write(Write(old(bufferCopia[..]), pos, Encode(frame.Head())), pos + RAW_HLEN, frame.data)
    {
      ghost var before := bufferCopia[..];
      var dataOffset := CopyToCircularBuffer(bufferCopia, offset, Encode(frame.Head()));
      ghost var headed := bufferCopia[..];
      WriteWrapped(before, pos, Encode(frame.Head()));
      AddWrapped(pos, RAW_HLEN, cfg.buffer);
      var end := CopyToCircularBuffer(bufferCopia, dataOffset, frame.data);
      WriteWrapped(headed, pos + RAW_HLEN, frame.data);
    }

    /** The atomic add, and the start of the reserved range as the code computes it. */
    method Reserve32(toWrite: nat) returns (offset: nat, offsetDst: nat)
      requires Valid()
      modifies this`consumerWriteOff, this`reserved
      ensures Valid() && reserved == old(reserved) + toWrite
      ensures offset % cfg.file == reserved % cfg.file
      ensures offsetDst % cfg.file == old(reserved) % cfg.file
      ensures offsetDst % cfg.buffer == old(reserved) % cfg.buffer
    {
      ReservationOffsets(reserved, toWrite, cfg.file);
      ReservationOffsets(reserved, toWrite, cfg.buffer);
      Int32Add(reserved, toWrite);
      consumerWriteOff := AddReturn(consumerWriteOff, toWrite);
      reserved := reserved + toWrite;
      offset := ToSizeT(consumerWriteOff);
      offsetDst := ToSizeT(offset - toWrite);
    }

    /** The branch for a reservation that reaches the end of the file. */
    method PadAtEnd(offsetDst: nat, fileDstOffset: nat, toWrite: nat, fileFinalOffset: nat, ghost p: nat)
      returns (padlen: nat)
      requires Valid() && fileDstOffset < cfg.file
      requires offsetDst % cfg.buffer == p % cfg.buffer
      modifies bufferCopia
      ensures padlen == cfg.file - fileDstOffset
      ensures bufferCopia[..] ==
                if fileFinalOffset >= RAW_HLEN && (cfg.reading.AsCoded? || fileDstOffset + toWrite >= cfg.file)
                then Pad(Pad(old(bufferCopia[..]), p, padlen), p + padlen, fileFinalOffset)
                else Pad(old(bufferCopia[..]), p, padlen)
    {
      padlen := cfg.file - fileDstOffset;
      WritePadding(offsetDst % cfg.buffer, padlen, p);
      if fileFinalOffset >= RAW_HLEN && (cfg.reading.AsCoded? || fileDstOffset + toWrite >= cfg.file) {
        SizeTKeeps(offsetDst, p, padlen, cfg.buffer);
        WritePadding(ToSizeT(offsetDst + padlen) % cfg.buffer, fileFinalOffset, p + padlen);
      }
    }

    /** The branch for a reservation that starts in the first bytes of a file. */
    method PadInHead(offsetDst: nat, fileDstOffset: nat, fileFinalOffset: nat, ghost p: nat)
      returns (padlen: nat)
      requires Valid() && fileDstOffset <= p
      requires offsetDst % cfg.buffer == p % cfg.buffer
      modifies bufferCopia
      ensures padlen == if cfg.reading.AsCoded? then (p + fileFinalOffset) % cfg.buffer else fileFinalOffset
      ensures bufferCopia[..] == Pad(old(bufferCopia[..]), p - fileDstOffset, padlen)
    {
      hide ToSizeT, Pad;
      SizeTKeeps(offsetDst, p, fileFinalOffset, cfg.buffer);
      SizeTKeeps(offsetDst, p, 0 - fileDstOffset, cfg.buffer);
      padlen := if cfg.reading.AsCoded? then ToSizeT(offsetDst + fileFinalOffset) % cfg.buffer
                else fileFinalOffset;
      WritePadding(ToSizeT(offsetDst - fileDstOffset) % cfg.buffer, padlen, p - fileDstOffset);
    }

    /** One trip of the reservation loop: one atomic add, then padding or the frame itself. */
    method ReserveAndWrite(frame: Frame) returns (padlen: nat)
      requires Valid() && frame.Fits(cfg)
      modifies this`consumerWriteOff, this`reserved, bufferCopia
      ensures Valid() && reserved == old(reserved) + frame.Size()
      ensures padlen == PadLength(cfg, old(reserved), frame.Size())
      ensures bufferCopia[..] == OneTrip(cfg, old(bufferCopia[..]), old(reserved), frame)
    {
      hide OneTrip, Pad, Write, Encode;
      var toWrite := frame.Size();
      ghost var p := reserved;
      ghost var before := bufferCopia[..];
      var offset, offsetDst := Reserve32(toWrite);
      var fileFinalOffset, fileDstOffset := offset % cfg.file, offsetDst % cfg.file;
      if fileDstOffset + toWrite + RAW_HLEN > cfg.file {
        padlen := PadAtEnd(offsetDst, fileDstOffset, toWrite, fileFinalOffset, p);
        TripAtEnd(cfg, before, p, frame);
      } else if 0 < fileDstOffset < RAW_HLEN {
        ModAtMost(p, cfg.file);
        padlen := PadInHead(offsetDst, fileDstOffset, fileFinalOffset, p);
        TripInHead(cfg, before, p, frame);
      } else {
        padlen := 0;
        TripForFrame(cfg, before, p, frame);
      }
      if padlen == 0 {
        WriteFrame(offsetDst % cfg.buffer, frame, p);
      }
    }

    /** The do-while loop for one frame: it ends when the frame is written or the limit is reached. */
    method Store(frame: Frame, limit: nat, cnt: nat) returns (cnt': nat, outOfSpace: bool)
      requires Valid() && frame.Fits(cfg) && cnt <= limit
      modifies this`consumerWriteOff, this`reserved, bufferCopia
      ensures Valid()
      ensures Outcome(bufferCopia[..], reserved, !outOfSpace) ==
                StoreFrame(cfg, old(bufferCopia[..]), old(reserved), frame, limit - cnt)
      ensures cnt' - cnt == reserved - old(reserved)
      ensures cnt < cnt' ==> cnt' + RAW_HLEN <= limit
    {
      hide OneTrip, PadLength;
      ghost var target := StoreFrame(cfg, bufferCopia[..], reserved, frame, limit - cnt);
      cnt' := cnt;
      outOfSpace := false;
      var padlen := 1;
      while padlen > 0
        invariant Valid() && cnt <= cnt' <= limit
        invariant cnt' - cnt == reserved - old(reserved)
        invariant cnt < cnt' ==> cnt' + RAW_HLEN <= limit
        invariant padlen > 0 ==> target == StoreFrame(cfg, bufferCopia[..], reserved, frame, limit - cnt')
        invariant padlen == 0 ==> target == Outcome(bufferCopia[..], reserved, true)
        decreases limit - cnt', padlen
      {
        var available := limit - cnt';
        if available < frame.Size() + RAW_HLEN {
          outOfSpace := true;
          return;
        }
        padlen := ReserveAndWrite(frame);
        cnt' := cnt' + frame.Size();
      }
    }
  }
}
