/** The reading functions of the client library, on the handle and the mapped buffer. */
module Reader {
  import opened Cyclic
  import opened StreamLayout
  import opened RawRecord
  import opened CircularBuffer
  import opened HandleModel
  import opened ClientHandle
  import opened ReaderModel

  method FetchBytes(reading: Reading, buf: array<Byte>, off: nat, n: nat, dst: array<Byte>) returns (bs: seq<Byte>)
    requires buf != dst && off < buf.Length && n <= buf.Length && n <= dst.Length
    modifies dst
    ensures bs == Fetch(reading, buf[..], off, n, old(dst[..]))
  {
    if off + n > buf.Length {
      var end := CopyFromCircBuffer(reading, buf, off, dst, n);
      bs := dst[..n];
    } else {
      bs := buf[off..off + n];
    }
  }

  /** `_hpcap_read_next`; headCopy and dataCopy are the two parts of its copy area. */
  method HpcapReadNext(reading: Reading, h: HpcapHandle, buf: array<Byte>, headCopy: array<Byte>, dataCopy: array<Byte>)
    returns (item: Item)
    requires h.Valid() && buf.Length == h.sz.buffer
    requires buf != headCopy && buf != dataCopy && headCopy != dataCopy
    requires Scratch(headCopy[..], dataCopy[..]).Big(buf.Length)
    modifies h`rdoff, h`acks, h`fileOffset, headCopy, dataCopy
    ensures h.Valid()
    ensures (h.View(), item) ==
              ReadNext(reading, buf[..], old(h.View()), old(Scratch(headCopy[..], dataCopy[..])), h.sz)
  {
    hide Fetch, Decode, AdvanceBy;
    if h.avail < RAW_HLEN || h.avail <= h.acks || h.avail - RAW_HLEN < h.acks {
      return None;
    }
    ghost var start, scratch := h.View(), Scratch(headCopy[..], dataCopy[..]);
    var bytes := FetchBytes(reading, buf, h.rdoff, RAW_HLEN, headCopy);
    var rawh := Decode(bytes);
    h.AdvanceRdoffBy(RAW_HLEN);
    var frame := [];
    if !rawh.IsPadding() {
      frame := FetchBytes(reading, buf, h.rdoff, rawh.caplen, dataCopy);
    }
    h.AdvanceRdoffBy(rawh.caplen);
    h.acks := h.acks + RAW_HLEN + rawh.caplen;
    item := Item(rawh, frame);
  }
}
