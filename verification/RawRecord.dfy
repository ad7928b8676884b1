/** RAW records as bytes. */
module RawRecord {
  import opened StreamLayout

  newtype Byte = b: int | 0 <= b < 256

  const U32 := 0x1_0000_0000

  /** `struct raw_header`. */
  datatype Header = Header(sec: nat, nsec: nat, caplen: nat, len: nat) {
    predicate Fits() {
      sec < U32 && nsec < U32 && caplen < U16 && len < U16
    }

    /** `hpcap_is_header_padding`. */
    predicate IsPadding() {
      nsec == 0 && sec == 0
    }
  }

  /** A captured frame: its arrival time, its length on the wire and the bytes kept of it. */
  datatype Frame = Frame(sec: nat, nsec: nat, len: nat, data: seq<Byte>) {
    function Head(): Header {
      Header(sec, nsec, |data|, len)
    }

    /** `to_write`. */
    function Size(): nat {
      |data| + RAW_HLEN
    }

    predicate Fits(cfg: Config) {
      0 < sec < U32 && nsec < U32 && len < U16 && SizeOk(cfg, Size())
    }
  }

  function PaddingHeader(size: nat): Header
    requires size >= RAW_HLEN
  {
    Header(0, 0, size - RAW_HLEN, size - RAW_HLEN)
  }

  // ----- Little-endian encoding -----

  function Encode16(x: nat): (bs: seq<Byte>)
    requires x < U16
    ensures |bs| == 2
  {
    [(x % 256) as Byte, (x / 256) as Byte]
  }

  function Encode32(x: nat): (bs: seq<Byte>)
    requires x < U32
    ensures |bs| == 4
  {
    Encode16(x % U16) + Encode16(x / U16)
  }

  function Decode16(bs: seq<Byte>, at: nat): (x: nat)
    requires at + 2 <= |bs|
    ensures x < U16
  {
    bs[at] as int + 256 * (bs[at + 1] as int)
  }

  function Decode32(bs: seq<Byte>, at: nat): (x: nat)
    requires at + 4 <= |bs|
    ensures x < U32
  {
    Decode16(bs, at) + U16 * Decode16(bs, at + 2)
  }

  function Encode(h: Header): (bs: seq<Byte>)
    requires h.Fits()
    ensures |bs| == RAW_HLEN
  {
    Encode32(h.sec) + Encode32(h.nsec) + Encode16(h.caplen) + Encode16(h.len)
  }

  function Decode(bs: seq<Byte>): (h: Header)
    requires |bs| == RAW_HLEN
    ensures h.Fits()
  {
    Header(Decode32(bs, 0), Decode32(bs, 4), Decode16(bs, 8), Decode16(bs, 10))
  }

  lemma {:induction false} Decode16Encode(pre: seq<Byte>, x: nat, post: seq<Byte>)
    requires x < U16
    ensures Decode16(pre + Encode16(x) + post, |pre|) == x
  {
    var bs := pre + Encode16(x) + post;
    assert bs[|pre|] as int == x % 256 && bs[|pre| + 1] as int == x / 256;
  }

  lemma {:induction false} Decode32Encode(pre: seq<Byte>, x: nat, post: seq<Byte>)
    requires x < U32
    ensures Decode32(pre + Encode32(x) + post, |pre|) == x
  {
    var lo, hi := Encode16(x % U16), Encode16(x / U16);
    var bs := pre + Encode32(x) + post;
    assert bs == pre + lo + (hi + post);
    Decode16Encode(pre, x % U16, hi + post);
    assert bs == (pre + lo) + hi + post;
    Decode16Encode(pre + lo, x / U16, post);
  }

  /** The header octet by octet: time stamp, nanoseconds, captured length and length, each with its lowest octet
      first. */
  lemma {:induction false} HeaderOctets(h: Header)
    requires h.Fits()
    ensures var bs := Encode(h);
            && h.sec == bs[0] as int + 0x100 * bs[1] as int + 0x1_0000 * bs[2] as int + 0x100_0000 * bs[3] as int
            && h.nsec == bs[4] as int + 0x100 * bs[5] as int + 0x1_0000 * bs[6] as int + 0x100_0000 * bs[7] as int
            && h.caplen == bs[8] as int + 0x100 * bs[9] as int && h.len == bs[10] as int + 0x100 * bs[11] as int
  {
  }

  /** Reading a header back gives the header written. */
  lemma {:induction false} DecodeEncode(h: Header)
    requires h.Fits()
    ensures Decode(Encode(h)) == h
  {
    var a, b, c, d := Encode32(h.sec), Encode32(h.nsec), Encode16(h.caplen), Encode16(h.len);
    var bs := Encode(h);
    assert bs == [] + a + (b + c + d);
    Decode32Encode([], h.sec, b + c + d);
    assert bs == a + b + (c + d);
    Decode32Encode(a, h.nsec, c + d);
    assert bs == (a + b) + c + d;
    Decode16Encode(a + b, h.caplen, d);
    assert bs == (a + b + c) + d + [];
    Decode16Encode(a + b + c, h.len, []);
  }
}
