/** What the receive loop leaves in the circular buffer, seen as a stream of bytes that only grows. */
module ByteStream {
  import opened Cyclic
  import opened StreamLayout
  import opened RawRecord
  import opened CircularBuffer

  // ----- Block writes -----

  /** Bytes to go to a stream position. */
  datatype Put = Put(pos: nat, bytes: seq<Byte>) {
    function End(): nat {
      pos + |bytes|
    }
  }

  function WriteAll(buf: seq<Byte>, puts: seq<Put>): (out: seq<Byte>)
    requires |buf| > 0 && forall i :: 0 <= i < |puts| ==> |puts[i].bytes| <= |buf|
    ensures |out| == |buf|
  {
    if |puts| == 0 then buf
    else
      var n := |puts| - 1;
      Write(WriteAll(buf, puts[..n]), puts[n].pos, puts[n].bytes)
  }

  lemma {:induction false} WriteAllAppend(buf: seq<Byte>, a: seq<Put>, b: seq<Put>)
    requires |buf| > 0
    requires forall i :: 0 <= i < |a| ==> |a[i].bytes| <= |buf|
    requires forall i :: 0 <= i < |b| ==> |b[i].bytes| <= |buf|
    ensures WriteAll(buf, a + b) == WriteAll(WriteAll(buf, a), b)
    decreases |b|
  {
    if |b| == 0 {
      assert a + b == a;
    } else {
      assert (a + b)[..|a + b| - 1] == a + b[..|b| - 1];
      WriteAllAppend(buf, a, b[..|b| - 1]);
    }
  }

  /** The places follow one another inside [low, high]. */
  ghost predicate Placed(puts: seq<Put>, low: nat, high: nat) {
    if |puts| == 0 then low <= high
    else puts[|puts| - 1].End() <= high && Placed(puts[..|puts| - 1], low, puts[|puts| - 1].pos)
  }

  lemma {:induction false} PlacedAt(puts: seq<Put>, low: nat, high: nat, i: nat)
    requires Placed(puts, low, high) && i < |puts|
    ensures low <= puts[i].pos && puts[i].End() <= high
    decreases |puts|
  {
    var n := |puts| - 1;
    if i < n {
      PlacedAt(puts[..n], low, puts[n].pos, i);
    } else if n > 0 {
      PlacedAt(puts[..n], low, puts[n].pos, n - 1);
    }
  }

  /** Writes from `low` on, inside one lap, leave what the buffer showed below `low`. */
  lemma {:induction false} WriteAllKeeps(buf: seq<Byte>, puts: seq<Put>, low: nat, high: nat, y: nat)
    requires |buf| > 0 && forall i :: 0 <= i < |puts| ==> |puts[i].bytes| <= |buf|
    requires Placed(puts, low, high) && y < low && high <= y + |buf|
    ensures At(WriteAll(buf, puts), y) == At(buf, y)
    decreases |puts|
  {
    if |puts| > 0 {
      var n := |puts| - 1;
      WriteAllKeeps(buf, puts[..n], low, puts[n].pos, y);
      PlacedAt(puts, low, high, n);
      ByteBefore(WriteAll(buf, puts[..n]), puts[n].pos, puts[n].bytes, y);
    }
  }

  /** Writes inside one lap that follow one another all stay visible. */
  lemma {:induction false} WriteAllShows(buf: seq<Byte>, puts: seq<Put>, low: nat, high: nat, i: nat, y: nat)
    requires |buf| > 0 && forall i :: 0 <= i < |puts| ==> |puts[i].bytes| <= |buf|
    requires Placed(puts, low, high) && high <= low + |buf|
    requires i < |puts| && y < |puts[i].bytes|
    ensures At(WriteAll(buf, puts), puts[i].pos + y) == puts[i].bytes[y]
    decreases |puts|
  {
    var n := |puts| - 1;
    var before := WriteAll(buf, puts[..n]);
    if i == n {
      WrittenByte(before, puts[n].pos, puts[n].bytes, puts[n].pos + y);
    } else {
      WriteAllShows(buf, puts[..n], low, puts[n].pos, i, y);
      PlacedAt(puts[..n], low, puts[n].pos, i);
      ByteBefore(before, puts[n].pos, puts[n].bytes, puts[i].pos + y);
    }
  }

  // ----- The stream behind the buffer -----

  /** The buffer shows the stream s from position `from` on. */
  ghost predicate Shows(buf: seq<Byte>, s: seq<Byte>, from: nat) {
    && |buf| > 0
    && forall x :: from <= x < |s| ==> At(buf, x) == s[x]
  }

  /** The bytes of a write stand in the stream. */
  ghost predicate Holds(s: seq<Byte>, put: Put) {
    put.End() <= |s| && s[put.pos..put.End()] == put.bytes
  }

  /** The stream once its stable part has grown to q. */
  function Grown(buf: seq<Byte>, s: seq<Byte>, q: nat): (s': seq<Byte>)
    requires |buf| > 0
    ensures s <= s' && (|s| <= q ==> |s'| == q)
  {
    if q <= |s| then s else s + Read(buf, |s|, q - |s|)
  }

  lemma {:induction false} GrownShows(buf: seq<Byte>, s: seq<Byte>, from: nat, q: nat)
    requires Shows(buf, s, from) && |s| <= q
    ensures Shows(buf, Grown(buf, s, q), from)
  {
    forall x | from <= x < q ensures At(buf, x) == Grown(buf, s, q)[x] {
      if x >= |s| {
        assert Grown(buf, s, q)[x] == Read(buf, |s|, q - |s|)[x - |s|];
      }
    }
  }

  lemma {:induction false} PutStands(buf: seq<Byte>, s: seq<Byte>, from: nat, put: Put)
    requires Shows(buf, s, from) && from <= put.pos && put.End() <= |s|
    requires forall y :: 0 <= y < |put.bytes| ==> At(buf, put.pos + y) == put.bytes[y]
    ensures Holds(s, put)
  {
    forall y | 0 <= y < |put.bytes| ensures s[put.pos + y] == put.bytes[y] {
      assert At(buf, put.pos + y) == s[put.pos + y];
    }
  }

  /** Writes that follow one another past the end of the stream, less than a lap beyond what is still
      unread: the buffer keeps showing the unread part, and the writes stand in the grown stream. */
  lemma {:induction false} WritesExtendStream(buf: seq<Byte>, s: seq<Byte>, from: nat, puts: seq<Put>, high: nat)
    requires Shows(buf, s, from) && from <= |s| <= high <= from + |buf|
    requires Placed(puts, |s|, high) && forall i :: 0 <= i < |puts| ==> |puts[i].bytes| <= |buf|
    ensures var buf' := WriteAll(buf, puts);
            var s' := Grown(buf', s, high);
            Shows(buf', s', from) && forall i :: 0 <= i < |puts| ==> Holds(s', puts[i])
  {
    var buf' := WriteAll(buf, puts);
    forall x | from <= x < |s| ensures At(buf', x) == s[x] {
      WriteAllKeeps(buf, puts, |s|, high, x);
    }
    GrownShows(buf', s, from, high);
    forall i | 0 <= i < |puts| ensures Holds(Grown(buf', s, high), puts[i]) {
      PlacedAt(puts, |s|, high, i);
      forall y | 0 <= y < |puts[i].bytes| ensures At(buf', puts[i].pos + y) == puts[i].bytes[y] {
        WriteAllShows(buf, puts, |s|, high, i, y);
      }
      PutStands(buf', Grown(buf', s, high), from, puts[i]);
    }
  }

  // ----- The records of one trip -----

  ghost predicate Writable(rs: seq<Record>) {
    forall i :: 0 <= i < |rs| ==> RAW_HLEN <= rs[i].size < RAW_HLEN + U16
  }

  lemma ReserveWritable(cfg: Config, p: nat, w: nat)
    requires cfg.Valid() && SizeOk(cfg, w)
    ensures Writable(Reserve(cfg, p, w)) && |Reserve(cfg, p, w)| <= 2
  {
  }

  function PutOf(r: Record, frame: Frame): Put
    requires RAW_HLEN <= r.size < RAW_HLEN + U16 && frame.Head().Fits()
  {
    if r.padding then Put(r.pos, Encode(PaddingHeader(r.size)))
    else Put(r.pos, Encode(frame.Head()) + frame.data)
  }

  function Puts(rs: seq<Record>, frame: Frame): (puts: seq<Put>)
    requires forall i :: 0 <= i < |rs| ==> RAW_HLEN <= rs[i].size < RAW_HLEN + U16
    requires frame.Head().Fits()
    ensures |puts| == |rs| && forall i :: 0 <= i < |rs| ==> puts[i] == PutOf(rs[i], frame)
    ensures forall i :: 0 <= i < |puts| ==> |puts[i].bytes| <= frame.Size()
  {
    seq(|rs|, (i: nat) requires i < |rs| => PutOf(rs[i], frame))
  }

  /** The part of the first p bytes that nothing will change any more: all of it, except a file's
      first bytes while their padding is owed. */
  function Stable(cfg: Config, p: nat): (q: nat)
    requires cfg.file > 0
    ensures q <= p
  {
    if StartsInHead(cfg, p) then FileStart(cfg, p) else p
  }

  lemma StableGrows(cfg: Config, p: nat, w: nat)
    requires cfg.Valid() && SizeOk(cfg, w)
    ensures Stable(cfg, p) <= Stable(cfg, p + w)
  {
    FileOffset(cfg, p, w);
  }

  ghost predicate TripOk(cfg: Config, p: nat, frame: Frame) {
    && cfg.Valid() && frame.Fits(cfg)
    && (cfg.reading.AsDocumented? || !Exposed(cfg, p, frame.Size()))
    && Writable(Reserve(cfg, p, frame.Size()))
  }

  lemma {:induction false} TripPlaces(cfg: Config, p: nat, frame: Frame)
    requires TripOk(cfg, p, frame)
    ensures Placed(Puts(Reserve(cfg, p, frame.Size()), frame), Stable(cfg, p), Stable(cfg, p + frame.Size()))
  {
    var w := frame.Size();
    var f, F := p % cfg.file, cfg.file;
    var rs := Reserve(cfg, p, w);
    var puts := Puts(rs, frame);
    FileOffset(cfg, p, w);
    ReserveWritable(cfg, p, w);
    if ReachesEnd(cfg, p, w) {
      if F - f >= RAW_HLEN { SmallPadding(F - f); }
      if f + w - F >= RAW_HLEN { SmallPadding(f + w - F); }
    } else if StartsInHead(cfg, p) {
      SmallPadding(f + w);
    }
    if |puts| == 1 {
      assert puts[..0] == [];
    } else if |puts| == 2 {
      assert puts[..1] == [puts[0]];
      assert puts[..1][..0] == [];
    }
  }

  /** One trip: the buffer still shows everything not yet read, and every header and frame the trip
      wrote stands in the stream at its place, for good. */
  lemma {:induction false} TripExtendsStream(cfg: Config, buf: seq<Byte>, s: seq<Byte>, from: nat, p: nat, frame: Frame)
    requires TripOk(cfg, p, frame) && |buf| == cfg.buffer && frame.Size() <= |buf|
    requires |s| == Stable(cfg, p) && from <= |s| && Shows(buf, s, from)
    requires p + frame.Size() <= from + |buf|
    ensures var puts := Puts(Reserve(cfg, p, frame.Size()), frame);
            var buf' := WriteAll(buf, puts);
            var s' := Grown(buf', s, Stable(cfg, p + frame.Size()));
            && Shows(buf', s', from)
            && |s'| == Stable(cfg, p + frame.Size())
            && forall i :: 0 <= i < |puts| ==> Holds(s', puts[i])
  {
    var puts := Puts(Reserve(cfg, p, frame.Size()), frame);
    StableGrows(cfg, p, frame.Size());
    TripPlaces(cfg, p, frame);
    WritesExtendStream(buf, s, from, puts, Stable(cfg, p + frame.Size()));
  }
}
