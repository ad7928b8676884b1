/** Where the receive loop puts records and padding in the byte stream.

    Threads reserve bytes with one atomic add, so what ends up where depends only on the list of
    reservation sizes, whichever thread made each.  Positions are unbounded byte counts since the
    offsets were last reset.  Two places of the loop do something else than their comments say
    (hpcap_rx.c lines 623-624 and 634); `Reading` selects which of the two is meant. */
module StreamLayout {
  import opened Cyclic

  const RAW_HLEN := 12
  const U16 := 0x1_0000
  const MAX_DESCR_SIZE := 2048

  datatype Reading = AsCoded | AsDocumented

  /** `file` is HPCAP_FILESIZE, `buffer` the size of the circular buffer, `most` the largest
      reservation (header included). */
  datatype Config = Config(file: nat, buffer: nat, most: nat, reading: Reading) {
    predicate Valid() {
      && RAW_HLEN < most
      && 2 * most + 2 * RAW_HLEN <= file
      && most <= MAX_DESCR_SIZE + RAW_HLEN
      && buffer > 0
      && (reading.AsCoded? ==> file % U16 == 0 && buffer % U16 == 0)
    }
  }

  /** A header written at stream position `pos` that announces `size` bytes, header included. */
  datatype Record = Record(pos: nat, size: nat, padding: bool) {
    function End(): nat {
      pos + size
    }
  }

  predicate SizeOk(cfg: Config, w: nat) {
    RAW_HLEN < w <= cfg.most
  }

  // ----- One reservation -----

  /** `set_padding`: no header when fewer than RAW_HLEN bytes are asked for; lengths have 16 bits. */
  function SetPadding(pos: nat, padlen: nat): (rs: seq<Record>)
  {
    if padlen < RAW_HLEN then [] else [Record(pos, RAW_HLEN + (padlen - RAW_HLEN) % U16, true)]
  }

  predicate ReachesEnd(cfg: Config, p: nat, w: nat)
    requires cfg.file > 0
  {
    p % cfg.file + w + RAW_HLEN > cfg.file
  }

  predicate StartsInHead(cfg: Config, p: nat)
    requires cfg.file > 0
  {
    0 < p % cfg.file < RAW_HLEN
  }

  /** Where the file of position p starts. */
  function FileStart(cfg: Config, p: nat): (start: nat)
    requires cfg.file > 0
    ensures start == p - p % cfg.file
  {
    ModAtMost(p, cfg.file);
    p - p % cfg.file
  }

  /** The length written at line 634. */
  function HeadPadding(cfg: Config, p: nat, w: nat): nat
    requires cfg.file > 0 && cfg.buffer > 0
  {
    var final := (p + w) % cfg.file;
    if cfg.reading.AsDocumented? then final else (p + final) % cfg.buffer
  }

  /** `padlen` of one trip of the reservation loop; the loop repeats while it is positive. */
  function PadLength(cfg: Config, p: nat, w: nat): nat
    requires cfg.file > 0 && cfg.buffer > 0
  {
    var f := p % cfg.file;
    if ReachesEnd(cfg, p, w) then cfg.file - f
    else if StartsInHead(cfg, p) then HeadPadding(cfg, p, w)
    else 0
  }

  /** The headers one trip writes after reserving [p, p + w). */
  function Reserve(cfg: Config, p: nat, w: nat): (rs: seq<Record>)
    requires cfg.file > 0 && cfg.buffer > 0
  {
    var f := p % cfg.file;
    var final := (p + w) % cfg.file;
    var padlen := PadLength(cfg, p, w);
    var padding :=
      if ReachesEnd(cfg, p, w) then
        SetPadding(p, padlen) +
        (if final >= RAW_HLEN && (cfg.reading.AsDocumented? ==> f + w >= cfg.file)
         then SetPadding(p + padlen, final) else [])
      else if StartsInHead(cfg, p) then SetPadding(FileStart(cfg, p), padlen)
      else [];
    if padlen > 0 then padding else padding + [Record(p, w, false)]
  }

  // ----- A list of reservations -----

  function Total(ws: seq<nat>): nat {
    if |ws| == 0 then 0 else Total(ws[..|ws| - 1]) + ws[|ws| - 1]
  }

  function Emitted(cfg: Config, ws: seq<nat>): seq<Record>
    requires cfg.file > 0 && cfg.buffer > 0
  {
    if |ws| == 0 then []
    else
      var before := ws[..|ws| - 1];
      Emitted(cfg, before) + Reserve(cfg, Total(before), ws[|ws| - 1])
  }

  /** The records lie end to end from a to b. */
  ghost predicate Tiled(rs: seq<Record>, a: nat, b: nat) {
    if |rs| == 0 then a == b
    else rs[|rs| - 1].End() == b && Tiled(rs[..|rs| - 1], a, rs[|rs| - 1].pos)
  }

  /** How far the records written for the first p bytes reach.  In the last eleven bytes of a file the
      padding already announced runs to the file's end; in the first eleven bytes of one, its
      padding is still owed. */
  function Cover(cfg: Config, p: nat): nat
    requires cfg.file > 0
  {
    var f := p % cfg.file;
    if 0 < f < RAW_HLEN then FileStart(cfg, p)
    else if f + RAW_HLEN > cfg.file then FileStart(cfg, p) + cfg.file
    else p
  }

  /** A reservation that stops in the last eleven bytes of its file and owns nothing of the next. */
  predicate StopsShort(cfg: Config, p: nat, w: nat)
    requires cfg.file > 0
  {
    ReachesEnd(cfg, p, w) && p % cfg.file + w < cfg.file
  }

  predicate Exposed(cfg: Config, p: nat, w: nat)
    requires cfg.file > 0
  {
    StartsInHead(cfg, p) || StopsShort(cfg, p, w)
  }

  ghost predicate NeverExposed(cfg: Config, ws: seq<nat>)
    requires cfg.file > 0
  {
    forall i :: 0 <= i < |ws| ==> !Exposed(cfg, Total(ws[..i]), ws[i])
  }

  // ----- Offsets inside a file -----

  lemma FileOffset(cfg: Config, p: nat, d: nat)
    requires cfg.file > 0 && p % cfg.file + d < 2 * cfg.file
    ensures (p + d) % cfg.file ==
              if p % cfg.file + d < cfg.file then p % cfg.file + d else p % cfg.file + d - cfg.file
  {
    AddWrapped(p, d, cfg.file);
    var x := p % cfg.file + d;
    if x < cfg.file {
      DivModUnique(x, 0, x, cfg.file);
    } else {
      DivModUnique(x, 1, x - cfg.file, cfg.file);
    }
  }

  lemma SmallPadding(padlen: nat)
    requires RAW_HLEN <= padlen < U16
    ensures forall pos: nat :: SetPadding(pos, padlen) == [Record(pos, padlen, true)]
  {
    DivModUnique(padlen - RAW_HLEN, 0, padlen - RAW_HLEN, U16);
  }

  /** Line 634 always announces p mod F bytes too many: both sizes are multiples of 2^16. */
  lemma {:induction false} HeadPaddingAsCoded(cfg: Config, p: nat, w: nat)
    requires cfg.Valid() && cfg.reading.AsCoded? && SizeOk(cfg, w)
    requires StartsInHead(cfg, p) && !ReachesEnd(cfg, p, w)
    ensures HeadPadding(cfg, p, w) >= RAW_HLEN
    ensures (HeadPadding(cfg, p, w) - RAW_HLEN) % U16 + RAW_HLEN == w + 2 * (p % cfg.file)
  {
    var f := p % cfg.file;
    FileOffset(cfg, p, w);
    var x := p + f + w;
    var h := HeadPadding(cfg, p, w);
    assert h == x % cfg.buffer;
    ModOfMultiple(x, cfg.buffer, U16);
    ModOfMultiple(p, cfg.file, U16);
    DivModUnique(f, 0, f, U16);
    AddWrapped(p, f + w, U16);
    DivModUnique(2 * f + w, 0, 2 * f + w, U16);
    assert h % U16 == 2 * f + w;
    var q := h / U16;
    DivModUnique(h - RAW_HLEN, q, 2 * f + w - RAW_HLEN, U16);
  }

  // ----- The step of the induction -----

  lemma {:induction false} FirstRecordContinues(cfg: Config, p: nat, w: nat)
    requires cfg.Valid() && SizeOk(cfg, w)
    ensures |Reserve(cfg, p, w)| > 0 ==> Reserve(cfg, p, w)[0].pos == Cover(cfg, p)
    ensures |Reserve(cfg, p, w)| == 0 ==> Cover(cfg, p) == Cover(cfg, p + w)
  {
    FileOffset(cfg, p, w);
    if ReachesEnd(cfg, p, w) {
    } else if StartsInHead(cfg, p) {
      if cfg.reading.AsCoded? {
        HeadPaddingAsCoded(cfg, p, w);
      }
    }
  }

  lemma TiledOne(r: Record, a: nat, b: nat)
    ensures Tiled([r], a, b) <==> r.pos == a && r.End() == b
  {
    assert [r][..0] == [];
  }

  lemma TiledTwo(r: Record, s: Record, a: nat, b: nat)
    ensures Tiled([r, s], a, b) <==> r.pos == a && r.End() == s.pos && s.End() == b
  {
    assert [r, s][..1] == [r];
    TiledOne(r, a, s.pos);
  }

  /** One trip lays its records end to end from where the others stop, unless it is one of the two
      places where the code departs from its comments. */
  lemma {:induction false} ReserveTiles(cfg: Config, p: nat, w: nat)
    requires cfg.Valid() && SizeOk(cfg, w)
    ensures Tiled(Reserve(cfg, p, w), Cover(cfg, p), Cover(cfg, p + w))
            <==> cfg.reading.AsDocumented? || !Exposed(cfg, p, w)
  {
    var f := p % cfg.file;
    FileOffset(cfg, p, w);
    if ReachesEnd(cfg, p, w) {
      ReserveAtEnd(cfg, p, w);
    } else if StartsInHead(cfg, p) {
      ReserveInHead(cfg, p, w);
    } else {
      assert Reserve(cfg, p, w) == [Record(p, w, false)];
      TiledOne(Record(p, w, false), Cover(cfg, p), Cover(cfg, p + w));
    }
  }

  lemma {:induction false} ReserveIsInHead(cfg: Config, p: nat, w: nat)
    requires cfg.Valid() && SizeOk(cfg, w) && StartsInHead(cfg, p) && !ReachesEnd(cfg, p, w)
    ensures var f := p % cfg.file;
            Reserve(cfg, p, w) ==
              [Record(FileStart(cfg, p), f + w + (if cfg.reading.AsDocumented? then 0 else f), true)]
  {
    var f := p % cfg.file;
    FileOffset(cfg, p, w);
    if cfg.reading.AsDocumented? {
      SmallPadding(f + w);
    } else {
      HeadPaddingAsCoded(cfg, p, w);
      hide HeadPadding;
    }
  }

  lemma {:induction false} ReserveInHead(cfg: Config, p: nat, w: nat)
    requires cfg.Valid() && SizeOk(cfg, w) && StartsInHead(cfg, p) && !ReachesEnd(cfg, p, w)
    ensures Tiled(Reserve(cfg, p, w), Cover(cfg, p), Cover(cfg, p + w)) <==> cfg.reading.AsDocumented?
  {
    hide Reserve, Tiled;
    var f := p % cfg.file;
    FileOffset(cfg, p, w);
    ReserveIsInHead(cfg, p, w);
    TiledOne(Reserve(cfg, p, w)[0], Cover(cfg, p), Cover(cfg, p + w));
  }

  /** The headers written by a reservation that reaches the end of its file. */
  function AtEnd(cfg: Config, p: nat, w: nat): seq<Record>
    requires cfg.Valid() && ReachesEnd(cfg, p, w)
  {
    var f, F := p % cfg.file, cfg.file;
    var next := FileStart(cfg, p) + F;
    if f + w < F then
      if cfg.reading.AsDocumented? then [Record(p, F - f, true)]
      else [Record(p, F - f, true), Record(next, RAW_HLEN + (f + w - RAW_HLEN) % U16, true)]
    else
      (if F - f >= RAW_HLEN then [Record(p, F - f, true)] else []) +
      (if f + w - F >= RAW_HLEN then [Record(next, f + w - F, true)] else [])
  }

  lemma {:induction false} ReserveIsAtEnd(cfg: Config, p: nat, w: nat)
    requires cfg.Valid() && SizeOk(cfg, w) && ReachesEnd(cfg, p, w)
    ensures Reserve(cfg, p, w) == AtEnd(cfg, p, w)
  {
    var f, F := p % cfg.file, cfg.file;
    FileOffset(cfg, p, w);
    if F - f >= RAW_HLEN { SmallPadding(F - f); }
    if f + w - F >= RAW_HLEN { SmallPadding(f + w - F); }
  }

  lemma {:induction false} ReserveAtEnd(cfg: Config, p: nat, w: nat)
    requires cfg.Valid() && SizeOk(cfg, w) && ReachesEnd(cfg, p, w)
    ensures Tiled(Reserve(cfg, p, w), Cover(cfg, p), Cover(cfg, p + w))
            <==> cfg.reading.AsDocumented? || !StopsShort(cfg, p, w)
  {
    hide Reserve;
    var f, F := p % cfg.file, cfg.file;
    var next := p - f + F;
    ReserveIsAtEnd(cfg, p, w);
    FileOffset(cfg, p, w);
    hide Tiled;
    if f + w < F {
      TiledOne(Record(p, F - f, true), p, next);
      TiledTwo(Record(p, F - f, true), Record(next, RAW_HLEN + (f + w - RAW_HLEN) % U16, true), p, next);
    } else {
      var final := f + w - F;
      var tail, head := Record(p, F - f, true), Record(next, final, true);
      TiledOne(tail, p, next);
      TiledOne(head, next, p + w);
      TiledTwo(tail, head, p, p + w);
    }
  }

  lemma {:induction false} TiledAppend(rs: seq<Record>, ss: seq<Record>, a: nat, m: nat, b: nat)
    requires |ss| > 0 ==> ss[0].pos == m
    requires |ss| == 0 ==> m == b
    ensures Tiled(rs + ss, a, b) <==> Tiled(rs, a, m) && Tiled(ss, m, b)
    decreases |ss|
  {
    if |ss| == 0 {
      assert rs + ss == rs;
    } else {
      var r := ss[|ss| - 1];
      var ss' := ss[..|ss| - 1];
      assert (rs + ss)[..|rs + ss| - 1] == rs + ss';
      assert (rs + ss)[|rs + ss| - 1] == r;
      TiledAppend(rs, ss', a, m, r.pos);
    }
  }

  lemma {:induction false} OneMoreTiles(cfg: Config, ws: seq<nat>)
    requires cfg.Valid() && |ws| > 0 && SizeOk(cfg, ws[|ws| - 1])
    ensures var before, w := ws[..|ws| - 1], ws[|ws| - 1];
            var p := Total(before);
            Tiled(Emitted(cfg, ws), 0, Cover(cfg, Total(ws)))
            <==> Tiled(Emitted(cfg, before), 0, Cover(cfg, p)) && (cfg.reading.AsDocumented? || !Exposed(cfg, p, w))
  {
    hide Reserve, Cover, Exposed, Tiled;
    var before, w := ws[..|ws| - 1], ws[|ws| - 1];
    var p := Total(before);
    FirstRecordContinues(cfg, p, w);
    ReserveTiles(cfg, p, w);
    TiledAppend(Emitted(cfg, before), Reserve(cfg, p, w), 0, Cover(cfg, p), Cover(cfg, p + w));
  }

  /** The records of any list of reservations lie end to end and reach `Cover` of the bytes reserved.
      By the comments always; by the code exactly when no reservation starts in the first eleven
      bytes of a file and none stops in the last eleven. */
  lemma {:induction false} StreamTiles(cfg: Config, ws: seq<nat>)
    requires cfg.Valid() && forall i :: 0 <= i < |ws| ==> SizeOk(cfg, ws[i])
    ensures Tiled(Emitted(cfg, ws), 0, Cover(cfg, Total(ws)))
            <==> cfg.reading.AsDocumented? || NeverExposed(cfg, ws)
  {
    if |ws| == 0 {
      DivModUnique(0, 0, 0, cfg.file);
    } else {
      StreamTiles(cfg, ws[..|ws| - 1]);
      OneMoreTiles(cfg, ws);
      NeverExposedStep(cfg, ws);
    }
  }

  lemma NeverExposedStep(cfg: Config, ws: seq<nat>)
    requires cfg.file > 0 && |ws| > 0
    ensures var before := ws[..|ws| - 1];
            NeverExposed(cfg, ws) <==>
              NeverExposed(cfg, before) && !Exposed(cfg, Total(before), ws[|ws| - 1])
  {
    var before := ws[..|ws| - 1];
    forall i | 0 <= i < |before| ensures before[..i] == ws[..i] && before[i] == ws[i] {
    }
    if NeverExposed(cfg, ws) {
      forall i | 0 <= i < |before| ensures !Exposed(cfg, Total(before[..i]), before[i]) {
        assert !Exposed(cfg, Total(ws[..i]), ws[i]);
      }
      assert !Exposed(cfg, Total(ws[..|ws| - 1]), ws[|ws| - 1]);
    }
    if NeverExposed(cfg, before) && !Exposed(cfg, Total(before), ws[|ws| - 1]) {
      forall i | 0 <= i < |ws| ensures !Exposed(cfg, Total(ws[..i]), ws[i]) {
        if i < |before| {
          assert !Exposed(cfg, Total(before[..i]), before[i]);
        }
      }
    }
  }

  // ----- The one place where a write goes below its reservation -----

  /** A trip writes a header before the bytes it reserved exactly when its reservation starts in the
      first eleven bytes of a file: the padding owed there begins at the file's start.  A publication
      in between has then let readers see those bytes already. */
  lemma {:induction false} HeaderBelowReservation(cfg: Config, p: nat, w: nat)
    requires cfg.Valid() && SizeOk(cfg, w)
    ensures (exists r :: r in Reserve(cfg, p, w) && r.pos < p) <==> StartsInHead(cfg, p)
  {
    FileOffset(cfg, p, w);
    if StartsInHead(cfg, p) {
      ReserveIsInHead(cfg, p, w);
      assert Reserve(cfg, p, w)[0].pos < p;
      assert Reserve(cfg, p, w)[0] in Reserve(cfg, p, w);
    } else if ReachesEnd(cfg, p, w) {
      ReserveIsAtEnd(cfg, p, w);
    }
  }

  /** A client that starts at the write position starts at a record boundary exactly when that position
      is not among the first or last eleven bytes of a file: there the next record begins elsewhere. */
  lemma {:induction false} NextRecordAt(cfg: Config, p: nat, w: nat)
    requires cfg.Valid() && SizeOk(cfg, w) && |Reserve(cfg, p, w)| > 0
    ensures Reserve(cfg, p, w)[0].pos == p <==>
              p % cfg.file == 0 || RAW_HLEN <= p % cfg.file <= cfg.file - RAW_HLEN
  {
    FirstRecordContinues(cfg, p, w);
  }
}
