/** The stream cut every HPCAP_FILESIZE bytes: each piece is a well-formed RAW file. */
module FileLayout {
  import opened Cyclic
  import opened StreamLayout

  /** The layout theorem applies: read by its comments, or never in the places where they differ. */
  ghost predicate LaidOut(cfg: Config, ws: seq<nat>) {
    && cfg.Valid()
    && (forall i :: 0 <= i < |ws| ==> SizeOk(cfg, ws[i]))
    && (cfg.reading.AsDocumented? || NeverExposed(cfg, ws))
  }

  /** No record crosses a file boundary; padding touches one; a frame leaves room for a header after it. */
  predicate RecordOk(cfg: Config, r: Record)
    requires cfg.file > 0
  {
    && r.size >= RAW_HLEN
    && r.pos % cfg.file + r.size <= cfg.file
    && (r.padding ==>
          && r.size < cfg.most + RAW_HLEN
          && (r.pos % cfg.file == 0 || r.pos % cfg.file + r.size == cfg.file))
    && (!r.padding ==> SizeOk(cfg, r.size) && r.pos % cfg.file + r.size + RAW_HLEN <= cfg.file)
  }

  lemma {:induction false} ReserveOk(cfg: Config, p: nat, w: nat, r: Record)
    requires cfg.Valid() && SizeOk(cfg, w) && (cfg.reading.AsDocumented? || !Exposed(cfg, p, w))
    requires r in Reserve(cfg, p, w)
    ensures RecordOk(cfg, r) && r.pos + RAW_HLEN <= p + w
  {
    var f, F := p % cfg.file, cfg.file;
    FileOffset(cfg, p, w);
    FileOffset(cfg, p, F - f);
    if ReachesEnd(cfg, p, w) {
      hide Reserve;
      ReserveIsAtEnd(cfg, p, w);
    } else if StartsInHead(cfg, p) {
      hide Reserve;
      ReserveIsInHead(cfg, p, w);
      DivModExpand(p, F);
      DivModUnique(p - f, p / F, 0, F);
    }
  }

  lemma {:induction false} EmittedOk(cfg: Config, ws: seq<nat>, r: Record)
    requires LaidOut(cfg, ws) && r in Emitted(cfg, ws)
    ensures RecordOk(cfg, r) && r.pos + RAW_HLEN <= Total(ws)
  {
    var before, w := ws[..|ws| - 1], ws[|ws| - 1];
    NeverExposedStep(cfg, ws);
    if r in Emitted(cfg, before) {
      EmittedOk(cfg, before, r);
    } else {
      ReserveOk(cfg, Total(before), w, r);
    }
  }

  // ----- Records end to end -----

  lemma {:induction false} TiledAt(rs: seq<Record>, a: nat, b: nat, i: nat)
    requires Tiled(rs, a, b) && i < |rs| && forall r :: r in rs ==> r.size > 0
    ensures a <= rs[i].pos && rs[i].End() <= b
    ensures i == 0 <==> rs[i].pos == a
    ensures i == |rs| - 1 <==> rs[i].End() == b
    ensures i + 1 < |rs| ==> rs[i].End() == rs[i + 1].pos
    decreases |rs|
  {
    var rs' := rs[..|rs| - 1];
    if i < |rs'| {
      TiledAt(rs', a, rs[|rs| - 1].pos, i);
    } else if |rs'| > 0 {
      TiledAt(rs', a, rs[|rs| - 1].pos, |rs'| - 1);
    }
  }

  /** Records that lie end to end do not overlap: no header falls on bytes of another record, and all of
      them fall on reserved bytes. */
  lemma {:induction false} HeadersNeverCollide(cfg: Config, ws: seq<nat>, i: nat, j: nat)
    requires LaidOut(cfg, ws) && i < j < |Emitted(cfg, ws)|
    ensures Emitted(cfg, ws)[i].End() <= Emitted(cfg, ws)[j].pos
    ensures Emitted(cfg, ws)[j].pos + RAW_HLEN <= Total(ws)
    decreases j - i
  {
    hide Emitted, Tiled, Cover, Exposed;
    var rs := Emitted(cfg, ws);
    StreamTiles(cfg, ws);
    forall r | r in rs ensures r.size > 0 {
      EmittedOk(cfg, ws, r);
    }
    TiledAt(rs, 0, Cover(cfg, Total(ws)), i);
    EmittedOk(cfg, ws, rs[j]);
    if i + 1 < j {
      HeadersNeverCollide(cfg, ws, i + 1, j);
    }
  }

  // ----- One file -----

  /** The records that begin in [a, b). */
  function Within(rs: seq<Record>, a: nat, b: nat): (ss: seq<Record>)
    ensures forall r :: r in ss ==> r in rs && a <= r.pos < b
  {
    if |rs| == 0 then []
    else
      var r := rs[|rs| - 1];
      Within(rs[..|rs| - 1], a, b) + (if a <= r.pos < b then [r] else [])
  }

  predicate Crosses(r: Record, x: nat) {
    r.pos < x < r.End()
  }

  lemma {:induction false} NoneWithin(rs: seq<Record>, a: nat, b: nat)
    requires forall r :: r in rs ==> r.pos < a
    ensures Within(rs, a, b) == []
  {
    if |rs| > 0 {
      NoneWithin(rs[..|rs| - 1], a, b);
    }
  }

  lemma {:induction false} TiledWithin(rs: seq<Record>, end: nat, a: nat, b: nat)
    requires Tiled(rs, 0, end) && a < b && a <= end
    requires forall r :: r in rs ==> r.size > 0 && !Crosses(r, a) && !Crosses(r, b)
    ensures Tiled(Within(rs, a, b), a, if end < b then end else b)
    decreases |rs|
  {
    if |rs| > 0 {
      var rs', r := rs[..|rs| - 1], rs[|rs| - 1];
      if r.pos < a {
        forall i | 0 <= i < |rs| ensures rs[i].pos < a {
          TiledAt(rs, 0, end, i);
        }
        NoneWithin(rs, a, b);
      } else {
        TiledWithin(rs', r.pos, a, b);
        if r.pos < b {
          assert Within(rs, a, b)[..|Within(rs, a, b)| - 1] == Within(rs', a, b);
        } else {
          assert Within(rs, a, b) == Within(rs', a, b);
        }
      }
    }
  }

  lemma {:induction false} NeverCrosses(cfg: Config, r: Record, x: nat)
    requires cfg.file > 0 && RecordOk(cfg, r) && x % cfg.file == 0
    ensures !Crosses(r, x)
  {
    var k := x / cfg.file;
    DivModExpand(x, cfg.file);
    DivModExpand(r.pos, cfg.file);
    MulOrder(k, r.pos / cfg.file, cfg.file);
    MulOrder(r.pos / cfg.file, k, cfg.file);
  }

  /** What a RAW file is: records that chain exactly over its bytes, padding only at its two ends and
      always at the second, and at least one frame. */
  ghost predicate WellFormedFile(cfg: Config, rs: seq<Record>, k: nat) {
    && Tiled(rs, k * cfg.file, k * cfg.file + cfg.file)
    && |rs| >= 2
    && rs[|rs| - 1].padding
    && (forall i :: 0 < i < |rs| - 1 ==> !rs[i].padding)
    && (exists i :: 0 <= i < |rs| && !rs[i].padding)
  }

  lemma InFile(cfg: Config, x: nat, k: nat)
    requires cfg.file > 0 && k * cfg.file <= x < k * cfg.file + cfg.file
    ensures x % cfg.file == x - k * cfg.file
  {
    DivModUnique(x, k, x - k * cfg.file, cfg.file);
  }

  lemma {:induction false} PaddingPlace(cfg: Config, rs: seq<Record>, k: nat, i: nat)
    requires cfg.Valid() && i < |rs| && forall r :: r in rs ==> RecordOk(cfg, r)
    requires Tiled(rs, k * cfg.file, k * cfg.file + cfg.file)
    ensures rs[i].padding ==> i == 0 || i == |rs| - 1
    ensures i == |rs| - 1 ==> rs[i].padding
  {
    TiledAt(rs, k * cfg.file, k * cfg.file + cfg.file, i);
    InFile(cfg, rs[i].pos, k);
    assert RecordOk(cfg, rs[i]);
  }

  lemma {:induction false} SomeFrame(cfg: Config, rs: seq<Record>, k: nat)
    requires cfg.Valid() && forall r :: r in rs ==> RecordOk(cfg, r)
    requires Tiled(rs, k * cfg.file, k * cfg.file + cfg.file)
    ensures |rs| >= 2 && exists i :: 0 <= i < |rs| && !rs[i].padding
  {
    var a, b := k * cfg.file, k * cfg.file + cfg.file;
    var n := |rs|;
    assert n > 0;
    TiledAt(rs, a, b, 0);
    TiledAt(rs, a, b, n - 1);
    assert RecordOk(cfg, rs[0]) && RecordOk(cfg, rs[n - 1]);
    PaddingPlace(cfg, rs, k, n - 1);
    assert n >= 2;
    if rs[0].padding {
      PaddingPlace(cfg, rs, k, 1);
      assert !rs[1].padding;
    } else {
      assert !rs[0].padding;
    }
  }

  lemma {:induction false} CutTiles(cfg: Config, ws: seq<nat>, a: nat, b: nat)
    requires LaidOut(cfg, ws) && a < b <= Cover(cfg, Total(ws))
    requires forall r :: r in Emitted(cfg, ws) ==> !Crosses(r, a) && !Crosses(r, b)
    ensures Tiled(Within(Emitted(cfg, ws), a, b), a, b)
  {
    StreamTiles(cfg, ws);
    forall r | r in Emitted(cfg, ws) ensures r.size > 0 {
      EmittedOk(cfg, ws, r);
    }
    TiledWithin(Emitted(cfg, ws), Cover(cfg, Total(ws)), a, b);
  }

  lemma {:induction false} NoneCross(cfg: Config, ws: seq<nat>, x: nat)
    requires LaidOut(cfg, ws) && x % cfg.file == 0
    ensures forall r :: r in Emitted(cfg, ws) ==> !Crosses(r, x)
  {
    forall r | r in Emitted(cfg, ws) ensures !Crosses(r, x) {
      EmittedOk(cfg, ws, r);
      NeverCrosses(cfg, r, x);
    }
  }

  lemma {:induction false} FileTiles(cfg: Config, ws: seq<nat>, k: nat)
    requires LaidOut(cfg, ws)
    requires k * cfg.file + cfg.file <= Cover(cfg, Total(ws))
    ensures Tiled(Within(Emitted(cfg, ws), k * cfg.file, k * cfg.file + cfg.file),
                  k * cfg.file, k * cfg.file + cfg.file)
  {
    var a, b := k * cfg.file, k * cfg.file + cfg.file;
    DivModUnique(a, k, 0, cfg.file);
    AddPeriod(a, cfg.file);
    NoneCross(cfg, ws, a);
    NoneCross(cfg, ws, b);
    CutTiles(cfg, ws, a, b);
  }

  lemma {:induction false} FileShape(cfg: Config, rs: seq<Record>, k: nat)
    requires cfg.Valid() && forall r :: r in rs ==> RecordOk(cfg, r)
    requires Tiled(rs, k * cfg.file, k * cfg.file + cfg.file)
    ensures WellFormedFile(cfg, rs, k)
  {
    SomeFrame(cfg, rs, k);
    forall i | 0 <= i < |rs| ensures rs[i].padding ==> i == 0 || i == |rs| - 1 {
      PaddingPlace(cfg, rs, k, i);
    }
    PaddingPlace(cfg, rs, k, |rs| - 1);
  }

  /** Every complete file of the stream is well formed. */
  lemma {:induction false} FilesAreWellFormed(cfg: Config, ws: seq<nat>, k: nat)
    requires LaidOut(cfg, ws)
    requires k * cfg.file + cfg.file <= Cover(cfg, Total(ws))
    ensures WellFormedFile(cfg, Within(Emitted(cfg, ws), k * cfg.file, k * cfg.file + cfg.file), k)
  {
    var rs := Within(Emitted(cfg, ws), k * cfg.file, k * cfg.file + cfg.file);
    FileTiles(cfg, ws, k);
    forall r | r in rs ensures RecordOk(cfg, r) {
      EmittedOk(cfg, ws, r);
    }
    FileShape(cfg, rs, k);
  }

  lemma OkHasSize(cfg: Config, r: Record)
    requires cfg.file > 0 && RecordOk(cfg, r)
    ensures r.size > 0
  {
  }

  /** The reader gives up after four padding records in a row; the stream never holds even three. */
  lemma {:induction false} PaddingRunsAreShort(cfg: Config, ws: seq<nat>, i: nat)
    requires LaidOut(cfg, ws) && i + 2 < |Emitted(cfg, ws)|
    ensures var rs := Emitted(cfg, ws); !(rs[i].padding && rs[i + 1].padding && rs[i + 2].padding)
  {
    hide Emitted, Tiled, Cover, RecordOk, Exposed;
    var rs := Emitted(cfg, ws);
    StreamTiles(cfg, ws);
    forall r | r in rs ensures RecordOk(cfg, r) && r.size > 0 {
      EmittedOk(cfg, ws, r);
      OkHasSize(cfg, r);
    }
    TiledAt(rs, 0, Cover(cfg, Total(ws)), i);
    TiledAt(rs, 0, Cover(cfg, Total(ws)), i + 1);
    ThreePads(cfg, rs[i], rs[i + 1], rs[i + 2]);
  }

  lemma {:induction false} ThreePads(cfg: Config, a: Record, b: Record, c: Record)
    requires cfg.Valid() && RecordOk(cfg, a) && RecordOk(cfg, b) && RecordOk(cfg, c)
    requires a.End() == b.pos && b.End() == c.pos
    ensures !(a.padding && b.padding && c.padding)
  {
    if a.padding {
      FileOffset(cfg, a.pos, a.size);
    }
    if b.padding {
      FileOffset(cfg, b.pos, b.size);
    }
  }
}
