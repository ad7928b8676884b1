/** Lists of reservations that meet the two places where the layout as coded departs from its comments. */
module ExposedLayouts {
  import opened Cyclic
  import opened StreamLayout

  /** The size of the smallest reservation: a header and one byte. */
  const LEAST := RAW_HLEN + 1

  ghost predicate AllOk(cfg: Config, ws: seq<nat>) {
    forall i :: 0 <= i < |ws| ==> SizeOk(cfg, ws[i])
  }

  /** k reservations of the smallest size, the first `extra` of them a byte larger. */
  function Smallest(k: nat, extra: nat): (ws: seq<nat>)
    ensures |ws| == k
  {
    seq(k, (i: nat) => if i < extra then LEAST + 1 else LEAST)
  }

  lemma {:induction false} SmallestTotal(k: nat, extra: nat)
    requires extra <= k
    ensures Total(Smallest(k, extra)) == k * LEAST + extra
  {
    if k > 0 {
      var less := if extra < k then extra else extra - 1;
      assert Smallest(k, extra)[..k - 1] == Smallest(k - 1, less);
      SmallestTotal(k - 1, less);
    }
  }

  /** Where two sizes are allowed, every position can be reached, and else every multiple of the one. */
  lemma {:induction false} Reachable(cfg: Config, p: nat)
    requires cfg.Valid() && (p % LEAST == 0 || (cfg.most > LEAST && p % LEAST <= p / LEAST))
    ensures AllOk(cfg, Smallest(p / LEAST, p % LEAST)) && Total(Smallest(p / LEAST, p % LEAST)) == p
  {
    SmallestTotal(p / LEAST, p % LEAST);
  }

  lemma {:induction false} ExposedBreaks(cfg: Config, ws: seq<nat>, w: nat)
    requires cfg.Valid() && cfg.reading.AsCoded? && AllOk(cfg, ws) && SizeOk(cfg, w) && Exposed(cfg, Total(ws), w)
    ensures AllOk(cfg, ws + [w])
    ensures !Tiled(Emitted(cfg, ws + [w]), 0, Cover(cfg, Total(ws + [w])))
  {
    var all := ws + [w];
    StreamTiles(cfg, all);
    assert all[..|ws|] == ws && all[|ws|] == w;
  }

  /** Some list's last reservation is of the kind given, and its records do not lie end to end. */
  ghost predicate BreaksAtHead(cfg: Config, ws: seq<nat>, w: nat)
    requires cfg.file > 0 && cfg.buffer > 0
  {
    && AllOk(cfg, ws + [w]) && StartsInHead(cfg, Total(ws))
    && !Tiled(Emitted(cfg, ws + [w]), 0, Cover(cfg, Total(ws + [w])))
  }

  ghost predicate BreaksAtTail(cfg: Config, ws: seq<nat>, w: nat)
    requires cfg.file > 0 && cfg.buffer > 0
  {
    && AllOk(cfg, ws + [w]) && StopsShort(cfg, Total(ws), w)
    && !Tiled(Emitted(cfg, ws + [w]), 0, Cover(cfg, Total(ws + [w])))
  }

  /** Sizes for which a reservation can stop elsewhere than at a multiple of the file's fixed grid. */
  predicate OffGrid(cfg: Config) {
    cfg.most > LEAST || cfg.file % LEAST != 0
  }

  /** A position in the first eleven bytes of a file. */
  function HeadPosition(cfg: Config): nat {
    if cfg.most > LEAST then cfg.file + 6
    else if cfg.file % LEAST == 1 then (2 * (cfg.file / LEAST) + 1) * LEAST
    else (cfg.file / LEAST + 1) * LEAST
  }

  lemma {:induction false} HeadPositionOk(cfg: Config)
    requires cfg.Valid() && cfg.reading.AsCoded? && OffGrid(cfg)
    ensures StartsInHead(cfg, HeadPosition(cfg))
    ensures HeadPosition(cfg) % LEAST == 0
            || (cfg.most > LEAST && HeadPosition(cfg) % LEAST <= HeadPosition(cfg) / LEAST)
  {
    var p, f, m := HeadPosition(cfg), cfg.file, cfg.file / LEAST;
    assert f >= U16;
    if cfg.most > LEAST {
      DivModUnique(p, 1, 6, f);
    } else if f % LEAST == 1 {
      DivModUnique(p, 2, 11, f);
      DivModUnique(p, 2 * m + 1, 0, LEAST);
    } else {
      DivModUnique(p, 1, LEAST - f % LEAST, f);
      DivModUnique(p, m + 1, 0, LEAST);
    }
  }

  /** As coded, line 634 is met: some list of reservations has one that starts in the first eleven bytes of a
      file, and its records do not lie end to end. */
  lemma {:induction false} BreaksAtSomeHead(cfg: Config)
    requires cfg.Valid() && cfg.reading.AsCoded? && OffGrid(cfg)
    ensures exists ws, w :: BreaksAtHead(cfg, ws, w)
  {
    hide OffGrid, HeadPosition, Emitted, Tiled;
    HeadPositionOk(cfg);
    var p := HeadPosition(cfg);
    Reachable(cfg, p);
    var ws := Smallest(p / LEAST, p % LEAST);
    ExposedBreaks(cfg, ws, LEAST);
    assert BreaksAtHead(cfg, ws, LEAST);
  }

  /** A position from which the smallest reservation stops in the last eleven bytes of the file. */
  function TailPosition(cfg: Config): int {
    if cfg.most > LEAST then cfg.file - 20
    else if cfg.file % LEAST == LEAST - 1 then 2 * (cfg.file / LEAST) * LEAST
    else (cfg.file / LEAST - 1) * LEAST
  }

  lemma {:induction false} TailPositionOk(cfg: Config)
    requires cfg.Valid() && cfg.reading.AsCoded? && OffGrid(cfg)
    ensures TailPosition(cfg) >= 0 && StopsShort(cfg, TailPosition(cfg), LEAST)
    ensures TailPosition(cfg) % LEAST == 0
            || (cfg.most > LEAST && TailPosition(cfg) % LEAST <= TailPosition(cfg) / LEAST)
  {
    var p, f, m := TailPosition(cfg), cfg.file, cfg.file / LEAST;
    assert f >= U16;
    if cfg.most > LEAST {
      DivModUnique(p, 0, f - 20, f);
    } else if f % LEAST == LEAST - 1 {
      DivModUnique(p, 1, f - 24, f);
      DivModUnique(p, 2 * m, 0, LEAST);
    } else {
      DivModUnique(p, 0, p, f);
      DivModUnique(p, m - 1, 0, LEAST);
    }
  }

  /** As coded, lines 623-624 are met, too: some list has a reservation that stops in the last eleven bytes. */
  lemma {:induction false} BreaksAtSomeTail(cfg: Config)
    requires cfg.Valid() && cfg.reading.AsCoded? && OffGrid(cfg)
    ensures exists ws, w :: BreaksAtTail(cfg, ws, w)
  {
    hide OffGrid, TailPosition, Emitted, Tiled;
    TailPositionOk(cfg);
    var p := TailPosition(cfg);
    Reachable(cfg, p);
    var ws := Smallest(p / LEAST, p % LEAST);
    ExposedBreaks(cfg, ws, LEAST);
    assert BreaksAtTail(cfg, ws, LEAST);
  }

  lemma {:induction false} AllLeast(cfg: Config, ws: seq<nat>)
    requires cfg.most == LEAST && AllOk(cfg, ws)
    ensures Total(ws) % LEAST == 0
  {
    if |ws| > 0 {
      var before := ws[..|ws| - 1];
      assert forall i :: 0 <= i < |before| ==> before[i] == ws[i];
      AllLeast(cfg, before);
      AddPeriod(Total(before), LEAST);
    }
  }

  lemma {:induction false} GridIsSafe(cfg: Config, p: nat)
    requires cfg.Valid() && cfg.file % LEAST == 0 && p % LEAST == 0
    ensures !Exposed(cfg, p, LEAST)
  {
    ModOfMultiple(p, cfg.file, LEAST);
  }

  /** There is a list of reservations that the code lays out wrongly, for all sizes of file and record but
      one: records of a single byte, and files of a multiple of such a record's thirteen bytes. */
  lemma {:induction false} CodeMissesIff(cfg: Config)
    requires cfg.Valid() && cfg.reading.AsCoded?
    ensures (exists ws :: AllOk(cfg, ws) && !Tiled(Emitted(cfg, ws), 0, Cover(cfg, Total(ws)))) <==> OffGrid(cfg)
  {
    hide Emitted, Tiled, Cover;
    if OffGrid(cfg) {
      BreaksAtSomeHead(cfg);
      var ws, w :| BreaksAtHead(cfg, ws, w);
      assert AllOk(cfg, ws + [w]);
    } else {
      forall ws | AllOk(cfg, ws) ensures Tiled(Emitted(cfg, ws), 0, Cover(cfg, Total(ws))) {
        StreamTiles(cfg, ws);
        forall i | 0 <= i < |ws| ensures !Exposed(cfg, Total(ws[..i]), ws[i]) {
          assert forall j :: 0 <= j < i ==> ws[..i][j] == ws[j];
          AllLeast(cfg, ws[..i]);
          GridIsSafe(cfg, Total(ws[..i]));
        }
      }
    }
  }
}
