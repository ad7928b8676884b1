/** The table that recognises duplicate frames. */
module DuplicateTable {
  import opened Cyclic
  import opened StreamLayout
  import opened RawRecord

  const CHECK_LEN := 70
  const TIME_WINDOW := 2_000_000_000

  /** `struct hpcap_dup_info`; a time stamp of zero marks an unused entry. */
  datatype Info = Info(tstamp: nat, len: nat, data: seq<Byte>) {
    predicate Valid() {
      |data| == CHECK_LEN
    }
  }

  /** A frame as the check sees it. */
  datatype Probe = Probe(tstamp: nat, bytes: seq<Byte>) {
    predicate Valid() {
      tstamp > 0 && |bytes| < U16
    }

    function Checked(): (n: nat)
      ensures n <= |bytes| && n <= CHECK_LEN
    {
      if |bytes| <= CHECK_LEN then |bytes| else CHECK_LEN
    }
  }

  // ----- The code -----

  predicate Matches(p: Info, f: Probe)
    requires p.Valid()
  {
    && p.tstamp != 0
    && 0 <= f.tstamp - p.tstamp <= TIME_WINDOW
    && |f.bytes| == p.len
    && p.data[..f.Checked()] == f.bytes[..f.Checked()]
  }

  /** What the loop over the levels has found: a duplicate, and the entry to replace. */
  datatype Scan = Scan(hit: bool, dif: nat, k: nat)

  function Scanned(b: seq<Info>, f: Probe, n: nat): Scan
    requires n <= |b| && forall i :: 0 <= i < |b| ==> b[i].Valid() && b[i].tstamp <= f.tstamp
  {
    if n == 0 then Scan(false, 0, 0)
    else
      var s := Scanned(b, f, n - 1);
      var p := b[n - 1];
      if p.tstamp != 0 then
        var dif2 := f.tstamp - p.tstamp;
        var hit := s.hit || Matches(p, f);
        if dif2 > s.dif then Scan(hit, dif2, n - 1) else Scan(hit, s.dif, s.k)
      else Scan(s.hit, f.tstamp, n - 1)
  }

  function Stored(p: Info, f: Probe): (p': Info)
    requires p.Valid()
    ensures p'.Valid()
  {
    Info(f.tstamp, |f.bytes| % U16, f.bytes[..f.Checked()] + p.data[f.Checked()..])
  }

  // ----- A bucket is a queue -----

  /** The entry holds the frame. */
  predicate Holds(p: Info, f: Probe) {
    && p.Valid()
    && p.tstamp == f.tstamp && p.len == |f.bytes|
    && p.data[..f.Checked()] == f.bytes[..f.Checked()]
  }

  /** Where the j-th frame of a bucket goes: from the highest level down, and round again. */
  function LevelOf(j: nat, levels: nat): (i: nat)
    requires levels > 0
    ensures i < levels
  {
    levels - 1 - j % levels
  }

  ghost predicate Increasing(h: seq<Probe>) {
    && (forall j :: 0 <= j < |h| ==> h[j].Valid())
    && (forall i, j :: 0 <= i < j < |h| ==> h[i].tstamp < h[j].tstamp)
  }

  /** The bucket holds exactly the last frames of the history, as many as there are levels. */
  ghost predicate HoldsLast(b: seq<Info>, h: seq<Probe>) {
    && |b| > 0
    && (forall i :: 0 <= i < |b| ==> b[i].Valid())
    && (forall j :: 0 <= j < |h| && |h| <= j + |b| ==> Holds(b[LevelOf(j, |b|)], h[j]))
    && (forall i :: 0 <= i < |b| && i + |h| < |b| ==> b[i].tstamp == 0)
  }

  lemma LevelAgain(n: nat, levels: nat)
    requires 0 < levels <= n
    ensures LevelOf(n, levels) == LevelOf(n - levels, levels)
  {
    AddPeriod(n - levels, levels);
  }

  lemma LevelEarly(j: nat, levels: nat)
    requires j < levels
    ensures LevelOf(j, levels) == levels - 1 - j
  {
    DivModUnique(j, 0, j, levels);
  }

  /** Frames less than a round apart sit on different levels. */
  lemma LevelsDiffer(i: nat, j: nat, levels: nat)
    requires i < j < i + levels
    ensures LevelOf(i, levels) != LevelOf(j, levels)
  {
    if i % levels == j % levels {
      SameOffset(i, j, levels);
    }
  }

  /** The frame on a used level. */
  function FrameAt(i: nat, n: nat, levels: nat): (j: int)
    requires i < levels && levels <= i + n
    ensures 0 <= j < n && n <= j + levels && LevelOf(j, levels) == i
  {
    var r := levels - 1 - i;
    var q := (n - 1 - r) / levels;
    DivModExpand(n - 1 - r, levels);
    MulOrder(0, q, levels);
    DivModUnique(r + q * levels, q, r, levels);
    r + q * levels
  }

  lemma {:induction false} UsedStamps(b: seq<Info>, h: seq<Probe>, i: nat)
    requires HoldsLast(b, h) && Increasing(h) && i < |b|
    ensures b[i].tstamp == 0 <==> i + |h| < |b|
    ensures i + |h| >= |b| ==> Holds(b[i], h[FrameAt(i, |h|, |b|)])
  {
    if i + |h| >= |b| {
      var j := FrameAt(i, |h|, |b|);
      assert Holds(b[LevelOf(j, |b|)], h[j]);
    }
  }

  // ----- The scan -----

  ghost predicate Newer(b: seq<Info>, f: Probe) {
    f.Valid() && forall i :: 0 <= i < |b| ==> b[i].Valid() && b[i].tstamp < f.tstamp
  }

  /** The scan replaces the highest unused entry, or else the oldest one; it reports whether any matches. */
  lemma {:induction false} ScanFinds(b: seq<Info>, f: Probe, n: nat)
    requires Newer(b, f) && n <= |b|
    ensures var s := Scanned(b, f, n);
            && (s.hit <==> exists i :: 0 <= i < n && Matches(b[i], f))
            && (n > 0 ==> s.k < n)
            && ((exists i :: 0 <= i < n && b[i].tstamp == 0) ==>
                  b[s.k].tstamp == 0 && s.dif == f.tstamp && forall i :: s.k < i < n ==> b[i].tstamp != 0)
            && (n > 0 && (forall i :: 0 <= i < n ==> b[i].tstamp != 0) ==>
                  s.dif == f.tstamp - b[s.k].tstamp && forall i :: 0 <= i < n ==> b[s.k].tstamp <= b[i].tstamp)
            && (n == 0 ==> s.dif == 0)
  {
    if n > 0 {
      ScanFinds(b, f, n - 1);
    }
  }

  lemma {:induction false} ReplacesOldest(b: seq<Info>, h: seq<Probe>, f: Probe)
    requires HoldsLast(b, h) && Increasing(h + [f])
    ensures Newer(b, f)
    ensures Scanned(b, f, |b|).k == LevelOf(|h|, |b|)
  {
    var n, levels := |h|, |b|;
    assert (h + [f])[n] == f;
    assert forall j :: 0 <= j < n ==> (h + [f])[j] == h[j];
    forall i | 0 <= i < levels ensures b[i].Valid() && b[i].tstamp < f.tstamp {
      UsedStamps(b, h, i);
    }
    ScanFinds(b, f, levels);
    var k := Scanned(b, f, levels).k;
    forall i | 0 <= i < levels ensures b[i].tstamp == 0 <==> i + n < levels {
      UsedStamps(b, h, i);
    }
    if n < levels {
      LevelEarly(n, levels);
      assert b[levels - 1 - n].tstamp == 0;
    } else {
      LevelAgain(n, levels);
      var first := LevelOf(n - levels, levels);
      assert Holds(b[first], h[n - levels]);
      UsedStamps(b, h, k);
      var j := FrameAt(k, n, levels);
      assert b[k].tstamp <= b[first].tstamp;
      assert h[j].tstamp <= h[n - levels].tstamp;
    }
  }

  /** The bucket after a check. */
  function After(b: seq<Info>, f: Probe): (b': seq<Info>)
    requires |b| > 0 && Newer(b, f)
    ensures |b'| == |b|
  {
    ScanFinds(b, f, |b|);
    var k := Scanned(b, f, |b|).k;
    b[k := Stored(b[k], f)]
  }

  lemma StoredHolds(p: Info, f: Probe)
    requires p.Valid() && f.Valid()
    ensures Holds(Stored(p, f), f)
  {
    DivModUnique(|f.bytes|, 0, |f.bytes|, U16);
    assert Stored(p, f).data[..f.Checked()] == f.bytes[..f.Checked()];
  }

  /** A check appends the frame to the queue, dropping the oldest of a full bucket. */
  lemma {:induction false} CheckAppends(b: seq<Info>, h: seq<Probe>, f: Probe)
    requires HoldsLast(b, h) && Increasing(h + [f])
    ensures Newer(b, f) && HoldsLast(After(b, f), h + [f])
  {
    var n, levels := |h|, |b|;
    ReplacesOldest(b, h, f);
    var b' := After(b, f);
    var k := LevelOf(n, levels);
    assert (h + [f])[n] == f;
    StoredHolds(b[k], f);
    hide Holds, Stored, Scanned, LevelOf;
    forall j | 0 <= j < n + 1 && n + 1 <= j + levels ensures Holds(b'[LevelOf(j, levels)], (h + [f])[j]) {
      if j < n {
        LevelsDiffer(j, n, levels);
        assert Holds(b[LevelOf(j, levels)], h[j]);
      }
    }
    forall i | 0 <= i < levels && i + n + 1 < levels ensures b'[i].tstamp == 0 {
      LevelEarly(n, levels);
    }
  }

  /** The frame repeats an earlier one: it has the same length and the same first 70 bytes, as far as there are
      that many, and comes at most two seconds later. */
  predicate Repeats(g: Probe, f: Probe) {
    && 0 <= f.tstamp - g.tstamp <= 2_000_000_000
    && |f.bytes| == |g.bytes|
    && forall i :: 0 <= i < 70 && i < |f.bytes| ==> f.bytes[i] == g.bytes[i]
  }

  lemma {:induction false} MatchIsRepeat(p: Info, g: Probe, f: Probe)
    requires Holds(p, g) && g.Valid()
    ensures Matches(p, f) <==> Repeats(g, f)
  {
    if |f.bytes| == |g.bytes| {
      var n := f.Checked();
      assert p.data[..n] == g.bytes[..n];
      if p.data[..n] == f.bytes[..n] {
        forall i | 0 <= i < 70 && i < |f.bytes| ensures f.bytes[i] == g.bytes[i] {
          assert f.bytes[..n][i] == g.bytes[..n][i];
        }
      }
      if Repeats(g, f) {
        assert f.bytes[..n] == g.bytes[..n];
      }
    }
  }

  /** The answer is yes exactly when one of the last frames of the bucket is repeated. */
  lemma {:induction false} CheckAnswers(b: seq<Info>, h: seq<Probe>, f: Probe)
    requires HoldsLast(b, h) && Increasing(h + [f])
    ensures Newer(b, f)
    ensures Scanned(b, f, |b|).hit <==> exists j :: 0 <= j < |h| && |h| <= j + |b| && Repeats(h[j], f)
  {
    ReplacesOldest(b, h, f);
    ScanFinds(b, f, |b|);
    assert forall j :: 0 <= j < |h| ==> (h + [f])[j] == h[j];
    if j :| 0 <= j < |h| && |h| <= j + |b| && Repeats(h[j], f) {
      MatchIsRepeat(b[LevelOf(j, |b|)], h[j], f);
    }
    if i :| 0 <= i < |b| && Matches(b[i], f) {
      UsedStamps(b, h, i);
      var j := FrameAt(i, |h|, |b|);
      MatchIsRepeat(b[i], h[j], f);
      assert Repeats(h[j], f);
    }
  }

  // ----- The table -----

  datatype Arrival = Arrival(hash: nat, frame: Probe)

  /** The frames of one bucket among all that arrived. */
  function Hashed(arrivals: seq<Arrival>, pos: nat, width: nat): seq<Probe>
    requires width > 0
  {
    if |arrivals| == 0 then []
    else
      var before, a := arrivals[..|arrivals| - 1], arrivals[|arrivals| - 1];
      Hashed(before, pos, width) + (if a.hash % width == pos then [a.frame] else [])
  }

  ghost predicate InOrder(arrivals: seq<Arrival>) {
    && (forall i :: 0 <= i < |arrivals| ==> arrivals[i].frame.Valid())
    && (forall i, j :: 0 <= i < j < |arrivals| ==> arrivals[i].frame.tstamp < arrivals[j].frame.tstamp)
  }

  lemma {:induction false} HashedIncreases(arrivals: seq<Arrival>, pos: nat, width: nat)
    requires width > 0 && InOrder(arrivals)
    ensures Increasing(Hashed(arrivals, pos, width))
    ensures forall j :: 0 <= j < |Hashed(arrivals, pos, width)| ==>
              exists i :: 0 <= i < |arrivals| && Hashed(arrivals, pos, width)[j] == arrivals[i].frame
  {
    if |arrivals| > 0 {
      var before, a := arrivals[..|arrivals| - 1], arrivals[|arrivals| - 1];
      HashedIncreases(before, pos, width);
      var h := Hashed(before, pos, width);
      forall j | 0 <= j < |h| ensures h[j].tstamp < a.frame.tstamp {
        var i :| 0 <= i < |before| && h[j] == before[i].frame;
        assert before[i] == arrivals[i];
      }
      forall j | 0 <= j < |Hashed(arrivals, pos, width)|
        ensures exists i :: 0 <= i < |arrivals| && Hashed(arrivals, pos, width)[j] == arrivals[i].frame
      {
        if j < |h| {
          var i :| 0 <= i < |before| && h[j] == before[i].frame;
          assert arrivals[i].frame == h[j];
        } else {
          assert arrivals[|arrivals| - 1].frame == a.frame;
        }
      }
    }
  }

  lemma {:induction false} BucketGrows(arrivals: seq<Arrival>, a: Arrival, pos: nat, width: nat)
    requires width > 0 && InOrder(arrivals + [a])
    ensures Hashed(arrivals + [a], pos, width) ==
              Hashed(arrivals, pos, width) + (if a.hash % width == pos then [a.frame] else [])
    ensures Increasing(Hashed(arrivals + [a], pos, width))
  {
    assert (arrivals + [a])[..|arrivals|] == arrivals;
    HashedIncreases(arrivals + [a], pos, width);
  }

  class Table {
    const entries: array2<Info>
    const levels: nat
    const width: nat
    ghost var arrivals: seq<Arrival>

    ghost function Bucket(pos: nat): (b: seq<Info>)
      requires entries.Length0 == levels && entries.Length1 == width && pos < width
      reads this, entries
      ensures |b| == levels && forall i :: 0 <= i < levels ==> b[i] == entries[i, pos]
    {
      seq(levels, (i: nat) requires i < levels reads entries => entries[i, pos])
    }

    /** Every bucket holds the last frames that hashed to it. */
    ghost predicate Valid()
      reads this, entries
    {
      && 0 < levels && 0 < width
      && entries.Length0 == levels && entries.Length1 == width
      && InOrder(arrivals)
      && forall pos :: 0 <= pos < width ==> HoldsLast(Bucket(pos), Hashed(arrivals, pos, width))
    }

    constructor (levels: nat, width: nat)
      requires levels > 0 && width > 0
      ensures Valid() && this.levels == levels && this.width == width && arrivals == []
    {
      this.levels, this.width := levels, width;
      entries := new Info[levels, width]((i, j) => Info(0, 0, seq(CHECK_LEN, k => 0)));
      arrivals := [];
    }

    /** The loop over the levels. */
    method ScanLevels(pos: nat, frame: Probe) returns (ret: bool, k: nat)
      requires Valid() && pos < width && Newer(Bucket(pos), frame)
      ensures k < levels
      ensures ret == Scanned(Bucket(pos), frame, levels).hit && k == Scanned(Bucket(pos), frame, levels).k
    {
      ret, k := false, 0;
      var dif: nat, i: nat := 0, 0;
      ghost var b := Bucket(pos);
      while i < levels
        invariant i <= levels && Scanned(b, frame, i) == Scan(ret, dif, k)
      {
        var p := entries[i, pos];
        assert p == b[i];
        if p.tstamp != 0 {
          var dif2 := frame.tstamp - p.tstamp;
          if dif2 <= TIME_WINDOW {
            if |frame.bytes| == p.len && p.data[..frame.Checked()] == frame.bytes[..frame.Checked()] {
              ret := true;
            }
          }
          if dif2 > dif {
            dif := dif2;
            k := i;
          }
        } else {
          dif := frame.tstamp;
          k := i;
        }
        i := i + 1;
      }
      ScanFinds(b, frame, levels);
    }

    /** `hpcap_check_duplicate`. */
    method CheckDuplicate(hash: nat, frame: Probe) returns (ret: bool)
      requires Valid() && InOrder(arrivals + [Arrival(hash, frame)])
      modifies this`arrivals, entries
      ensures Valid() && arrivals == old(arrivals) + [Arrival(hash, frame)]
      ensures var h := Hashed(old(arrivals), hash % width, width);
              ret <==> exists j :: 0 <= j < |h| && |h| <= j + levels && Repeats(h[j], frame)
    {
      var pos := hash % width;
      var a := Arrival(hash, frame);
      ghost var h, b := Hashed(arrivals, pos, width), Bucket(pos);
      BucketGrows(arrivals, a, pos, width);
      CheckAnswers(b, h, frame);
      CheckAppends(b, h, frame);
      var k;
      ret, k := ScanLevels(pos, frame);
      WriteEntry(pos, k, a);
    }

    /** The entry found takes the frame. */
    method WriteEntry(pos: nat, k: nat, a: Arrival)
      requires Valid() && InOrder(arrivals + [a]) && pos == a.hash % width
      requires Newer(Bucket(pos), a.frame) && k == Scanned(Bucket(pos), a.frame, levels).k
      requires HoldsLast(After(Bucket(pos), a.frame), Hashed(arrivals, pos, width) + [a.frame])
      modifies this`arrivals, entries
      ensures Valid() && arrivals == old(arrivals) + [a]
    {
      hide Scanned, Stored, HoldsLast, Hashed;
      ghost var b, before := Bucket(pos), arrivals;
      ScanFinds(b, a.frame, levels);
      label Before:
      entries[k, pos] := Stored(entries[k, pos], a.frame);
      arrivals := arrivals + [a];
      assert Bucket(pos) == After(b, a.frame);
      forall q | 0 <= q < width ensures HoldsLast(Bucket(q), Hashed(arrivals, q, width)) {
        BucketGrows(before, a, q, width);
        if q != pos {
          assert Bucket(q) == old@Before(Bucket(q));
          assert Hashed(before, q, width) + [] == Hashed(before, q, width);
        }
      }
    }
  }
}
