/** The repository's own check of a RAW file, and the files of the stream. */
module CheckRaw {
  import opened Cyclic
  import opened StreamLayout
  import opened FileLayout
  import opened RawRecord
  import opened ByteStream
  import opened FrameLog
  import opened HandleModel
  import opened ReaderModel

  const NSECS_PER_SEC := 1_000_000_000
  const MAX_CAPLEN := 1518
  const MIN_CAPLEN := 60

  datatype Options = Options(maxErrors: nat, ignoreCaplen: bool, tstamp: int)

  /** What `read_raw` has counted, and whether it has met padding after the first record. */
  datatype Tally = Tally(frames: nat, errors: nat, foundPadding: bool)

  function Bit(b: bool): nat {
    if b then 1 else 0
  }

  /** The errors of one header. */
  function HeaderErrors(h: Header, o: Options): nat {
    if h.IsPadding() then Bit(h.len != h.caplen)
    else
      Bit(h.nsec >= NSECS_PER_SEC) + Bit(h.caplen > MAX_CAPLEN) + Bit(!o.ignoreCaplen && h.caplen < MIN_CAPLEN)
      + Bit(h.len < h.caplen) + Bit((h.sec + 1) % U32 < o.tstamp)
  }

  function HeaderAt(file: seq<Byte>, pos: nat): (h: Header)
    requires pos + RAW_HLEN <= |file|
    ensures h.Fits()
  {
    Decode(file[pos..pos + RAW_HLEN])
  }

  /** One turn of the loop that gets as far as counting a record. */
  function Count(file: seq<Byte>, pos: nat, t: Tally, o: Options): Tally
    requires pos + RAW_HLEN <= |file|
  {
    var h := HeaderAt(file, pos);
    Tally(t.frames + 1,
          t.errors + HeaderErrors(h, o) + Bit(pos + RAW_HLEN + h.caplen > |file|),
          h.IsPadding() && t.frames + 1 > 1)
  }

  /** The loop of `read_raw` from file position pos on. */
  function Checked(file: seq<Byte>, pos: nat, t: Tally, o: Options): Tally
    decreases |file| - pos
  {
    if o.maxErrors > 0 && t.errors > o.maxErrors then t
    else if pos >= |file| then t
    else if pos + RAW_HLEN > |file| then t.(errors := t.errors + 1)
    else if t.foundPadding then t.(errors := t.errors + 1)
    else Checked(file, pos + RAW_HLEN + HeaderAt(file, pos).caplen, Count(file, pos, t, o), o)
  }

  method ReadRaw(file: seq<Byte>, o: Options) returns (frameCount: nat, errorCount: nat)
    ensures var t := Checked(file, 0, Tally(0, 0, false), o); frameCount == t.frames && errorCount == t.errors
  {
    frameCount, errorCount := 0, 0;
    var foundPadding := false;
    var pos := 0;
    ghost var target := Checked(file, 0, Tally(0, 0, false), o);
    while true
      invariant 0 <= pos
      invariant target == Checked(file, pos, Tally(frameCount, errorCount, foundPadding), o)
      decreases |file| - pos
    {
      var readBytes := if pos >= |file| then 0 else if pos + RAW_HLEN > |file| then |file| - pos else RAW_HLEN;
      if o.maxErrors > 0 && errorCount > o.maxErrors {
        return;
      }
      if readBytes != RAW_HLEN {
        if readBytes > 0 {
          errorCount := errorCount + 1;
        }
        return;
      }
      var header := HeaderAt(file, pos);
      if foundPadding {
        errorCount := errorCount + 1;
        return;
      }
      frameCount := frameCount + 1;
      errorCount := errorCount + HeaderErrors(header, o);
      foundPadding := header.IsPadding() && frameCount > 1;
      pos := pos + RAW_HLEN + header.caplen;
      if pos > |file| {
        errorCount := errorCount + 1;
      }
    }
  }

  // ----- What a file without errors is -----

  /** A header that fits: padding repeats its length, a frame has possible times and lengths. */
  predicate Sane(h: Header, o: Options) {
    if h.IsPadding() then h.len == h.caplen
    else
      && h.nsec < 1_000_000_000
      && h.caplen <= 1518 && (o.ignoreCaplen || 60 <= h.caplen)
      && h.caplen <= h.len
      && o.tstamp <= (h.sec + 1) % U32
  }

  /** From pos on the file is records end to end, to its last byte; padding comes first or last. */
  predicate WellFormed(file: seq<Byte>, pos: nat, o: Options)
    decreases |file| - pos
  {
    pos == |file| ||
    (&& pos + RAW_HLEN <= |file|
     && var h := HeaderAt(file, pos);
        var next := pos + RAW_HLEN + h.caplen;
        && Sane(h, o)
        && next <= |file|
        && (h.IsPadding() && pos > 0 ==> next == |file|)
        && WellFormed(file, next, o))
  }

  lemma {:induction false} ErrorsOnlyGrow(file: seq<Byte>, pos: nat, t: Tally, o: Options)
    ensures Checked(file, pos, t, o).errors >= t.errors
    decreases |file| - pos
  {
    hide HeaderErrors, HeaderAt;
    if pos + RAW_HLEN <= |file| {
      ErrorsOnlyGrow(file, pos + RAW_HLEN + HeaderAt(file, pos).caplen, Count(file, pos, t, o), o);
    }
  }

  lemma SaneIff(h: Header, o: Options)
    ensures HeaderErrors(h, o) == 0 <==> Sane(h, o)
  {
  }

  datatype Fault = PaddingLength | Nanoseconds | TooLong | TooShort | LongerThanFrame | TooEarly

  const FAULTS: set<Fault> := {PaddingLength, Nanoseconds, TooLong, TooShort, LongerThanFrame, TooEarly}

  predicate Has(h: Header, f: Fault, o: Options) {
    match f
    case PaddingLength => h.IsPadding() && h.len != h.caplen
    case Nanoseconds => !h.IsPadding() && h.nsec >= 1_000_000_000
    case TooLong => !h.IsPadding() && h.caplen > 1518
    case TooShort => !h.IsPadding() && !o.ignoreCaplen && h.caplen < 60
    case LongerThanFrame => !h.IsPadding() && h.caplen > h.len
    case TooEarly => !h.IsPadding() && (h.sec + 1) % U32 < o.tstamp
  }

  function FaultsAmong(fs: set<Fault>, h: Header, o: Options): set<Fault> {
    set f | f in fs && Has(h, f, o)
  }

  lemma OneFaultMore(fs: set<Fault>, f: Fault, h: Header, o: Options)
    requires f !in fs
    ensures |FaultsAmong(fs + {f}, h, o)| == |FaultsAmong(fs, h, o)| + Bit(Has(h, f, o))
  {
    if Has(h, f, o) {
      assert FaultsAmong(fs + {f}, h, o) == FaultsAmong(fs, h, o) + {f};
    } else {
      assert FaultsAmong(fs + {f}, h, o) == FaultsAmong(fs, h, o);
    }
  }

  /** Every fault of a header counts as one error. */
  lemma {:induction false} FaultsCounted(h: Header, o: Options)
    ensures HeaderErrors(h, o) == |FaultsAmong(FAULTS, h, o)|
  {
    OneFaultMore({}, PaddingLength, h, o);
    OneFaultMore({PaddingLength}, Nanoseconds, h, o);
    OneFaultMore({PaddingLength, Nanoseconds}, TooLong, h, o);
    OneFaultMore({PaddingLength, Nanoseconds, TooLong}, TooShort, h, o);
    OneFaultMore({PaddingLength, Nanoseconds, TooLong, TooShort}, LongerThanFrame, h, o);
    OneFaultMore({PaddingLength, Nanoseconds, TooLong, TooShort, LongerThanFrame}, TooEarly, h, o);
    assert {} + {PaddingLength} == {PaddingLength};
    assert {PaddingLength} + {Nanoseconds} == {PaddingLength, Nanoseconds};
    assert {PaddingLength, Nanoseconds} + {TooLong} == {PaddingLength, Nanoseconds, TooLong};
    assert {PaddingLength, Nanoseconds, TooLong} + {TooShort} == {PaddingLength, Nanoseconds, TooLong, TooShort};
    assert {PaddingLength, Nanoseconds, TooLong, TooShort} + {LongerThanFrame} ==
           {PaddingLength, Nanoseconds, TooLong, TooShort, LongerThanFrame};
    assert {PaddingLength, Nanoseconds, TooLong, TooShort, LongerThanFrame} + {TooEarly} == FAULTS;
  }

  lemma {:induction false} CleanIffFrom(file: seq<Byte>, pos: nat, t: Tally, o: Options)
    requires pos <= |file| && t.errors == 0 && (t.frames == 0 <==> pos == 0) && !t.foundPadding
    ensures Checked(file, pos, t, o).errors == 0 <==> WellFormed(file, pos, o)
    decreases |file| - pos
  {
    if pos + RAW_HLEN <= |file| {
      var h := HeaderAt(file, pos);
      var next := pos + RAW_HLEN + h.caplen;
      var t' := Count(file, pos, t, o);
      SaneIff(h, o);
      hide HeaderErrors, HeaderAt, Sane;
      ErrorsOnlyGrow(file, next, t', o);
      if Sane(h, o) && next <= |file| {
        if t'.foundPadding {
          assert Checked(file, next, t', o).errors == 0 <==> next == |file|;
        } else {
          CleanIffFrom(file, next, t', o);
        }
      }
    }
  }

  /** The check finds no error exactly in the files made of sane records end to end, padding only as
      the first or the last of them; its limit on errors does not matter for that. */
  lemma {:induction false} CleanIff(file: seq<Byte>, o: Options)
    ensures Checked(file, 0, Tally(0, 0, false), o).errors == 0 <==> WellFormed(file, 0, o)
  {
    CleanIffFrom(file, 0, Tally(0, 0, false), o);
  }

  // ----- What the counts are -----

  /** The headers of the file, each where the one before it says the next begins, as long as a whole one is
      there. */
  function Headers(file: seq<Byte>, pos: nat): (hs: seq<Header>)
    decreases |file| - pos
  {
    if pos + RAW_HLEN > |file| then []
    else [HeaderAt(file, pos)] + Headers(file, pos + RAW_HLEN + HeaderAt(file, pos).caplen)
  }

  /** Where the i-th header stands, and for i == |hs| where the next would. */
  function PosOf(hs: seq<Header>, i: nat): nat
    requires i <= |hs|
  {
    if i == 0 then 0 else PosOf(hs, i - 1) + RAW_HLEN + hs[i - 1].caplen
  }

  /** The errors of the first i records: what is wrong with each header, and a record that passes the end. */
  function ErrorsIn(file: seq<Byte>, hs: seq<Header>, i: nat, o: Options): nat
    requires i <= |hs|
  {
    if i == 0 then 0
    else
      ErrorsIn(file, hs, i - 1, o) + |FaultsAmong(FAULTS, hs[i - 1], o)| + (if PosOf(hs, i) > |file| then 1 else 0)
  }

  /** After i records the check goes no further: too many errors, or padding that was not the first record. */
  predicate StopsAfter(file: seq<Byte>, hs: seq<Header>, i: nat, o: Options)
    requires i <= |hs|
  {
    (o.maxErrors > 0 && ErrorsIn(file, hs, i, o) > o.maxErrors) || (i > 1 && hs[i - 1].IsPadding())
  }

  lemma {:induction false} HeadersFrom(file: seq<Byte>, pos: nat, hs: seq<Header>, i: nat)
    requires i <= |hs| && PosOf(hs, i) == pos && Headers(file, pos) == hs[i..]
    ensures i < |hs| <==> pos + RAW_HLEN <= |file|
    ensures i < |hs| ==>
              && hs[i] == HeaderAt(file, pos) && PosOf(hs, i + 1) == pos + RAW_HLEN + hs[i].caplen
              && Headers(file, PosOf(hs, i + 1)) == hs[i + 1..]
  {
    hide HeaderAt;
    if i < |hs| {
      assert hs[i..][0] == hs[i] && hs[i..][1..] == hs[i + 1..];
    }
  }

  /** What has been counted after i records. */
  function TallyAfter(file: seq<Byte>, hs: seq<Header>, i: nat, o: Options): Tally
    requires i <= |hs|
  {
    Tally(i, ErrorsIn(file, hs, i, o), i > 1 && hs[i - 1].IsPadding())
  }

  /** One error more if the check has not given up and something is left: padding is not the last record, or no
      whole header fits. */
  function LastError(file: seq<Byte>, hs: seq<Header>, i: nat, o: Options): nat
    requires i <= |hs|
  {
    if (o.maxErrors == 0 || ErrorsIn(file, hs, i, o) <= o.maxErrors) && PosOf(hs, i) < |file| then 1 else 0
  }

  lemma {:induction false} CheckGoesOn(file: seq<Byte>, hs: seq<Header>, i: nat, o: Options)
    requires i < |hs| && Headers(file, PosOf(hs, i)) == hs[i..] && !StopsAfter(file, hs, i, o)
    ensures Checked(file, PosOf(hs, i), TallyAfter(file, hs, i, o), o) ==
              Checked(file, PosOf(hs, i + 1), TallyAfter(file, hs, i + 1, o), o)
  {
    HeadersFrom(file, PosOf(hs, i), hs, i);
    FaultsCounted(hs[i], o);
    hide HeaderAt, HeaderErrors, Headers, FaultsAmong;
    var pos, t := PosOf(hs, i), TallyAfter(file, hs, i, o);
    assert Count(file, pos, t, o) == TallyAfter(file, hs, i + 1, o);
  }

  lemma {:induction false} CheckEnds(file: seq<Byte>, hs: seq<Header>, i: nat, o: Options)
    requires i <= |hs| && Headers(file, PosOf(hs, i)) == hs[i..] && (i == |hs| || StopsAfter(file, hs, i, o))
    ensures var t := TallyAfter(file, hs, i, o);
            Checked(file, PosOf(hs, i), t, o) == t.(errors := t.errors + LastError(file, hs, i, o))
  {
    HeadersFrom(file, PosOf(hs, i), hs, i);
    hide HeaderAt, HeaderErrors, Headers, ErrorsIn, PosOf;
  }

  lemma {:induction false} CountedFrom(file: seq<Byte>, hs: seq<Header>, i: nat, o: Options) returns (n: nat)
    requires i <= |hs| && Headers(file, PosOf(hs, i)) == hs[i..]
    ensures i <= n <= |hs| && (n < |hs| ==> StopsAfter(file, hs, n, o))
    ensures forall k :: i <= k < n ==> !StopsAfter(file, hs, k, o)
    ensures Checked(file, PosOf(hs, i), TallyAfter(file, hs, i, o), o) ==
              TallyAfter(file, hs, n, o).(errors := ErrorsIn(file, hs, n, o) + LastError(file, hs, n, o))
    decreases |hs| - i
  {
    hide Checked, StopsAfter, HeaderAt, HeaderErrors, LastError;
    if i < |hs| && !StopsAfter(file, hs, i, o) {
      HeadersFrom(file, PosOf(hs, i), hs, i);
      CheckGoesOn(file, hs, i, o);
      n := CountedFrom(file, hs, i + 1, o);
    } else {
      CheckEnds(file, hs, i, o);
      n := i;
    }
  }

  /** The frames counted are the records up to the first after which the check stops, or all of them; the errors
      are theirs and what is left behind them. */
  lemma {:induction false} CountsRecords(file: seq<Byte>, o: Options)
    ensures var t, hs := Checked(file, 0, Tally(0, 0, false), o), Headers(file, 0);
            && t.frames <= |hs|
            && (t.frames < |hs| ==> StopsAfter(file, hs, t.frames, o))
            && (forall k :: 0 <= k < t.frames ==> !StopsAfter(file, hs, k, o))
            && t.errors == ErrorsIn(file, hs, t.frames, o) + LastError(file, hs, t.frames, o)
  {
    var hs := Headers(file, 0);
    assert hs[0..] == hs;
    hide Checked, StopsAfter, HeaderAt, HeaderErrors, LastError;
    var n := CountedFrom(file, hs, 0, o);
  }

  // ----- The files of the stream -----

  /** A record stands in the file that starts at stream position a. */
  ghost predicate StandsIn(file: seq<Byte>, a: nat, r: Record, o: Options) {
    && a <= r.pos && r.size >= RAW_HLEN && r.End() <= a + |file|
    && var h := HeaderAt(file, r.pos - a);
       h.caplen == r.size - RAW_HLEN && h.IsPadding() == r.padding && Sane(h, o)
  }

  lemma StandsInHas(file: seq<Byte>, a: nat, r: Record, o: Options)
    requires StandsIn(file, a, r, o)
    ensures a <= r.pos && r.pos - a + RAW_HLEN <= |file| && r.End() <= a + |file| && r.size >= RAW_HLEN
    ensures var h := HeaderAt(file, r.pos - a);
            && Sane(h, o) && h.IsPadding() == r.padding && r.pos + RAW_HLEN + h.caplen == r.End()
  {
    hide HeaderAt, Sane;
  }

  lemma RecordsHaveSize(file: seq<Byte>, a: nat, rs: seq<Record>, o: Options)
    requires forall r :: r in rs ==> StandsIn(file, a, r, o)
    ensures forall r :: r in rs ==> r.size > 0
  {
    hide HeaderAt, Sane;
  }

  lemma RecordFirst(file: seq<Byte>, pos: nat, o: Options)
    requires pos + RAW_HLEN <= |file|
    requires var h := HeaderAt(file, pos);
             var next := pos + RAW_HLEN + h.caplen;
             && Sane(h, o) && next <= |file| && (h.IsPadding() && pos > 0 ==> next == |file|)
             && WellFormed(file, next, o)
    ensures WellFormed(file, pos, o)
  {
    hide HeaderAt, Sane;
  }

  lemma EndIsWellFormed(file: seq<Byte>, o: Options)
    ensures WellFormed(file, |file|, o)
  {
  }

  /** Records that lie end to end over a file, padding only at its ends, make it well formed. */
  lemma {:induction false} TiledIsWellFormed(file: seq<Byte>, a: nat, rs: seq<Record>, i: nat, o: Options)
    requires i < |rs| && Tiled(rs, a, a + |file|)
    requires forall r :: r in rs ==> StandsIn(file, a, r, o)
    requires forall k :: 0 < k < |rs| - 1 ==> !rs[k].padding
    ensures a <= rs[i].pos && WellFormed(file, rs[i].pos - a, o)
    decreases |rs| - i
  {
    hide Sane, HeaderAt, Tiled, StandsIn, WellFormed;
    RecordsHaveSize(file, a, rs, o);
    TiledAt(rs, a, a + |file|, i);
    StandsInHas(file, a, rs[i], o);
    if i + 1 < |rs| {
      TiledIsWellFormed(file, a, rs, i + 1, o);
    } else {
      EndIsWellFormed(file, o);
    }
    RecordFirst(file, rs[i].pos - a, o);
  }

  /** The frames captured are ones the check accepts. */
  ghost predicate SaneFrames(trips: seq<Frame>, o: Options) {
    forall i :: 0 <= i < |trips| ==> Sane(trips[i].Head(), o)
  }

  lemma {:induction false} LogFrame(cfg: Config, trips: seq<Frame>, i: nat)
    requires cfg.file > 0 && cfg.buffer > 0 && i < |Log(cfg, trips)|
    ensures exists k :: 0 <= k < |trips| && Log(cfg, trips)[i].frame == trips[k]
  {
    var before := trips[..|trips| - 1];
    if i < |Log(cfg, before)| {
      LogFrame(cfg, before, i);
      var k :| 0 <= k < |before| && Log(cfg, before)[i].frame == before[k];
      assert trips[k] == before[k];
    } else {
      assert Log(cfg, trips)[i].frame == trips[|trips| - 1];
    }
  }

  lemma {:induction false} EntryStandsIn(s: seq<Byte>, e: Entry, a: nat, b: nat, o: Options)
    requires Entered(s, e) && a <= e.record.pos && e.record.End() <= b <= |s|
    requires Sane(e.frame.Head(), o)
    ensures StandsIn(s[a..b], a, e.record, o)
  {
    var x := e.record.pos;
    HeadStands(s, e);
    assert s[a..b][x - a..x - a + RAW_HLEN] == s[x..x + RAW_HLEN];
    hide Decode, EntryHolds, PutOf;
  }

  lemma RecordedFacts(cfg: Config, t: Tape)
    requires Recorded(cfg, t)
    ensures cfg.Valid() && cfg.file > 0 && cfg.buffer > 0
    ensures LaidOut(cfg, TripSizes(t.trips)) && |t.stream| == Stable(cfg, Reserved(t.trips))
    ensures Reserved(t.trips) == Total(TripSizes(t.trips))
  {
  }

  /** Cut at multiples of the file size, the stream gives files that pass the repository's check: their
      bytes, headers and padding, for every list of frames the check itself would accept. */
  lemma {:induction false} CapturedFilesPass(cfg: Config, t: Tape, k: nat, o: Options)
    requires Recorded(cfg, t) && SaneFrames(t.trips, o)
    requires k * cfg.file + cfg.file <= |t.stream|
    ensures k * cfg.file >= 0
    ensures var file := t.stream[k * cfg.file..k * cfg.file + cfg.file];
            Checked(file, 0, Tally(0, 0, false), o).errors == 0
  {
    hide *;
    RecordedFacts(cfg, t);
    MulOrder(0, k, cfg.file);
    var a, b := k * cfg.file, k * cfg.file + cfg.file;
    var file := t.stream[a..b];
    var ws := TripSizes(t.trips);
    StableUnderCover(cfg, Reserved(t.trips), b, k);
    FilesAreWellFormed(cfg, ws, k);
    var rs := Within(Emitted(cfg, ws), a, b);
    WithinStand(cfg, t, a, b, o);
    WholeFile(cfg, file, rs, a, b, k, o);
    CleanIff(file, o);
  }

  lemma {:induction false} WholeFile(cfg: Config, file: seq<Byte>, rs: seq<Record>, a: nat, b: nat, k: nat, o: Options)
    requires cfg.Valid() && a == k * cfg.file && b == a + cfg.file && |file| == cfg.file
    requires WellFormedFile(cfg, rs, k)
    requires forall r :: r in rs && r.End() <= b ==> StandsIn(file, a, r, o)
    requires forall r :: r in rs ==> r.size > 0
    ensures WellFormed(file, 0, o)
  {
    forall i | 0 <= i < |rs| ensures StandsIn(file, a, rs[i], o) {
      TiledAt(rs, a, b, i);
    }
    TiledAt(rs, a, b, 0);
    TiledIsWellFormed(file, a, rs, 0, o);
  }

  lemma {:induction false} StableUnderCover(cfg: Config, p: nat, b: nat, k: nat)
    requires cfg.Valid() && b == k * cfg.file + cfg.file && b <= Stable(cfg, p)
    ensures b <= Cover(cfg, p)
  {
  }

  lemma {:induction false} WithinStand(cfg: Config, t: Tape, a: nat, b: nat, o: Options)
    requires Recorded(cfg, t) && SaneFrames(t.trips, o) && a <= b <= |t.stream|
    ensures forall r :: r in Within(Emitted(cfg, TripSizes(t.trips)), a, b) ==>
              r.size > 0 && (r.End() <= b ==> StandsIn(t.stream[a..b], a, r, o))
  {
    var rs := Emitted(cfg, TripSizes(t.trips));
    LogIsEmitted(cfg, t.trips);
    forall r | r in Within(rs, a, b)
      ensures r.size > 0 && (r.End() <= b ==> StandsIn(t.stream[a..b], a, r, o))
    {
      var i :| 0 <= i < |rs| && rs[i] == r;
      RecordStands(cfg, t, i, a, b, o);
    }
  }

  lemma {:induction false} RecordStands(cfg: Config, t: Tape, i: nat, a: nat, b: nat, o: Options)
    requires Recorded(cfg, t) && SaneFrames(t.trips, o) && a <= b <= |t.stream| && i < |Log(cfg, t.trips)|
    requires a <= Log(cfg, t.trips)[i].record.pos
    ensures var r := Log(cfg, t.trips)[i].record;
            r.size > 0 && (r.End() <= b ==> StandsIn(t.stream[a..b], a, r, o))
  {
    LogFrame(cfg, t.trips, i);
    LogEntered(cfg, t, i);
    var e := Log(cfg, t.trips)[i];
    hide Log, Recorded, Sane, StandsIn, Holds;
    if e.record.End() <= b {
      EntryStandsIn(t.stream, e, a, b, o);
    }
  }
}
