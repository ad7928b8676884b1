/** Whole runs of trips of the reservation loop, with a reader that frees space behind them. */
module FrameLog {
  import opened Cyclic
  import opened StreamLayout
  import opened FileLayout
  import opened RawRecord
  import opened CircularBuffer
  import opened ByteStream

  // ----- What a list of trips logs -----

  datatype Entry = Entry(record: Record, frame: Frame)

  function TripSizes(trips: seq<Frame>): (ws: seq<nat>)
    ensures |ws| == |trips| && forall i :: 0 <= i < |ws| ==> ws[i] == trips[i].Size()
  {
    seq(|trips|, (i: nat) requires i < |trips| => trips[i].Size())
  }

  function Reserved(trips: seq<Frame>): nat {
    Total(TripSizes(trips))
  }

  function EntriesOf(rs: seq<Record>, frame: Frame): (es: seq<Entry>)
    ensures |es| == |rs| && forall i :: 0 <= i < |es| ==> es[i] == Entry(rs[i], frame)
  {
    seq(|rs|, (i: nat) requires i < |rs| => Entry(rs[i], frame))
  }

  function Log(cfg: Config, trips: seq<Frame>): seq<Entry>
    requires cfg.file > 0 && cfg.buffer > 0
  {
    if |trips| == 0 then []
    else
      var before, frame := trips[..|trips| - 1], trips[|trips| - 1];
      Log(cfg, before) + EntriesOf(Reserve(cfg, Reserved(before), frame.Size()), frame)
  }

  /** The frames whose last trip found a place. */
  function Stored(cfg: Config, trips: seq<Frame>): seq<Frame>
    requires cfg.file > 0 && cfg.buffer > 0
  {
    if |trips| == 0 then []
    else
      var before, frame := trips[..|trips| - 1], trips[|trips| - 1];
      Stored(cfg, before) + (if PadLength(cfg, Reserved(before), frame.Size()) > 0 then [] else [frame])
  }

  lemma SizesAppend(trips: seq<Frame>, frame: Frame)
    ensures TripSizes(trips + [frame])[..|trips|] == TripSizes(trips)
    ensures Reserved(trips + [frame]) == Reserved(trips) + frame.Size()
  {
    assert TripSizes(trips + [frame])[..|trips|] == TripSizes(trips);
  }

  lemma LogAppend(cfg: Config, trips: seq<Frame>, frame: Frame)
    requires cfg.file > 0 && cfg.buffer > 0
    ensures Log(cfg, trips + [frame]) ==
              Log(cfg, trips) + EntriesOf(Reserve(cfg, Reserved(trips), frame.Size()), frame)
    ensures Stored(cfg, trips + [frame]) ==
              Stored(cfg, trips) + (if PadLength(cfg, Reserved(trips), frame.Size()) > 0 then [] else [frame])
  {
    assert (trips + [frame])[..|trips|] == trips;
  }

  /** The layout theorem applies to these trips. */
  ghost predicate Sound(cfg: Config, trips: seq<Frame>) {
    && LaidOut(cfg, TripSizes(trips))
    && forall i :: 0 <= i < |trips| ==> trips[i].Fits(cfg)
  }

  lemma {:induction false} SoundPrefix(cfg: Config, trips: seq<Frame>, frame: Frame)
    requires Sound(cfg, trips + [frame])
    ensures Sound(cfg, trips)
    ensures TripOk(cfg, Reserved(trips), frame)
  {
    var all := trips + [frame];
    SizesAppend(trips, frame);
    assert TripSizes(all)[..|TripSizes(all)| - 1] == TripSizes(trips);
    assert all[|trips|] == frame;
    NeverExposedStep(cfg, TripSizes(all));
    forall i | 0 <= i < |trips| ensures trips[i].Fits(cfg) && SizeOk(cfg, TripSizes(trips)[i]) {
      assert all[i] == trips[i];
    }
    ReserveWritable(cfg, Reserved(trips), frame.Size());
  }

  // ----- The buffer, the stream behind it, and the reader -----

  datatype Tape = Tape(buf: seq<Byte>, stream: seq<Byte>, trips: seq<Frame>, from: nat)

  datatype Event = Trip(frame: Frame) | Consume(n: nat)

  ghost predicate EntryHolds(s: seq<Byte>, e: Entry) {
    && RAW_HLEN <= e.record.size < RAW_HLEN + U16
    && e.frame.Head().Fits()
    && Holds(s, PutOf(e.record, e.frame))
  }

  ghost predicate Recorded(cfg: Config, t: Tape) {
    && Sound(cfg, t.trips)
    && |t.buf| == cfg.buffer && cfg.most <= cfg.buffer
    && |t.stream| == Stable(cfg, Reserved(t.trips))
    && t.from <= |t.stream|
    && Shows(t.buf, t.stream, t.from)
    && forall i :: 0 <= i < |Log(cfg, t.trips)| ==> EntryHolds(t.stream, Log(cfg, t.trips)[i])
  }

  lemma RecordedShape(cfg: Config, t: Tape)
    requires Recorded(cfg, t)
    ensures cfg.Valid() && |t.buf| == cfg.buffer && cfg.most <= cfg.buffer
  {
  }

  /** Runs start from any buffer before the first reservation. */
  lemma EmptyRecorded(cfg: Config, buf: seq<Byte>)
    requires cfg.Valid() && |buf| == cfg.buffer && cfg.most <= cfg.buffer
    ensures Recorded(cfg, Tape(buf, [], [], 0))
  {
    DivModUnique(0, 0, 0, cfg.file);
  }

  /** A trip needs the room the read limit leaves; a reader takes only what is there. */
  ghost predicate CanDo(cfg: Config, t: Tape, e: Event) {
    match e
    case Trip(frame) =>
      Sound(cfg, t.trips + [frame]) && Reserved(t.trips) + frame.Size() <= t.from + |t.buf|
    case Consume(n) => t.from + n <= |t.stream|
  }

  function Play(cfg: Config, t: Tape, e: Event): Tape
    requires cfg.Valid() && |t.buf| == cfg.buffer && cfg.most <= cfg.buffer
    requires e.Trip? ==> e.frame.Fits(cfg)
  {
    match e
    case Trip(frame) =>
      var p := Reserved(t.trips);
      assert Writable(Reserve(cfg, p, frame.Size())) by { ReserveWritable(cfg, p, frame.Size()); }
      var buf' := WriteAll(t.buf, Puts(Reserve(cfg, p, frame.Size()), frame));
      Tape(buf', Grown(buf', t.stream, Stable(cfg, p + frame.Size())), t.trips + [frame], t.from)
    case Consume(n) => t.(from := t.from + n)
  }

  lemma HoldsLonger(s: seq<Byte>, s': seq<Byte>, put: Put)
    requires Holds(s, put) && s <= s'
    ensures Holds(s', put)
  {
    assert s'[put.pos..put.End()] == s[put.pos..put.End()];
  }

  lemma {:induction false} TripShows(cfg: Config, t: Tape, frame: Frame)
    requires Recorded(cfg, t) && CanDo(cfg, t, Trip(frame))
    ensures TripOk(cfg, Reserved(t.trips), frame)
    ensures var t' := Play(cfg, t, Trip(frame));
            && t.stream <= t'.stream && |t'.buf| == |t.buf|
            && |t'.stream| == Stable(cfg, Reserved(t'.trips))
            && Shows(t'.buf, t'.stream, t.from)
            && forall k :: 0 <= k < |Reserve(cfg, Reserved(t.trips), frame.Size())| ==>
                 Holds(t'.stream, Puts(Reserve(cfg, Reserved(t.trips), frame.Size()), frame)[k])
  {
    hide Stable, Grown, WriteAll, Log, Shows, Holds, LaidOut, Reserved, EntryHolds, PutOf, PadLength;
    SoundPrefix(cfg, t.trips, frame);
    SizesAppend(t.trips, frame);
    StableGrows(cfg, Reserved(t.trips), frame.Size());
    TripExtendsStream(cfg, t.buf, t.stream, t.from, Reserved(t.trips), frame);
  }

  lemma {:induction false} TripRecorded(cfg: Config, t: Tape, frame: Frame)
    requires Recorded(cfg, t) && CanDo(cfg, t, Trip(frame))
    ensures frame.Fits(cfg) && Recorded(cfg, Play(cfg, t, Trip(frame)))
  {
    TripShows(cfg, t, frame);
    var t' := Play(cfg, t, Trip(frame));
    LogHolds(cfg, t, frame, t'.stream);
    hide Reserve, Stable, Grown, WriteAll, Puts, Log, Shows, Holds, LaidOut, Reserved, EntryHolds, PutOf;
  }

  lemma {:induction false} LogHolds(cfg: Config, t: Tape, frame: Frame, s': seq<Byte>)
    requires Recorded(cfg, t) && frame.Fits(cfg) && t.stream <= s'
    requires Writable(Reserve(cfg, Reserved(t.trips), frame.Size()))
    requires forall k :: 0 <= k < |Reserve(cfg, Reserved(t.trips), frame.Size())| ==>
               Holds(s', Puts(Reserve(cfg, Reserved(t.trips), frame.Size()), frame)[k])
    ensures forall i :: 0 <= i < |Log(cfg, t.trips + [frame])| ==>
              EntryHolds(s', Log(cfg, t.trips + [frame])[i])
  {
    var p, w := Reserved(t.trips), frame.Size();
    LogAppend(cfg, t.trips, frame);
    var was, added := Log(cfg, t.trips), EntriesOf(Reserve(cfg, p, w), frame);
    forall i | 0 <= i < |was + added| ensures EntryHolds(s', (was + added)[i]) {
      if i < |was| {
        HoldsLonger(t.stream, s', PutOf(was[i].record, was[i].frame));
      } else {
        var k := i - |was|;
        assert (was + added)[i] == added[k];
        assert Holds(s', Puts(Reserve(cfg, p, w), frame)[k]);
      }
    }
  }

  lemma {:induction false} EventRecorded(cfg: Config, t: Tape, e: Event)
    requires Recorded(cfg, t) && CanDo(cfg, t, e)
    ensures e.Trip? ==> e.frame.Fits(cfg)
    ensures Recorded(cfg, Play(cfg, t, e))
  {
    match e
    case Trip(frame) => TripRecorded(cfg, t, frame);
    case Consume(_) =>
  }

  /** A run of events from one tape to another. */
  ghost predicate Runs(cfg: Config, t: Tape, run: seq<Event>, t': Tape)
    requires Recorded(cfg, t)
    decreases |run|
  {
    if |run| == 0 then t' == t
    else
      CanDo(cfg, t, run[0]) &&
      (EventRecorded(cfg, t, run[0]);
       Runs(cfg, Play(cfg, t, run[0]), run[1..], t'))
  }

  /** Over any run: what has not been consumed is in the buffer, and every header and frame written
      stands in the stream where the layout puts it, whatever wrapped around since. */
  lemma {:induction false} RunRecorded(cfg: Config, t: Tape, run: seq<Event>, t': Tape)
    requires Recorded(cfg, t) && Runs(cfg, t, run, t')
    ensures Recorded(cfg, t') && t.stream <= t'.stream && t.from <= t'.from
    decreases |run|
  {
    if |run| > 0 {
      EventRecorded(cfg, t, run[0]);
      RunRecorded(cfg, Play(cfg, t, run[0]), run[1..], t');
    }
  }

  // ----- The log lies end to end -----

  lemma {:induction false} LogIsEmitted(cfg: Config, trips: seq<Frame>)
    requires cfg.file > 0 && cfg.buffer > 0
    ensures |Log(cfg, trips)| == |Emitted(cfg, TripSizes(trips))|
    ensures forall i :: 0 <= i < |Log(cfg, trips)| ==>
              Log(cfg, trips)[i].record == Emitted(cfg, TripSizes(trips))[i]
  {
    if |trips| > 0 {
      var before, frame := trips[..|trips| - 1], trips[|trips| - 1];
      assert trips == before + [frame];
      SizesAppend(before, frame);
      LogIsEmitted(cfg, before);
    }
  }

  function Frames(es: seq<Entry>): seq<Frame> {
    if |es| == 0 then []
    else Frames(es[..|es| - 1]) + (if es[|es| - 1].record.padding then [] else [es[|es| - 1].frame])
  }

  lemma {:induction false} FramesAppend(a: seq<Entry>, b: seq<Entry>)
    ensures Frames(a + b) == Frames(a) + Frames(b)
  {
    if |b| == 0 {
      assert a + b == a;
    } else {
      assert (a + b)[..|a + b| - 1] == a + b[..|b| - 1];
      FramesAppend(a, b[..|b| - 1]);
    }
  }

  lemma {:induction false} FramesOfTrip(cfg: Config, p: nat, frame: Frame)
    requires cfg.Valid() && frame.Fits(cfg)
    ensures Frames(EntriesOf(Reserve(cfg, p, frame.Size()), frame)) ==
              if PadLength(cfg, p, frame.Size()) > 0 then [] else [frame]
  {
    var w := frame.Size();
    var es := EntriesOf(Reserve(cfg, p, w), frame);
    ReserveWritable(cfg, p, w);
    FileOffset(cfg, p, w);
    if StartsInHead(cfg, p) && !ReachesEnd(cfg, p, w) && cfg.reading.AsCoded? {
      HeadPaddingAsCoded(cfg, p, w);
    }
    if |es| == 1 {
      assert es[..0] == [];
    } else if |es| == 2 {
      assert es == [es[0]] + [es[1]];
      FramesAppend([es[0]], [es[1]]);
      assert Frames([es[0]]) == [] && Frames([es[1]]) == [];
    }
  }

  /** Leaving out the padding, the log is the list of stored frames, each once and in order. */
  lemma {:induction false} FramesAreStored(cfg: Config, trips: seq<Frame>)
    requires cfg.Valid() && forall i :: 0 <= i < |trips| ==> trips[i].Fits(cfg)
    ensures Frames(Log(cfg, trips)) == Stored(cfg, trips)
  {
    if |trips| > 0 {
      var before, frame := trips[..|trips| - 1], trips[|trips| - 1];
      FramesAreStored(cfg, before);
      FramesOfTrip(cfg, Reserved(before), frame);
      FramesAppend(Log(cfg, before), EntriesOf(Reserve(cfg, Reserved(before), frame.Size()), frame));
    }
  }
}
