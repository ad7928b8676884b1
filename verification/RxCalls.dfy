/** Calls of `hpcap_rx` seen as runs of trips: what readers find afterwards. */
module RxCalls {
  import opened Cyclic
  import opened StreamLayout
  import opened FileLayout
  import opened RawRecord
  import opened CircularBuffer
  import opened ByteStream
  import opened RxWriter
  import opened FrameLog
  import opened RxLoop

  // ----- Trips one after the other -----

  function PlayTrips(cfg: Config, t: Tape, trips: seq<Frame>): (t': Tape)
    requires cfg.Valid() && |t.buf| == cfg.buffer && cfg.most <= cfg.buffer && AllFit(cfg, trips)
    decreases |trips|
  {
    if |trips| == 0 then t else PlayTrips(cfg, Play(cfg, t, Trip(trips[0])), trips[1..])
  }

  lemma {:induction false} PlayedTrips(cfg: Config, t: Tape, trips: seq<Frame>)
    requires cfg.Valid() && |t.buf| == cfg.buffer && cfg.most <= cfg.buffer && AllFit(cfg, trips)
    ensures PlayTrips(cfg, t, trips).trips == t.trips + trips
    ensures PlayTrips(cfg, t, trips).from == t.from
    decreases |trips|
  {
    if |trips| > 0 {
      PlayBuf(cfg, t, trips[0]);
      assert t.trips + trips == (t.trips + [trips[0]]) + trips[1..];
      hide Play, OneTrip;
      PlayedTrips(cfg, Play(cfg, t, Trip(trips[0])), trips[1..]);
    }
  }

  lemma {:induction false} SoundUpTo(cfg: Config, trips: seq<Frame>, more: seq<Frame>)
    requires Sound(cfg, trips + more)
    ensures Sound(cfg, trips)
    decreases |more|
  {
    hide Sound;
    if |more| == 0 {
      assert trips + more == trips;
    } else {
      var m := more[..|more| - 1];
      assert trips + more == (trips + m) + [more[|more| - 1]];
      SoundPrefix(cfg, trips + m, more[|more| - 1]);
      SoundUpTo(cfg, trips, m);
    }
  }

  lemma ReservedAppend(trips: seq<Frame>, frame: Frame, rest: seq<Frame>)
    ensures Reserved(trips + ([frame] + rest)) == Reserved((trips + [frame]) + rest)
    ensures Reserved(trips + [frame]) == Reserved(trips) + frame.Size()
  {
    assert trips + ([frame] + rest) == (trips + [frame]) + rest;
    SizesAppend(trips, frame);
  }

  lemma {:induction false} ReservedSum(trips: seq<Frame>, more: seq<Frame>)
    ensures Reserved(trips + more) == Reserved(trips) + Total(TripSizes(more))
    decreases |more|
  {
    if |more| == 0 {
      assert trips + more == trips;
    } else {
      assert more == [more[0]] + more[1..];
      ReservedAppend(trips, more[0], more[1..]);
      TotalOfTrips(more[0], more[1..]);
      ReservedSum(trips + [more[0]], more[1..]);
    }
  }

  lemma {:induction false} FirstRecorded(cfg: Config, t: Tape, frame: Frame, rest: seq<Frame>)
    requires Recorded(cfg, t) && frame.Fits(cfg) && Sound(cfg, t.trips + ([frame] + rest))
    requires Reserved(t.trips + ([frame] + rest)) <= t.from + |t.buf|
    ensures var t1 := Play(cfg, t, Trip(frame));
            && Recorded(cfg, t1)
            && Sound(cfg, t1.trips + rest)
            && Reserved(t1.trips + rest) <= t1.from + |t1.buf|
            && t1.buf == OneTrip(cfg, t.buf, Reserved(t.trips), frame)
            && Reserved(t1.trips) == Reserved(t.trips) + frame.Size()
  {
    RecordedShape(cfg, t);
    PlayBuf(cfg, t, frame);
    hide Recorded, Sound, Play, OneTrip, Reserved;
    assert t.trips + ([frame] + rest) == (t.trips + [frame]) + rest;
    ReservedAppend(t.trips, frame, rest);
    ReservedSum(t.trips + [frame], rest);
    SoundUpTo(cfg, t.trips + [frame], rest);
    TripRecorded(cfg, t, frame);
  }

  lemma PlayNone(cfg: Config, t: Tape)
    requires cfg.Valid() && |t.buf| == cfg.buffer && cfg.most <= cfg.buffer
    ensures PlayTrips(cfg, t, []) == t
  {
  }

  lemma PlayFirst(cfg: Config, t: Tape, frame: Frame, rest: seq<Frame>)
    requires cfg.Valid() && |t.buf| == cfg.buffer && cfg.most <= cfg.buffer && frame.Fits(cfg) && AllFit(cfg, rest)
    ensures AllFit(cfg, [frame] + rest) && |Play(cfg, t, Trip(frame)).buf| == cfg.buffer
    ensures PlayTrips(cfg, t, [frame] + rest) == PlayTrips(cfg, Play(cfg, t, Trip(frame)), rest)
  {
    assert ([frame] + rest)[1..] == rest;
  }

  /** Any trips that stay within a lap of the reader keep the record of the stream. */
  lemma {:induction false} TripsRecorded(cfg: Config, t: Tape, trips: seq<Frame>)
    requires Recorded(cfg, t) && AllFit(cfg, trips) && Sound(cfg, t.trips + trips)
    requires Reserved(t.trips + trips) <= t.from + |t.buf|
    ensures Recorded(cfg, PlayTrips(cfg, t, trips))
    ensures PlayTrips(cfg, t, trips).buf == WriteTrips(cfg, t.buf, Reserved(t.trips), trips)
    decreases |trips|
  {
    hide Recorded, Sound, Play, OneTrip, Reserved, WriteTrips, PlayTrips;
    RecordedShape(cfg, t);
    if |trips| == 0 {
      WriteNone(cfg, t.buf, Reserved(t.trips));
      PlayNone(cfg, t);
    } else {
      var frame, rest := trips[0], trips[1..];
      assert trips == [frame] + rest;
      PlayFirst(cfg, t, frame, rest);
      FirstRecorded(cfg, t, frame, rest);
      FirstTrip(cfg, t.buf, Reserved(t.trips), frame, rest);
      TripsRecorded(cfg, Play(cfg, t, Trip(frame)), rest);
    }
  }

  lemma WriteNone(cfg: Config, buf: seq<Byte>, p: nat)
    requires cfg.Valid() && |buf| == cfg.buffer && cfg.most <= |buf|
    ensures WriteTrips(cfg, buf, p, []) == buf
  {
  }

  lemma PlayBuf(cfg: Config, t: Tape, frame: Frame)
    requires cfg.Valid() && |t.buf| == cfg.buffer && cfg.most <= cfg.buffer && frame.Fits(cfg)
    ensures var t' := Play(cfg, t, Trip(frame));
            && t'.buf == OneTrip(cfg, t.buf, Reserved(t.trips), frame)
            && t'.trips == t.trips + [frame] && t'.from == t.from
  {
    hide WriteAll, Puts, Reserve;
  }

  // ----- Which frames a call stores -----

  function Kept(found: seq<Found>): seq<Frame> {
    if |found| == 0 then [] else (if found[0].kept then [found[0].frame] else []) + Kept(found[1..])
  }

  function Taken(cfg: Config, p: nat, found: seq<Found>, limit: nat, cnt: nat): seq<Frame>
    requires cfg.Valid() && FoundFit(cfg, found)
    decreases |found|
  {
    if |found| == 0 || cnt >= limit then []
    else
      var frame := found[0].frame;
      if !found[0].kept then Taken(cfg, p, found[1..], limit, cnt + frame.len)
      else
        var first := PlanFrame(cfg, p, frame, limit, cnt);
        if first.full then []
        else [frame] + Taken(cfg, first.end, found[1..], limit, first.cnt + frame.len)
  }

  /** The frames a call stores are the first of those it keeps; all of them unless the limit stops it. */
  lemma {:induction false} TakenArePrefix(cfg: Config, p: nat, found: seq<Found>, limit: nat, cnt: nat)
    requires cfg.Valid() && FoundFit(cfg, found)
    ensures Taken(cfg, p, found, limit, cnt) <= Kept(found)
    ensures var plan := PlanCall(cfg, p, found, limit, cnt);
            !plan.full && plan.cnt < limit ==> Taken(cfg, p, found, limit, cnt) == Kept(found)
    decreases |found|
  {
    hide PadLength;
    if |found| > 0 && cnt < limit {
      var frame := found[0].frame;
      if !found[0].kept {
        TakenArePrefix(cfg, p, found[1..], limit, cnt + frame.len);
      } else {
        var first := PlanFrame(cfg, p, frame, limit, cnt);
        if !first.full {
          TakenArePrefix(cfg, first.end, found[1..], limit, first.cnt + frame.len);
        }
      }
    }
  }

  lemma StoredAppend(cfg: Config, trips: seq<Frame>, frame: Frame)
    requires cfg.file > 0 && cfg.buffer > 0
    ensures Stored(cfg, trips + [frame]) ==
              Stored(cfg, trips) + (if PadLength(cfg, Reserved(trips), frame.Size()) > 0 then [] else [frame])
    ensures Reserved(trips + [frame]) == Reserved(trips) + frame.Size()
  {
    hide PadLength, Reserve;
    SizesAppend(trips, frame);
    LogAppend(cfg, trips, frame);
  }

  lemma PlanFrameIs(cfg: Config, p: nat, frame: Frame, limit: nat, cnt: nat)
    requires cfg.Valid() && frame.Fits(cfg) && cnt <= limit
    ensures var w := frame.Size();
            PlanFrame(cfg, p, frame, limit, cnt) ==
              if limit - cnt < w + RAW_HLEN then Plan([], p, true, cnt)
              else if PadLength(cfg, p, w) == 0 then Plan([frame], p + w, false, cnt + w)
              else
                var rest := PlanFrame(cfg, p + w, frame, limit, cnt + w);
                rest.(trips := [frame] + rest.trips)
  {
    hide PadLength;
  }

  lemma {:induction false} FrameStored(cfg: Config, trips: seq<Frame>, frame: Frame, limit: nat, cnt: nat)
    requires cfg.Valid() && frame.Fits(cfg) && cnt <= limit
    ensures var plan := PlanFrame(cfg, Reserved(trips), frame, limit, cnt);
            && Reserved(trips + plan.trips) == plan.end
            && Stored(cfg, trips + plan.trips) == Stored(cfg, trips) + (if plan.full then [] else [frame])
    decreases limit - cnt
  {
    hide PadLength, Reserved, Stored, PlanFrame;
    var p, w := Reserved(trips), frame.Size();
    var plan := PlanFrame(cfg, p, frame, limit, cnt);
    PlanFrameIs(cfg, p, frame, limit, cnt);
    if limit - cnt < w + RAW_HLEN {
      assert trips + plan.trips == trips;
    } else {
      StoredAppend(cfg, trips, frame);
      if PadLength(cfg, p, w) > 0 {
        var rest := PlanFrame(cfg, p + w, frame, limit, cnt + w);
        FrameStored(cfg, trips + [frame], frame, limit, cnt + w);
        assert trips + plan.trips == (trips + [frame]) + rest.trips;
      }
    }
  }

  lemma {:induction false} CallStored(cfg: Config, trips: seq<Frame>, found: seq<Found>, limit: nat, cnt: nat)
    requires cfg.Valid() && FoundFit(cfg, found)
    ensures var p := Reserved(trips);
            var plan := PlanCall(cfg, p, found, limit, cnt);
            && Reserved(trips + plan.trips) == plan.end
            && Stored(cfg, trips + plan.trips) == Stored(cfg, trips) + Taken(cfg, p, found, limit, cnt)
    decreases |found|
  {
    hide PadLength, Reserved, Stored, PlanFrame;
    var p := Reserved(trips);
    var plan := PlanCall(cfg, p, found, limit, cnt);
    if |found| == 0 || cnt >= limit {
      assert trips + plan.trips == trips;
    } else {
      var frame := found[0].frame;
      if !found[0].kept {
        CallStored(cfg, trips, found[1..], limit, cnt + frame.len);
        assert plan.trips == PlanCall(cfg, p, found[1..], limit, cnt + frame.len).trips;
      } else {
        FrameStored(cfg, trips, frame, limit, cnt);
        var first := PlanFrame(cfg, p, frame, limit, cnt);
        if !first.full {
          CallStored(cfg, trips + first.trips, found[1..], limit, first.cnt + frame.len);
          var rest := PlanCall(cfg, first.end, found[1..], limit, first.cnt + frame.len);
          assert trips + plan.trips == (trips + first.trips) + rest.trips;
        }
      }
    }
  }

  /** A call whose limit is inside the free space: the buffer it leaves still shows every unread byte
      of the stream, and the stream now holds the frames the call took, each once, after the others. */
  lemma {:induction false} CallRecorded(cfg: Config, t: Tape, found: seq<Found>, limit: nat)
    requires Recorded(cfg, t) && FoundFit(cfg, found)
    requires Sound(cfg, t.trips + PlanCall(cfg, Reserved(t.trips), found, limit, 0).trips)
    requires Reserved(t.trips) + limit <= t.from + |t.buf|
    ensures var p := Reserved(t.trips);
            var plan := PlanCall(cfg, p, found, limit, 0);
            var left := LeftBy(cfg, t.buf, p, found, limit, 0);
            var t' := PlayTrips(cfg, t, plan.trips);
            && Recorded(cfg, t')
            && t'.buf == left.buf && Reserved(t'.trips) == left.reserved
            && Frames(Log(cfg, t'.trips)) == Frames(Log(cfg, t.trips)) + Taken(cfg, p, found, limit, 0)
  {
    var p := Reserved(t.trips);
    var plan := PlanCall(cfg, p, found, limit, 0);
    CallStored(cfg, t.trips, found, limit, 0);
    CallStaysInLimit(cfg, p, found, limit, 0);
    TripsRecorded(cfg, t, plan.trips);
    PlayedTrips(cfg, t, plan.trips);
    SoundFits(cfg, t.trips);
    SoundFits(cfg, t.trips + plan.trips);
    FramesAreStored(cfg, t.trips);
    FramesAreStored(cfg, t.trips + plan.trips);
    hide Recorded, Sound, Log, Frames, Stored, PlanCall, Taken, Reserved, WriteTrips;
  }

  lemma SoundFits(cfg: Config, trips: seq<Frame>)
    requires Sound(cfg, trips)
    ensures cfg.Valid() && forall i :: 0 <= i < |trips| ==> trips[i].Fits(cfg)
  {
  }
}
