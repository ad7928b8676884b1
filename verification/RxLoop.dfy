/** The buffer's half of a call of `hpcap_rx`: the frames found go to the buffer until the limit is used up. */
module RxLoop {
  import opened Cyclic
  import opened StreamLayout
  import opened RawRecord
  import opened CircularBuffer
  import opened ByteStream
  import opened RxWriter
  import opened FrameLog

  /** A frame found in the ring; `kept` unless it is filtered out, a duplicate, or nobody listens. */
  datatype Found = Found(frame: Frame, kept: bool)

  predicate FoundFit(cfg: Config, found: seq<Found>) {
    forall i :: 0 <= i < |found| ==> found[i].frame.Fits(cfg)
  }

  predicate AllFit(cfg: Config, trips: seq<Frame>) {
    forall i :: 0 <= i < |trips| ==> trips[i].Fits(cfg)
  }

  /** Trips made, where the reservations end, whether the loop ended for lack of space, and the value
      of the byte counter. */
  datatype Plan = Plan(trips: seq<Frame>, end: nat, full: bool, cnt: nat)

  // ----- Specification -----

  /** The do-while loop for one frame. */
  function PlanFrame(cfg: Config, p: nat, frame: Frame, limit: nat, cnt: nat): (plan: Plan)
    requires cfg.Valid() && frame.Fits(cfg) && cnt <= limit
    ensures AllFit(cfg, plan.trips) && p <= plan.end
    ensures plan.cnt == cnt + (plan.end - p)
    ensures plan.end == p || plan.cnt + RAW_HLEN <= limit
    decreases limit - cnt
  {
    var w := frame.Size();
    if limit - cnt < w + RAW_HLEN then Plan([], p, true, cnt)
    else if PadLength(cfg, p, w) == 0 then Plan([frame], p + w, false, cnt + w)
    else
      var rest := PlanFrame(cfg, p + w, frame, limit, cnt + w);
      rest.(trips := [frame] + rest.trips)
  }

  /** The loop over the frames found. */
  function PlanCall(cfg: Config, p: nat, found: seq<Found>, limit: nat, cnt: nat): (plan: Plan)
    requires cfg.Valid() && FoundFit(cfg, found)
    ensures AllFit(cfg, plan.trips)
    decreases |found|
  {
    if |found| == 0 || cnt >= limit then Plan([], p, false, cnt)
    else
      var frame := found[0].frame;
      var first := if found[0].kept then PlanFrame(cfg, p, frame, limit, cnt) else Plan([], p, false, cnt);
      if first.full then first.(cnt := first.cnt + frame.len)
      else
        var rest := PlanCall(cfg, first.end, found[1..], limit, first.cnt + frame.len);
        rest.(trips := first.trips + rest.trips)
  }

  function WriteTrips(cfg: Config, buf: seq<Byte>, p: nat, trips: seq<Frame>): (out: seq<Byte>)
    requires cfg.Valid() && |buf| == cfg.buffer && cfg.most <= |buf| && AllFit(cfg, trips)
    ensures |out| == |buf|
    decreases |trips|
  {
    if |trips| == 0 then buf
    else WriteTrips(cfg, OneTrip(cfg, buf, p, trips[0]), p + trips[0].Size(), trips[1..])
  }

  /** The counter that the limit is checked against also counts the frame lengths, so a call reserves
      nothing or leaves at least one header's room of its limit. */
  lemma {:induction false} CallStaysInLimit(cfg: Config, p: nat, found: seq<Found>, limit: nat, cnt: nat)
    requires cfg.Valid() && FoundFit(cfg, found)
    ensures var plan := PlanCall(cfg, p, found, limit, cnt);
            p <= plan.end && (p < plan.end ==> cnt + (plan.end - p) + RAW_HLEN <= limit)
    decreases |found|
  {
    if |found| > 0 && cnt < limit {
      var frame := found[0].frame;
      var first := if found[0].kept then PlanFrame(cfg, p, frame, limit, cnt) else Plan([], p, false, cnt);
      if !first.full {
        CallStaysInLimit(cfg, first.end, found[1..], limit, first.cnt + frame.len);
      }
    }
  }

  /** The returned count is documented as the bytes written to the buffer.  It is that only for a call
      that takes no frame off the ring: the loop also adds each frame's length. */
  lemma {:induction false} ReturnedCount(cfg: Config, p: nat, found: seq<Found>, limit: nat, cnt: nat)
    requires cfg.Valid() && FoundFit(cfg, found)
    requires forall i :: 0 <= i < |found| ==> found[i].frame.len > 0
    ensures var plan := PlanCall(cfg, p, found, limit, cnt);
            && plan.cnt >= cnt + (plan.end - p)
            && (plan.cnt == cnt + (plan.end - p) <==> |found| == 0 || cnt >= limit)
    decreases |found|
  {
    if |found| > 0 && cnt < limit {
      var frame := found[0].frame;
      var first := if found[0].kept then PlanFrame(cfg, p, frame, limit, cnt) else Plan([], p, false, cnt);
      if !first.full {
        ReturnedCount(cfg, first.end, found[1..], limit, first.cnt + frame.len);
      }
    }
  }

  // ----- What the call leaves -----

  lemma NoTrips(cfg: Config, buf: seq<Byte>, p: nat)
    requires cfg.Valid() && |buf| == cfg.buffer && cfg.most <= |buf|
    ensures WriteTrips(cfg, buf, p, []) == buf && Total(TripSizes([])) == 0
  {
    hide OneTrip;
  }

  lemma {:induction false} WriteTripsAppend(cfg: Config, buf: seq<Byte>, p: nat, a: seq<Frame>, b: seq<Frame>, q: nat)
    requires cfg.Valid() && |buf| == cfg.buffer && cfg.most <= |buf|
    requires AllFit(cfg, a) && AllFit(cfg, b) && q == p + Total(TripSizes(a))
    ensures AllFit(cfg, a + b)
    ensures WriteTrips(cfg, buf, p, a + b) == WriteTrips(cfg, WriteTrips(cfg, buf, p, a), q, b)
    decreases |a|
  {
    hide OneTrip, WriteTrips, Total, TripSizes;
    if |a| == 0 {
      assert a + b == b;
      NoTrips(cfg, buf, p);
    } else {
      assert [a[0]] + a[1..] == a;
      TotalOfTrips(a[0], a[1..]);
      FirstTrip(cfg, buf, p, a[0], a[1..]);
      FirstTrip(cfg, buf, p, a[0], a[1..] + b);
      assert [a[0]] + (a[1..] + b) == a + b;
      WriteTripsAppend(cfg, OneTrip(cfg, buf, p, a[0]), p + a[0].Size(), a[1..], b, q);
    }
  }

  lemma {:induction false} TotalFront(ws: seq<nat>)
    requires |ws| > 0
    ensures Total(ws) == ws[0] + Total(ws[1..])
  {
    if |ws| > 1 {
      assert ws[1..][..|ws| - 2] == ws[..|ws| - 1][1..];
      TotalFront(ws[..|ws| - 1]);
    }
  }

  lemma TotalOfTrips(frame: Frame, rest: seq<Frame>)
    ensures Total(TripSizes([frame] + rest)) == frame.Size() + Total(TripSizes(rest))
  {
    var trips := [frame] + rest;
    assert TripSizes(trips)[1..] == TripSizes(rest);
    TotalFront(TripSizes(trips));
  }

  lemma {:induction false} FrameTotals(cfg: Config, p: nat, frame: Frame, limit: nat, cnt: nat)
    requires cfg.Valid() && frame.Fits(cfg) && cnt <= limit
    ensures var plan := PlanFrame(cfg, p, frame, limit, cnt); plan.end == p + Total(TripSizes(plan.trips))
    decreases limit - cnt
  {
    hide PadLength;
    var w := frame.Size();
    var plan := PlanFrame(cfg, p, frame, limit, cnt);
    if limit - cnt >= w + RAW_HLEN {
      if PadLength(cfg, p, w) > 0 {
        var rest := PlanFrame(cfg, p + w, frame, limit, cnt + w);
        FrameTotals(cfg, p + w, frame, limit, cnt + w);
        assert plan.trips == [frame] + rest.trips;
        TotalOfTrips(frame, rest.trips);
      } else {
        TotalOfTrips(frame, []);
        assert plan.trips == [frame] + [];
      }
    }
  }

  lemma FirstTrip(cfg: Config, buf: seq<Byte>, p: nat, frame: Frame, rest: seq<Frame>)
    requires cfg.Valid() && |buf| == cfg.buffer && cfg.most <= |buf| && frame.Fits(cfg) && AllFit(cfg, rest)
    ensures AllFit(cfg, [frame] + rest)
    ensures WriteTrips(cfg, buf, p, [frame] + rest) ==
              WriteTrips(cfg, OneTrip(cfg, buf, p, frame), p + frame.Size(), rest)
  {
    hide OneTrip;
    assert ([frame] + rest)[1..] == rest;
  }

  /** What the method that stores a frame leaves. */
  lemma {:induction false} StoreIsPlan(cfg: Config, buf: seq<Byte>, p: nat, frame: Frame, limit: nat, cnt: nat)
    requires cfg.Valid() && frame.Fits(cfg) && cnt <= limit
    requires |buf| == cfg.buffer && cfg.most <= |buf|
    ensures var plan := PlanFrame(cfg, p, frame, limit, cnt);
            StoreFrame(cfg, buf, p, frame, limit - cnt) ==
              Outcome(WriteTrips(cfg, buf, p, plan.trips), plan.end, !plan.full)
    decreases limit - cnt
  {
    hide PadLength, OneTrip;
    var available := limit - cnt;
    var w := frame.Size();
    var plan := PlanFrame(cfg, p, frame, limit, cnt);
    if available < w + RAW_HLEN {
      assert plan == Plan([], p, true, cnt);
    } else if PadLength(cfg, p, w) == 0 {
      FirstTrip(cfg, buf, p, frame, []);
      assert plan.trips == [frame] + [];
    } else {
      var rest := PlanFrame(cfg, p + w, frame, limit, cnt + w);
      var buf' := OneTrip(cfg, buf, p, frame);
      StoreIsPlan(cfg, buf', p + w, frame, limit, cnt + w);
      FirstTrip(cfg, buf, p, frame, rest.trips);
      assert plan == rest.(trips := [frame] + rest.trips);
      assert limit - (cnt + w) == available - w;
      assert StoreFrame(cfg, buf, p, frame, available) == StoreFrame(cfg, buf', p + w, frame, available - w);
    }
  }

  /** A buffer, the bytes reserved and the byte counter that a call leaves. */
  datatype Left = Left(buf: seq<Byte>, reserved: nat, cnt: nat)

  function LeftBy(cfg: Config, buf: seq<Byte>, p: nat, found: seq<Found>, limit: nat, cnt: nat): Left
    requires cfg.Valid() && FoundFit(cfg, found) && |buf| == cfg.buffer && cfg.most <= |buf|
  {
    var plan := PlanCall(cfg, p, found, limit, cnt);
    Left(WriteTrips(cfg, buf, p, plan.trips), plan.end, plan.cnt)
  }

  lemma {:induction false} LeftByKept(cfg: Config, buf: seq<Byte>, p: nat, found: seq<Found>, limit: nat, cnt: nat)
    requires cfg.Valid() && FoundFit(cfg, found) && |buf| == cfg.buffer && cfg.most <= |buf|
    requires |found| > 0 && found[0].kept && cnt < limit
    ensures var first := PlanFrame(cfg, p, found[0].frame, limit, cnt);
            var buf' := WriteTrips(cfg, buf, p, first.trips);
            LeftBy(cfg, buf, p, found, limit, cnt) ==
              if first.full then Left(buf', first.end, first.cnt + found[0].frame.len)
              else LeftBy(cfg, buf', first.end, found[1..], limit, first.cnt + found[0].frame.len)
  {
    hide PlanFrame, WriteTrips;
    var first := PlanFrame(cfg, p, found[0].frame, limit, cnt);
    var plan := PlanCall(cfg, p, found, limit, cnt);
    FrameTotals(cfg, p, found[0].frame, limit, cnt);
    if first.full {
      assert plan == first.(cnt := first.cnt + found[0].frame.len);
    } else {
      var rest := PlanCall(cfg, first.end, found[1..], limit, first.cnt + found[0].frame.len);
      assert plan == rest.(trips := first.trips + rest.trips);
      WriteTripsAppend(cfg, buf, p, first.trips, rest.trips, first.end);
    }
  }

  lemma {:induction false} LeftByIgnored(cfg: Config, buf: seq<Byte>, p: nat, found: seq<Found>, limit: nat, cnt: nat)
    requires cfg.Valid() && FoundFit(cfg, found) && |buf| == cfg.buffer && cfg.most <= |buf|
    requires |found| > 0 && !found[0].kept && cnt < limit
    ensures LeftBy(cfg, buf, p, found, limit, cnt) ==
              LeftBy(cfg, buf, p, found[1..], limit, cnt + found[0].frame.len)
  {
    var rest := PlanCall(cfg, p, found[1..], limit, cnt + found[0].frame.len);
    assert [] + rest.trips == rest.trips;
  }
}
