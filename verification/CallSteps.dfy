/** A call of `hpcap_rx` as steps of the system of all threads. */
module CallSteps {
  import opened Cyclic
  import opened StreamLayout
  import opened RawRecord
  import opened RxWriter
  import opened FrameLog
  import opened RxLoop
  import CA = CaptureRuns

  /** Reservations one after the other, with what is left of the limit. */
  predicate KeepsTo(ws: seq<nat>, left: nat, most: nat)
    decreases |ws|
  {
    |ws| == 0 || (RAW_HLEN < ws[0] <= most && ws[0] + RAW_HLEN <= left && KeepsTo(ws[1..], left - ws[0], most))
  }

  lemma {:induction false} KeepsToMore(ws: seq<nat>, left: nat, more: nat, most: nat)
    requires KeepsTo(ws, left, most) && left <= more
    ensures KeepsTo(ws, more, most)
    decreases |ws|
  {
    if |ws| > 0 {
      KeepsToMore(ws[1..], left - ws[0], more - ws[0], most);
    }
  }

  lemma {:induction false} KeepsToAppend(a: seq<nat>, b: seq<nat>, left: nat, most: nat)
    requires KeepsTo(a, left, most) && Total(a) <= left && KeepsTo(b, left - Total(a), most)
    ensures KeepsTo(a + b, left, most)
    decreases |a|
  {
    if |a| == 0 {
      assert a + b == b;
    } else {
      TotalFront(a);
      assert (a + b)[1..] == a[1..] + b;
      KeepsToAppend(a[1..], b, left - a[0], most);
    }
  }

  lemma {:induction false} FrameKeepsToLimit(cfg: Config, p: nat, frame: Frame, limit: nat, cnt: nat)
    requires cfg.Valid() && frame.Fits(cfg) && cnt <= limit
    ensures KeepsTo(TripSizes(PlanFrame(cfg, p, frame, limit, cnt).trips), limit - cnt, cfg.most)
    decreases limit - cnt
  {
    hide PadLength;
    var w := frame.Size();
    var plan := PlanFrame(cfg, p, frame, limit, cnt);
    if limit - cnt >= w + RAW_HLEN {
      if PadLength(cfg, p, w) > 0 {
        var rest := PlanFrame(cfg, p + w, frame, limit, cnt + w);
        FrameKeepsToLimit(cfg, p + w, frame, limit, cnt + w);
        assert plan.trips == [frame] + rest.trips;
        assert TripSizes(plan.trips)[1..] == TripSizes(rest.trips);
      } else {
        assert plan.trips == [frame];
        assert TripSizes(plan.trips)[1..] == [];
      }
    }
  }

  lemma TripSizesAppend(a: seq<Frame>, b: seq<Frame>)
    ensures TripSizes(a + b) == TripSizes(a) + TripSizes(b)
  {
  }

  /** The trips of a whole call are permitted reservations under its limit, one after the other. */
  lemma {:induction false} CallKeepsToLimit(cfg: Config, p: nat, found: seq<Found>, limit: nat, cnt: nat)
    requires cfg.Valid() && FoundFit(cfg, found)
    ensures KeepsTo(TripSizes(PlanCall(cfg, p, found, limit, cnt).trips), if cnt <= limit then limit - cnt else 0,
                    cfg.most)
    decreases |found|
  {
    hide KeepsTo, PlanFrame;
    if |found| == 0 || cnt >= limit {
      NoneKeeps(if cnt <= limit then limit - cnt else 0, cfg.most);
      assert TripSizes([]) == [];
    } else if !found[0].kept {
      var next := cnt + found[0].frame.len;
      CallKeepsToLimit(cfg, p, found[1..], limit, next);
      var rest := PlanCall(cfg, p, found[1..], limit, next);
      assert [] + rest.trips == rest.trips;
      KeepsToMore(TripSizes(rest.trips), if next <= limit then limit - next else 0, limit - cnt, cfg.most);
    } else {
      KeptKeepsToLimit(cfg, p, found, limit, cnt);
    }
  }

  lemma NoneKeeps(left: nat, most: nat)
    ensures KeepsTo([], left, most)
  {
  }

  lemma {:induction false} KeptKeepsToLimit(cfg: Config, p: nat, found: seq<Found>, limit: nat, cnt: nat)
    requires cfg.Valid() && FoundFit(cfg, found) && |found| > 0 && cnt < limit && found[0].kept
    ensures KeepsTo(TripSizes(PlanCall(cfg, p, found, limit, cnt).trips), limit - cnt, cfg.most)
    decreases |found|, 0
  {
    hide PlanFrame, KeepsTo;
    var frame := found[0].frame;
    var first := PlanFrame(cfg, p, frame, limit, cnt);
    FrameKeepsToLimit(cfg, p, frame, limit, cnt);
    FrameTotals(cfg, p, frame, limit, cnt);
    if !first.full {
      var next := first.cnt + frame.len;
      CallKeepsToLimit(cfg, first.end, found[1..], limit, next);
      var rest := PlanCall(cfg, first.end, found[1..], limit, next);
      KeepsToMore(TripSizes(rest.trips), if next <= limit then limit - next else 0, limit - first.cnt, cfg.most);
      KeepsToAppend(TripSizes(first.trips), TripSizes(rest.trips), limit - cnt, cfg.most);
      TripSizesAppend(first.trips, rest.trips);
    }
  }

  // ----- In the system of all threads -----

  function AllotRun(c: nat, ws: seq<nat>): (run: seq<CA.Step>)
    ensures |run| == |ws| && forall i :: 0 <= i < |run| ==> run[i] == CA.Allot(c, ws[i])
  {
    seq(|ws|, (i: nat) requires i < |ws| => CA.Allot(c, ws[i]))
  }

  lemma {:induction false} KeptAreLegal(q: CA.Queue, g: CA.Progress, c: nat, ws: seq<nat>, sz: CA.Sizing)
    requires CA.Shaped(q, g, sz) && c < |q.left| && KeepsTo(ws, q.left[c], sz.most)
    ensures CA.Legal(q, g, AllotRun(c, ws), sz)
    ensures CA.After(q, g, AllotRun(c, ws), sz).1 == g.(reserved := g.reserved + Total(ws))
    decreases |ws|
  {
    if |ws| > 0 {
      var step := CA.Allot(c, ws[0]);
      assert AllotRun(c, ws)[1..] == AllotRun(c, ws[1..]);
      TotalFront(ws);
      hide CA.Legal, CA.After, KeepsTo;
      KeptFirst(q, c, ws, sz);
      KeptAreLegal(CA.Perform(q, step, sz), CA.Advance(q, g, step), c, ws[1..], sz);
      LegalFirst(q, g, step, AllotRun(c, ws), sz);
    }
  }

  lemma KeptFirst(q: CA.Queue, c: nat, ws: seq<nat>, sz: CA.Sizing)
    requires |ws| > 0 && c < |q.left| && KeepsTo(ws, q.left[c], sz.most) && q.ls.InBuffer(sz.buffer)
    ensures CA.Permitted(q, CA.Allot(c, ws[0]), sz)
    ensures var q' := CA.Perform(q, CA.Allot(c, ws[0]), sz);
            q'.ls == q.ls && |q'.left| == |q.left| && KeepsTo(ws[1..], q'.left[c], sz.most)
  {
  }

  lemma LegalFirst(q: CA.Queue, g: CA.Progress, step: CA.Step, run: seq<CA.Step>, sz: CA.Sizing)
    requires CA.Shaped(q, g, sz) && CA.Permitted(q, step, sz) && |run| > 0 && run[0] == step
    requires CA.Shaped(CA.Perform(q, step, sz), CA.Advance(q, g, step), sz)
    requires CA.Legal(CA.Perform(q, step, sz), CA.Advance(q, g, step), run[1..], sz)
    ensures CA.Legal(q, g, run, sz)
    ensures CA.After(q, g, run, sz) == CA.After(CA.Perform(q, step, sz), CA.Advance(q, g, step), run[1..], sz)
  {
  }

  /** Once a thread holds its limit, the trips of its call are steps it may take, and they reserve what the
      call reserves; steps of the others may come in between. */
  lemma {:induction false} CallIsReservations(
    cfg: Config, q: CA.Queue, g: CA.Progress, c: nat, p: nat, found: seq<Found>, sz: CA.Sizing)
    requires cfg.Valid() && FoundFit(cfg, found) && sz.most == cfg.most
    requires CA.Shaped(q, g, sz) && c < |q.left|
    ensures var plan := PlanCall(cfg, p, found, q.left[c], 0);
            var run := AllotRun(c, TripSizes(plan.trips));
            && p <= plan.end && CA.Legal(q, g, run, sz)
            && CA.After(q, g, run, sz).1 == g.(reserved := g.reserved + (plan.end - p))
  {
    var plan := PlanCall(cfg, p, found, q.left[c], 0);
    CallKeepsToLimit(cfg, p, found, q.left[c], 0);
    CallTotals(cfg, p, found, q.left[c], 0);
    hide PlanCall, CA.Legal, CA.After;
    KeptAreLegal(q, g, c, TripSizes(plan.trips), sz);
  }

  lemma {:induction false} CallTotals(cfg: Config, p: nat, found: seq<Found>, limit: nat, cnt: nat)
    requires cfg.Valid() && FoundFit(cfg, found)
    ensures var plan := PlanCall(cfg, p, found, limit, cnt); plan.end == p + Total(TripSizes(plan.trips))
    decreases |found|
  {
    hide PlanFrame, Total;
    TotalNone();
    if |found| > 0 && cnt < limit {
      var frame := found[0].frame;
      var first := if found[0].kept then PlanFrame(cfg, p, frame, limit, cnt) else Plan([], p, false, cnt);
      if found[0].kept {
        FrameTotals(cfg, p, frame, limit, cnt);
      }
      if !first.full {
        CallTotals(cfg, first.end, found[1..], limit, first.cnt + frame.len);
        var rest := PlanCall(cfg, first.end, found[1..], limit, first.cnt + frame.len);
        TripSizesAppend(first.trips, rest.trips);
        TotalAppend(TripSizes(first.trips), TripSizes(rest.trips));
      }
    }
  }

  lemma TotalNone()
    ensures Total([]) == 0 && TripSizes([]) == []
  {
  }

  lemma {:induction false} TotalAppend(a: seq<nat>, b: seq<nat>)
    ensures Total(a + b) == Total(a) + Total(b)
    decreases |b|
  {
    if |b| == 0 {
      assert a + b == a;
    } else {
      assert (a + b)[..|a + b| - 1] == a + b[..|b| - 1];
      TotalAppend(a, b[..|b| - 1]);
    }
  }
}
