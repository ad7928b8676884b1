/** How far the capture of `CaptureRuns` can be trusted: exactly which limits may be taken, and runs that show
    what happens to the others. */
module CaptureLimits {
  import opened Cyclic
  import opened StreamLayout
  import opened WriteCounter
  import opened ListenerModel
  import opened ListenerRuns
  import opened CaptureRuns

  // ----- Using a limit up -----

  /** Reservations of the sizes allowed that add up to `total`. */
  function FillRun(c: nat, total: nat, most: nat): (run: seq<Step>)
    requires RAW_HLEN < total && 2 * RAW_HLEN < most
    ensures OnlyAllots(run)
    decreases total
  {
    if total <= most then [Allot(c, total)]
    else
      var w := if total - most > RAW_HLEN then most else total - RAW_HLEN - 1;
      [Allot(c, w)] + FillRun(c, total - w, most)
  }

  predicate OnlyAllots(run: seq<Step>) {
    forall i :: 0 <= i < |run| ==> run[i].Allot?
  }

  lemma LegalFirst(q: Queue, g: Progress, step: Step, rest: seq<Step>, sz: Sizing)
    requires Shaped(q, g, sz) && Permitted(q, step, sz)
    requires Shaped(Perform(q, step, sz), Advance(q, g, step), sz)
    requires Legal(Perform(q, step, sz), Advance(q, g, step), rest, sz)
    ensures Legal(q, g, [step] + rest, sz)
    ensures After(q, g, [step] + rest, sz) == After(Perform(q, step, sz), Advance(q, g, step), rest, sz)
  {
    assert ([step] + rest)[1..] == rest;
  }

  lemma {:induction false} LegalAppend(q: Queue, g: Progress, a: seq<Step>, b: seq<Step>, sz: Sizing)
    requires Shaped(q, g, sz) && Legal(q, g, a, sz)
    requires Legal(After(q, g, a, sz).0, After(q, g, a, sz).1, b, sz)
    ensures Legal(q, g, a + b, sz)
    ensures After(q, g, a + b, sz) == After(After(q, g, a, sz).0, After(q, g, a, sz).1, b, sz)
    decreases |a|
  {
    hide Perform, Permitted, Advance;
    if |a| == 0 {
      assert a + b == b;
    } else {
      assert (a + b)[1..] == a[1..] + b;
      LegalAppend(Perform(q, a[0], sz), Advance(q, g, a[0]), a[1..], b, sz);
    }
  }

  /** A call can reserve anything that leaves a header's room of its limit. */
  lemma {:induction false} Fills(q: Queue, g: Progress, c: nat, total: nat, sz: Sizing)
    requires Shaped(q, g, sz) && c < |q.left| && 2 * RAW_HLEN < sz.most
    requires RAW_HLEN < total && total + RAW_HLEN <= q.left[c]
    ensures Legal(q, g, FillRun(c, total, sz.most), sz)
    ensures var (q', g') := After(q, g, FillRun(c, total, sz.most), sz);
            && g' == g.(reserved := g.reserved + total)
            && q'.ls == q.ls && q'.left == q.left[c := q.left[c] - total]
            && (Sound(q, g, sz) ==> Sound(q', g', sz))
    decreases total
  {
    hide Sound, Perform, Permitted, Advance, Legal, After;
    if total <= sz.most {
      Allots(q, g, c, total, sz);
      LegalNone(Perform(q, Allot(c, total), sz), Advance(q, g, Allot(c, total)), sz);
      LegalFirst(q, g, Allot(c, total), [], sz);
      assert [Allot(c, total)] + [] == [Allot(c, total)];
    } else {
      var w := if total - sz.most > RAW_HLEN then sz.most else total - RAW_HLEN - 1;
      Allots(q, g, c, w, sz);
      Fills(Perform(q, Allot(c, w), sz), Advance(q, g, Allot(c, w)), c, total - w, sz);
      LegalFirst(q, g, Allot(c, w), FillRun(c, total - w, sz.most), sz);
      assert q.left[c := q.left[c] - w][c := q.left[c] - w - (total - w)] == q.left[c := q.left[c] - total];
    }
  }

  lemma Allots(q: Queue, g: Progress, c: nat, w: nat, sz: Sizing)
    requires Shaped(q, g, sz) && c < |q.left| && RAW_HLEN < w <= sz.most && w + RAW_HLEN <= q.left[c]
    ensures Permitted(q, Allot(c, w), sz)
    ensures var q', g' := Perform(q, Allot(c, w), sz), Advance(q, g, Allot(c, w));
            && Shaped(q', g', sz)
            && g' == g.(reserved := g.reserved + w)
            && q'.ls == q.ls && q'.left == q.left[c := q.left[c] - w]
            && (Sound(q, g, sz) ==> Sound(q', g', sz))
  {
    if Sound(q, g, sz) {
      AllotSafe(q, g, c, w, sz);
    }
  }

  lemma LegalNone(q: Queue, g: Progress, sz: Sizing)
    requires Shaped(q, g, sz)
    ensures Legal(q, g, [], sz) && After(q, g, [], sz) == (q, g)
  {
  }

  function FillFirst(left: seq<nat>, k: nat, most: nat): (run: seq<Step>)
    requires k <= |left| && 2 * RAW_HLEN < most
    ensures OnlyAllots(run)
  {
    if k == 0 then []
    else FillFirst(left, k - 1, most) +
         (if Claim(left[k - 1]) > 0 then FillRun(k - 1, left[k - 1] - RAW_HLEN, most) else [])
  }

  lemma {:induction false} FillsFirst(q: Queue, g: Progress, k: nat, sz: Sizing)
    requires Shaped(q, g, sz) && k <= |q.left| && 2 * RAW_HLEN < sz.most
    ensures Legal(q, g, FillFirst(q.left, k, sz.most), sz)
    ensures var (q', g') := After(q, g, FillFirst(q.left, k, sz.most), sz);
            && g' == g.(reserved := g.reserved + Claims(q.left[..k]))
            && |q'.left| == |q.left| && q'.left[k..] == q.left[k..]
  {
    hide Perform, Permitted, Advance, Shaped, Sound, FillRun, Legal, After;
    LegalNone(q, g, sz);
    if k > 0 {
      FillsFirst(q, g, k - 1, sz);
      var (q1, g1) := After(q, g, FillFirst(q.left, k - 1, sz.most), sz);
      assert q1.left[k - 1] == q1.left[k - 1..][0] == q.left[k - 1..][0];
      assert q.left[..k][..k - 1] == q.left[..k - 1];
      if Claim(q.left[k - 1]) > 0 {
        var run := FillRun(k - 1, q.left[k - 1] - RAW_HLEN, sz.most);
        Fills(q1, g1, k - 1, q.left[k - 1] - RAW_HLEN, sz);
        LegalAppend(q, g, FillFirst(q.left, k - 1, sz.most), run, sz);
      } else {
        assert FillFirst(q.left, k, sz.most) == FillFirst(q.left, k - 1, sz.most);
      }
      assert q1.left[k - 1..][1..] == q1.left[k..] && q.left[k - 1..][1..] == q.left[k..];
    }
  }

  // ----- Exactly when a limit may be taken -----

  /** What is reserved stays a byte short of a lap past the global read offset. */
  predicate InLap(g: Progress, sz: Sizing) {
    g.reserved < g.p.rd + sz.buffer
  }

  /** That is what a publication needs: it pushes the bytes reserved, all of them and unclamped, exactly
      when they are in the lap. */
  lemma {:induction false} PushIsExactIff(q: Queue, g: Progress, sz: Sizing)
    requires Sound(q, g, sz) && Shaped(q, g, sz)
    ensures InLap(g, sz) <==>
              NewBytes(q, sz.buffer) == g.reserved - g.p.wr && NewBytes(q, sz.buffer) <= Avail(q.ls.global, sz.buffer)
  {
    DistanceOfPositions(g.p.rd, g.p.wr, sz.buffer);
    if InLap(g, sz) {
      NewBytesExact(q, g, sz);
    }
  }

  /** Whatever the calls in progress reserve next stays in the lap. */
  ghost predicate StaysInLap(q: Queue, g: Progress, sz: Sizing)
    requires Shaped(q, g, sz)
  {
    forall run :: OnlyAllots(run) && Legal(q, g, run, sz) ==> InLap(After(q, g, run, sz).1, sz)
  }

  lemma {:induction false} AllotsWithinClaims(q: Queue, g: Progress, run: seq<Step>, sz: Sizing)
    requires Sound(q, g, sz) && Shaped(q, g, sz) && OnlyAllots(run) && Legal(q, g, run, sz)
    ensures After(q, g, run, sz).1.p == g.p
    ensures After(q, g, run, sz).1.reserved <= g.reserved + Claims(q.left)
    decreases |run|
  {
    if |run| > 0 {
      AllotSafe(q, g, run[0].c, run[0].w, sz);
      hide Sound, Permitted, Claims, Shaped;
      AllotsWithinClaims(Perform(q, run[0], sz), Advance(q, g, run[0]), run[1..], sz);
    }
  }

  /** The calls in progress are harmless exactly when their limits together, less a header each, fit the
      space that is free. */
  lemma {:induction false} StaysInLapIff(q: Queue, g: Progress, sz: Sizing)
    requires Sound(q, g, sz) && Shaped(q, g, sz) && 2 * RAW_HLEN < sz.most
    ensures StaysInLap(q, g, sz) <==> g.reserved + Claims(q.left) < g.p.rd + sz.buffer
  {
    hide Sound, Shaped, Legal;
    forall run | OnlyAllots(run) && Legal(q, g, run, sz)
      ensures After(q, g, run, sz).1.p == g.p
      ensures After(q, g, run, sz).1.reserved <= g.reserved + Claims(q.left)
    {
      AllotsWithinClaims(q, g, run, sz);
    }
    FillsFirst(q, g, |q.left|, sz);
    assert q.left[..|q.left|] == q.left;
  }

  /** Whether a limit may be taken can be told beforehand, and exactly: after it all calls in progress stay
      in the lap, however they go on, if and only if its claim fits beside the others. */
  lemma {:induction false} BeginStaysInLapIff(q: Queue, g: Progress, c: nat, sz: Sizing)
    requires Sound(q, g, sz) && Shaped(q, g, sz) && 2 * RAW_HLEN < sz.most
    requires Permitted(q, Begin(c), sz)
    ensures Shaped(Perform(q, Begin(c), sz), Advance(q, g, Begin(c)), sz)
    ensures StaysInLap(Perform(q, Begin(c), sz), Advance(q, g, Begin(c)), sz) <==> Affordable(q, g, Begin(c), sz)
  {
    ClaimsUpdate(q.left, c, Limit(q.ls, sz.buffer, |q.left|));
    StaysInLapIff(Perform(q, Begin(c), sz), Advance(q, g, Begin(c)), sz);
  }

  // ----- Both halves of the discipline are needed -----

  /** Reached from the start by a run that keeps one of the two rules. */
  ghost predicate Reached(rule: Rule, slots: nat, q: Queue, g: Progress, sz: Sizing)
    requires Shaped(StartQueue(slots, 2), StartProgress(slots), sz)
  {
    exists run :: ReachedBy(rule, slots, run, q, g, sz)
  }

  ghost predicate ReachedBy(rule: Rule, slots: nat, run: seq<Step>, q: Queue, g: Progress, sz: Sizing)
    requires Shaped(StartQueue(slots, 2), StartProgress(slots), sz)
  {
    var q0, g0 := StartQueue(slots, 2), StartProgress(slots);
    Legal(q0, g0, run, sz) && AllObey(rule, q0, g0, run, sz) && After(q0, g0, run, sz) == (q, g)
  }

  lemma {:induction false} AllObeyAppend(rule: Rule, q: Queue, g: Progress, a: seq<Step>, b: seq<Step>, sz: Sizing)
    requires Shaped(q, g, sz) && Legal(q, g, a, sz) && AllObey(rule, q, g, a, sz)
    requires Legal(After(q, g, a, sz).0, After(q, g, a, sz).1, b, sz)
    requires AllObey(rule, After(q, g, a, sz).0, After(q, g, a, sz).1, b, sz)
    ensures Legal(q, g, a + b, sz) && AllObey(rule, q, g, a + b, sz)
    decreases |a|
  {
    hide Perform, Permitted, Advance, Obeys;
    LegalAppend(q, g, a, b, sz);
    if |a| == 0 {
      assert a + b == b;
    } else {
      assert (a + b)[1..] == a[1..] + b;
      AllObeyAppend(rule, Perform(q, a[0], sz), Advance(q, g, a[0]), a[1..], b, sz);
    }
  }

  lemma {:induction false} ReachedOn(rule: Rule, slots: nat, q: Queue, g: Progress, more: seq<Step>, sz: Sizing)
    requires Shaped(StartQueue(slots, 2), StartProgress(slots), sz) && Reached(rule, slots, q, g, sz)
    requires Shaped(q, g, sz) && Legal(q, g, more, sz) && AllObey(rule, q, g, more, sz)
    ensures Reached(rule, slots, After(q, g, more, sz).0, After(q, g, more, sz).1, sz)
  {
    hide Shaped, Legal, AllObey, After;
    var run :| ReachedBy(rule, slots, run, q, g, sz);
    AllObeyAppend(rule, StartQueue(slots, 2), StartProgress(slots), run, more, sz);
    LegalAppend(StartQueue(slots, 2), StartProgress(slots), run, more, sz);
    assert ReachedBy(rule, slots, run + more, After(q, g, more, sz).0, After(q, g, more, sz).1, sz);
  }

  lemma OneStep(rule: Rule, slots: nat, q: Queue, g: Progress, step: Step, sz: Sizing)
    requires Shaped(StartQueue(slots, 2), StartProgress(slots), sz) && Reached(rule, slots, q, g, sz)
    requires Shaped(q, g, sz) && Permitted(q, step, sz) && Obeys(rule, q, g, step)
    requires Shaped(Perform(q, step, sz), Advance(q, g, step), sz)
    ensures Reached(rule, slots, Perform(q, step, sz), Advance(q, g, step), sz)
  {
    hide Reached, Shaped, Permitted, Perform, Advance, Obeys;
    assert [step][1..] == [];
    ReachedOn(rule, slots, q, g, [step], sz);
  }

  lemma {:induction false} AllotsObey(rule: Rule, q: Queue, g: Progress, run: seq<Step>, sz: Sizing)
    requires Shaped(q, g, sz) && Legal(q, g, run, sz) && OnlyAllots(run)
    ensures AllObey(rule, q, g, run, sz)
    decreases |run|
  {
    if |run| > 0 {
      AllotsObey(rule, Perform(q, run[0], sz), Advance(q, g, run[0]), run[1..], sz);
    }
  }

  /** One client that has read nothing, and the calls as given. */
  ghost predicate Standing(rule: Rule, slots: nat, q: Queue, g: Progress, wr: nat, reserved: nat, left: seq<nat>,
                           called: set<nat>, sz: Sizing)
  {
    && Shaped(StartQueue(slots, 2), StartProgress(slots), sz) && Shaped(q, g, sz)
    && Reached(rule, slots, q, g, sz)
    && Sound(q, g, sz)
    && g.p.rd == 0 && g.p.wr == wr && g.reserved == reserved
    && q.left == left && |left| == 2 && g.called == called
    && |q.ls.slots| > 0 && q.ls.slots[0].id != EMPTY && g.p.readers[0] == 0
  }

  lemma {:induction false} OpensFirst(rule: Rule, slots: nat, sz: Sizing) returns (q: Queue, g: Progress)
    requires 0 < sz.buffer <= TWO_32 && TWO_32 % sz.buffer == 0 && slots > 0
    ensures Standing(rule, slots, q, g, 0, 0, [0, 0], {}, sz)
  {
    var q0, g0 := StartQueue(slots, 2), StartProgress(slots);
    StartsInStep(slots, 2, sz);
    assert ReachedBy(rule, slots, [], q0, g0, sz);
    StepStands(q0.ls, g0.p, Open(1), sz.buffer);
    q, g := Perform(q0, Client(Open(1)), sz), Advance(q0, g0, Client(Open(1)));
    SafeShape(q, g, sz);
    OneStep(rule, slots, q0, g0, Client(Open(1)), sz);
    assert q.left == [0, 0];
  }

  lemma {:induction false} Begins(rule: Rule, slots: nat, q: Queue, g: Progress, wr: nat, reserved: nat,
      left: seq<nat>, called: set<nat>, c: nat, sz: Sizing) returns (q': Queue, g': Progress)
    requires Standing(rule, slots, q, g, wr, reserved, left, called, sz) && c < 2 && left[c] == 0 && wr < sz.buffer
    requires rule.OncePerPublication? ==> c !in called
    ensures Standing(rule, slots, q', g', wr, reserved, left[c := (sz.buffer - 1 - wr) / 2], called + {c}, sz)
  {
    LimitIsShare(q.ls, g.p, sz.buffer, 2);
    hide Stands, Limit, Reached;
    q', g' := Perform(q, Begin(c), sz), Advance(q, g, Begin(c));
    OneStep(rule, slots, q, g, Begin(c), sz);
  }

  lemma {:induction false} UsesUp(rule: Rule, slots: nat, q: Queue, g: Progress, wr: nat, reserved: nat,
      left: seq<nat>, called: set<nat>, c: nat, sz: Sizing) returns (q': Queue, g': Progress)
    requires Standing(rule, slots, q, g, wr, reserved, left, called, sz) && c < 2 && left[c] > 2 * RAW_HLEN
    requires 2 * RAW_HLEN < sz.most
    ensures Standing(rule, slots, q', g', wr, reserved + left[c] - RAW_HLEN, left[c := 0], called, sz)
  {
    hide Reached, Sound;
    var total := left[c] - RAW_HLEN;
    var run := FillRun(c, total, sz.most);
    Fills(q, g, c, total, sz);
    AllotsObey(rule, q, g, run, sz);
    ReachedOn(rule, slots, q, g, run, sz);
    q', g' := Ends(rule, slots, After(q, g, run, sz).0, After(q, g, run, sz).1, wr, reserved + total,
                   left[c := RAW_HLEN], called, c, sz);
    assert left[c := RAW_HLEN][c := 0] == left[c := 0];
  }

  lemma {:induction false} Ends(rule: Rule, slots: nat, q: Queue, g: Progress, wr: nat, reserved: nat,
      left: seq<nat>, called: set<nat>, c: nat, sz: Sizing) returns (q': Queue, g': Progress)
    requires Standing(rule, slots, q, g, wr, reserved, left, called, sz) && c < 2
    ensures Standing(rule, slots, q', g', wr, reserved, left[c := 0], called, sz)
  {
    hide Reached, Stands;
    q', g' := Perform(q, End(c), sz), Advance(q, g, End(c));
    OneStep(rule, slots, q, g, End(c), sz);
  }

  lemma {:induction false} Publishes(rule: Rule, slots: nat, q: Queue, g: Progress, wr: nat, reserved: nat,
      left: seq<nat>, called: set<nat>, sz: Sizing) returns (q': Queue, g': Progress)
    requires Standing(rule, slots, q, g, wr, reserved, left, called, sz) && reserved < sz.buffer && left[0] == 0
    requires rule.NoCallAcross? ==> left[1] == 0
    ensures Standing(rule, slots, q', g', reserved, reserved, left, {}, sz)
  {
    hide Reached;
    NewBytesExact(q, g, sz);
    StepStands(q.ls, g.p, Push(reserved - wr), sz.buffer);
    if left[1] == 0 {
      NoClaims(left);
    }
    q', g' := Perform(q, Publish, sz), Advance(q, g, Publish);
    SafeShape(q', g', sz);
    OneStep(rule, slots, q, g, Publish, sz);
  }

  lemma StandingOverwritten(rule: Rule, slots: nat, q: Queue, g: Progress, wr: nat, reserved: nat, left: seq<nat>,
                           called: set<nat>, sz: Sizing)
    requires Standing(rule, slots, q, g, wr, reserved, left, called, sz) && sz.buffer > 0
    requires 0 < wr <= sz.buffer < reserved
    ensures Shaped(StartQueue(slots, 2), StartProgress(slots), sz) && Shaped(q, g, sz)
    ensures Reached(rule, slots, q, g, sz) && Overwritten(q, g, sz)
  {
    hide Reached;
    DivModUnique(sz.buffer, 1, 0, sz.buffer);
    DivModUnique(0, 0, 0, sz.buffer);
    assert Collide(q, g, 0, 0, sz.buffer, sz);
  }

  /** A call that uses its limit up. */
  lemma {:induction false} CallsOnce(rule: Rule, slots: nat, q: Queue, g: Progress, wr: nat, reserved: nat,
      called: set<nat>, c: nat, v: nat, sz: Sizing) returns (q': Queue, g': Progress)
    requires Standing(rule, slots, q, g, wr, reserved, [0, 0], called, sz) && c < 2 && 2 * RAW_HLEN < sz.most
    requires rule.OncePerPublication? ==> c !in called
    requires wr < sz.buffer && v + RAW_HLEN == (sz.buffer - 1 - wr) / 2 && v > RAW_HLEN
    ensures Standing(rule, slots, q', g', wr, reserved + v, [0, 0], called + {c}, sz)
  {
    hide Standing;
    var left := [0, 0][c := v + RAW_HLEN];
    q', g' := Begins(rule, slots, q, g, wr, reserved, [0, 0], called, c, sz);
    q', g' := UsesUp(rule, slots, q', g', wr, reserved, left, called + {c}, c, sz);
    assert left[c := 0] == [0, 0];
  }

  /** Half a buffer published, then three calls of the second thread with a quarter each. */
  lemma {:induction false} RepeatedCalls(slots: nat, quarter: nat, sz: Sizing) returns (q: Queue, g: Progress)
    requires slots > 0 && 2 * RAW_HLEN < sz.most && sz.buffer == 4 * quarter && quarter >= 32
    requires sz.buffer <= TWO_32 && TWO_32 % sz.buffer == 0
    ensures Standing(NoCallAcross, slots, q, g, 2 * quarter - 13, 5 * quarter - 31, [0, 0], {1}, sz)
  {
    hide Standing;
    var w, v := 2 * quarter - 13, quarter - 6;
    q, g := OpensFirst(NoCallAcross, slots, sz);
    q, g := CallsOnce(NoCallAcross, slots, q, g, 0, 0, {}, 0, w, sz);
    q, g := Publishes(NoCallAcross, slots, q, g, 0, w, [0, 0], {} + {0}, sz);
    q, g := CallsOnce(NoCallAcross, slots, q, g, w, w, {}, 1, v, sz);
    q, g := CallsOnce(NoCallAcross, slots, q, g, w, w + v, {} + {1}, 1, v, sz);
    assert {} + {1} + {1} == {1};
    q, g := CallsOnce(NoCallAcross, slots, q, g, w, w + v + v, {1}, 1, v, sz);
    assert {1} + {1} == {1};
  }

  /** A consumer that calls three times before the first thread publishes again: no call is open across a
      publication, each keeps to its limit, and the last reserves bytes that wait for the reader. */
  lemma {:induction false} RepeatedCallsOverwrite(slots: nat, sz: Sizing)
    requires slots > 0 && 2 * RAW_HLEN < sz.most
    requires 128 <= sz.buffer <= TWO_32 && TWO_32 % sz.buffer == 0 && sz.buffer % 4 == 0
    ensures Shaped(StartQueue(slots, 2), StartProgress(slots), sz)
    ensures exists q, g :: Reached(NoCallAcross, slots, q, g, sz) && Shaped(q, g, sz) && Overwritten(q, g, sz)
  {
    hide Standing, Overwritten, Shaped, Reached;
    var k := sz.buffer / 4;
    var q, g := RepeatedCalls(slots, k, sz);
    StandingOverwritten(NoCallAcross, slots, q, g, 2 * k - 13, 5 * k - 31, [0, 0], {1}, sz);
  }

  /** Half a buffer published while the second thread still holds its limit of another half. */
  lemma {:induction false} StaleLimit(slots: nat, quarter: nat, sz: Sizing) returns (q: Queue, g: Progress)
    requires slots > 0 && 2 * RAW_HLEN < sz.most && sz.buffer == 4 * quarter && quarter > 32
    requires sz.buffer <= TWO_32 && TWO_32 % sz.buffer == 0
    ensures Standing(OncePerPublication, slots, q, g, 2 * quarter - 13, 2 * quarter - 13, [0, 2 * quarter - 1], {}, sz)
  {
    hide Standing;
    var l := 2 * quarter - 1;
    q, g := OpensFirst(OncePerPublication, slots, sz);
    q, g := Begins(OncePerPublication, slots, q, g, 0, 0, [0, 0], {}, 1, sz);
    assert [0, 0][1 := l] == [0, l];
    q, g := Begins(OncePerPublication, slots, q, g, 0, 0, [0, l], {} + {1}, 0, sz);
    assert [0, l][0 := l] == [l, l];
    q, g := UsesUp(OncePerPublication, slots, q, g, 0, 0, [l, l], {} + {1} + {0}, 0, sz);
    assert [l, l][0 := 0] == [0, l];
    q, g := Publishes(OncePerPublication, slots, q, g, 0, l - 12, [0, l], {} + {1} + {0}, sz);
  }

  lemma {:induction false} StaleCall(slots: nat, quarter: nat, sz: Sizing) returns (q: Queue, g: Progress)
    requires slots > 0 && 2 * RAW_HLEN < sz.most && sz.buffer == 4 * quarter && quarter > 32
    requires sz.buffer <= TWO_32 && TWO_32 % sz.buffer == 0
    ensures Standing(OncePerPublication, slots, q, g, 2 * quarter - 13, 5 * quarter - 32, [0, 0], {0}, sz)
  {
    hide Standing;
    var w, l := 2 * quarter - 13, 2 * quarter - 1;
    q, g := StaleLimit(slots, quarter, sz);
    q, g := UsesUp(OncePerPublication, slots, q, g, w, w, [0, l], {}, 1, sz);
    assert [0, l][1 := 0] == [0, 0];
    q, g := CallsOnce(OncePerPublication, slots, q, g, w, w + w, {}, 0, quarter - 6, sz);
    assert {} + {0} == {0};
  }

  /** A consumer whose call is still open when the first thread publishes: each consumer calls once between
      two publications and keeps to its limit, but the first thread's next limit does not know of the old
      one.  A half, a half and a quarter of the buffer are more than it holds. */
  lemma {:induction false} StaleLimitOverwrites(slots: nat, sz: Sizing)
    requires slots > 0 && 2 * RAW_HLEN < sz.most
    requires 128 < sz.buffer <= TWO_32 && TWO_32 % sz.buffer == 0 && sz.buffer % 4 == 0
    ensures Shaped(StartQueue(slots, 2), StartProgress(slots), sz)
    ensures exists q, g :: Reached(OncePerPublication, slots, q, g, sz) && Shaped(q, g, sz) && Overwritten(q, g, sz)
  {
    hide Standing, Overwritten, Shaped, Reached;
    var k := sz.buffer / 4;
    var q, g := StaleCall(slots, k, sz);
    StandingOverwritten(OncePerPublication, slots, q, g, 2 * k - 13, 5 * k - 32, [0, 0], {0}, sz);
  }
}
