/** The system of all threads together with what it leaves in the buffer: every reservation is a trip with a
    frame, what the slowest reader has done with is given up, and the idle reset begins a new tape. */
module CaptureTape {
  import opened Cyclic
  import opened StreamLayout
  import opened RawRecord
  import opened ByteStream
  import opened FrameLog
  import opened ListenerModel
  import LR = ListenerRuns
  import CA = CaptureRuns
  import DR = DumpRuns

  /** A step, with the frame of its reservation if it makes one. */
  datatype Deed = Deed(step: CA.Step, frame: Frame)

  /** The offsets, the positions and the tape tell of the same bytes. */
  ghost predicate Together(cfg: Config, q: CA.Queue, g: CA.Progress, t: Tape, sz: CA.Sizing) {
    && CA.Safe(q, g, sz) && CA.Shaped(q, g, sz)
    && Recorded(cfg, t)
    && sz == CA.Sizing(cfg.buffer, cfg.most)
    && Reserved(t.trips) == g.reserved && t.from == g.p.rd
  }

  /** A step of the driver that the capture may make: a limit taken is affordable, a reservation is that of a
      frame the layout holds for, and no reader acknowledges bytes whose file header is still owed. */
  ghost predicate CanDo(cfg: Config, q: CA.Queue, g: CA.Progress, t: Tape, d: Deed, sz: CA.Sizing)
    requires CA.Shaped(q, g, sz)
  {
    && CA.Permitted(q, d.step, sz) && CA.Affordable(q, g, d.step, sz)
    && match d.step
       case Allot(_, w) => d.frame.Size() == w && Sound(cfg, t.trips + [d.frame])
       case Pop => LR.Move(q.ls, g.p, LR.PopAll).rd <= |t.stream|
       case _ => true
  }

  function Do(cfg: Config, q: CA.Queue, g: CA.Progress, t: Tape, d: Deed): Tape
    requires cfg.Valid() && |t.buf| == cfg.buffer && cfg.most <= cfg.buffer && |q.ls.slots| == |g.p.readers|
    requires d.step.Allot? ==> d.frame.Fits(cfg)
  {
    match d.step
    case Allot(_, _) => Play(cfg, t, Trip(d.frame))
    case Pop =>
      var rd := LR.Move(q.ls, g.p, LR.PopAll).rd;
      if rd >= g.p.rd then Play(cfg, t, Consume(rd - g.p.rd)) else t
    case Restart(_) => if LR.NoClients(q.ls.slots) then Tape(t.buf, [], [], 0) else t
    case _ => t
  }

  lemma FrameFits(cfg: Config, trips: seq<Frame>, frame: Frame)
    requires Sound(cfg, trips + [frame])
    ensures frame.Fits(cfg)
  {
    assert (trips + [frame])[|trips|] == frame;
  }

  /** A permitted reservation of a safe state fits behind the slowest reader. */
  lemma {:induction false} AllotFits(q: CA.Queue, g: CA.Progress, c: nat, w: nat, sz: CA.Sizing)
    requires CA.Safe(q, g, sz) && CA.Permitted(q, CA.Allot(c, w), sz)
    ensures g.reserved + w < g.p.rd + sz.buffer
  {
    CA.ClaimsUpdate(q.left, c, 0);
    hide CA.Sound;
  }

  lemma {:induction false} AllotTogether(
    cfg: Config, q: CA.Queue, g: CA.Progress, t: Tape, c: nat, frame: Frame, sz: CA.Sizing)
    requires Together(cfg, q, g, t, sz) && CanDo(cfg, q, g, t, Deed(CA.Allot(c, frame.Size()), frame), sz)
    ensures frame.Fits(cfg) && cfg.Valid() && |t.buf| == cfg.buffer && cfg.most <= cfg.buffer
    ensures var step := CA.Allot(c, frame.Size());
            Together(cfg, CA.Perform(q, step, sz), CA.Advance(q, g, step), Play(cfg, t, Trip(frame)), sz)
  {
    hide Recorded, Sound, Play, Reserved, LR.Stands;
    RecordedShape(cfg, t);
    FrameFits(cfg, t.trips, frame);
    AllotFits(q, g, c, frame.Size(), sz);
    CA.StepSafe(q, g, CA.Allot(c, frame.Size()), sz);
    TripRecorded(cfg, t, frame);
    SizesAppend(t.trips, frame);
    PlayedTrip(cfg, t, frame);
    StillShaped(q, g, CA.Allot(c, frame.Size()), sz);
  }

  lemma {:induction false} AllotGrows(
    cfg: Config, q: CA.Queue, g: CA.Progress, t: Tape, c: nat, frame: Frame, sz: CA.Sizing)
    requires Together(cfg, q, g, t, sz) && CanDo(cfg, q, g, t, Deed(CA.Allot(c, frame.Size()), frame), sz)
    ensures frame.Fits(cfg) && cfg.Valid() && |t.buf| == cfg.buffer && cfg.most <= cfg.buffer
    ensures var t' := Play(cfg, t, Trip(frame)); t.stream <= t'.stream && |t'.buf| == |t.buf|
  {
    hide Recorded, Sound, Play, Reserved, LR.Stands;
    RecordedShape(cfg, t);
    FrameFits(cfg, t.trips, frame);
    AllotFits(q, g, c, frame.Size(), sz);
    TripShows(cfg, t, frame);
  }

  lemma PlayedTrip(cfg: Config, t: Tape, frame: Frame)
    requires cfg.Valid() && |t.buf| == cfg.buffer && cfg.most <= cfg.buffer && frame.Fits(cfg)
    ensures Play(cfg, t, Trip(frame)).trips == t.trips + [frame] && Play(cfg, t, Trip(frame)).from == t.from
  {
    hide WriteAll, Puts, Reserve;
  }

  lemma StillShaped(q: CA.Queue, g: CA.Progress, step: CA.Step, sz: CA.Sizing)
    requires CA.Shaped(q, g, sz) && CA.Permitted(q, step, sz)
    requires CA.Safe(CA.Perform(q, step, sz), CA.Advance(q, g, step), sz)
    ensures CA.Shaped(CA.Perform(q, step, sz), CA.Advance(q, g, step), sz)
  {
    CA.SafeShape(CA.Perform(q, step, sz), CA.Advance(q, g, step), sz);
  }

  lemma {:induction false} PopTogether(cfg: Config, q: CA.Queue, g: CA.Progress, t: Tape, frame: Frame, sz: CA.Sizing)
    requires Together(cfg, q, g, t, sz) && CanDo(cfg, q, g, t, Deed(CA.Pop, frame), sz)
    ensures cfg.Valid() && |t.buf| == cfg.buffer && cfg.most <= cfg.buffer
    ensures Together(cfg, CA.Perform(q, CA.Pop, sz), CA.Advance(q, g, CA.Pop),
                     Do(cfg, q, g, t, Deed(CA.Pop, frame)), sz)
  {
    hide Recorded, Sound, Reserved, LR.Slowest, LR.Stands, PopGlobal, CA.Claims, Play;
    RecordedShape(cfg, t);
    CA.StepSafe(q, g, CA.Pop, sz);
    StillShaped(q, g, CA.Pop, sz);
    PopAdvances(q, g, sz);
    ConsumeKeeps(cfg, t, LR.Move(q.ls, g.p, LR.PopAll).rd - g.p.rd);
  }

  lemma ConsumeKeeps(cfg: Config, t: Tape, n: nat)
    requires Recorded(cfg, t) && t.from + n <= |t.stream|
    ensures cfg.Valid() && |t.buf| == cfg.buffer && cfg.most <= cfg.buffer
    ensures var t' := Play(cfg, t, Consume(n)); Recorded(cfg, t') && t'.trips == t.trips && t'.from == t.from + n
  {
    hide Sound, Reserved, Log, EntryHolds, Stable;
    RecordedShape(cfg, t);
  }

  lemma PopAdvances(q: CA.Queue, g: CA.Progress, sz: CA.Sizing)
    requires CA.Safe(q, g, sz) && CA.Shaped(q, g, sz)
    ensures g.p.rd <= LR.Move(q.ls, g.p, LR.PopAll).rd
  {
    var s := LR.Slowest(q.ls.slots, g.p.readers, g.p.rd);
    if s < g.p.rd + 0x8000_0000 {
      var i :| 0 <= i < |q.ls.slots| && q.ls.slots[i].id != EMPTY && s == g.p.readers[i];
      assert LR.SlotStands(q.ls.slots[i], g.p.readers[i], g.p, sz.buffer);
    }
  }

  /** Once the offsets and the counter are back at 0 the stream begins again, in the same buffer. */
  lemma {:induction false} RestartTogether(cfg: Config, q: CA.Queue, g: CA.Progress, t: Tape, c: nat, frame: Frame,
      sz: CA.Sizing)
    requires Together(cfg, q, g, t, sz) && CanDo(cfg, q, g, t, Deed(CA.Restart(c), frame), sz)
    ensures cfg.Valid() && |t.buf| == cfg.buffer && cfg.most <= cfg.buffer
    ensures Together(cfg, CA.Perform(q, CA.Restart(c), sz), CA.Advance(q, g, CA.Restart(c)),
                     Do(cfg, q, g, t, Deed(CA.Restart(c), frame)), sz)
  {
    hide Recorded, Sound, LR.Slowest, LR.Stands, LR.NoClients, PopGlobal, CA.Claims, Play;
    RecordedShape(cfg, t);
    LR.CountMeans(q.ls, g.p, sz.buffer);
    CA.StepSafe(q, g, CA.Restart(c), sz);
    StillShaped(q, g, CA.Restart(c), sz);
    EmptyRecorded(cfg, t.buf);
  }

  lemma {:induction false} ClientTogether(cfg: Config, q: CA.Queue, g: CA.Progress, t: Tape, e: LR.Event,
      sz: CA.Sizing)
    requires Together(cfg, q, g, t, sz) && CA.Permitted(q, CA.Client(e), sz)
    ensures Together(cfg, CA.Perform(q, CA.Client(e), sz), CA.Advance(q, g, CA.Client(e)), t, sz)
  {
    hide Recorded, Sound, LR.Stands, Reserved;
    CA.StepSafe(q, g, CA.Client(e), sz);
    StillShaped(q, g, CA.Client(e), sz);
  }

  lemma {:induction false} StepTogether(cfg: Config, q: CA.Queue, g: CA.Progress, t: Tape, d: Deed, sz: CA.Sizing)
    requires Together(cfg, q, g, t, sz) && CanDo(cfg, q, g, t, d, sz)
    ensures cfg.Valid() && |t.buf| == cfg.buffer && cfg.most <= cfg.buffer
    ensures d.step.Allot? ==> d.frame.Fits(cfg)
    ensures Together(cfg, CA.Perform(q, d.step, sz), CA.Advance(q, g, d.step), Do(cfg, q, g, t, d), sz)
  {
    hide Recorded, Sound, Play, LR.Stands;
    RecordedShape(cfg, t);
    match d.step
    case Allot(c, w) => AllotTogether(cfg, q, g, t, c, d.frame, sz);
    case Pop => PopTogether(cfg, q, g, t, d.frame, sz);
    case Restart(c) => RestartTogether(cfg, q, g, t, c, d.frame, sz);
    case _ =>
      CA.StepSafe(q, g, d.step, sz);
      StillShaped(q, g, d.step, sz);
  }

  /** A run of deeds from one state to another. */
  ghost predicate Runs(cfg: Config, q: CA.Queue, g: CA.Progress, t: Tape, run: seq<Deed>,
                       q': CA.Queue, g': CA.Progress, t': Tape, sz: CA.Sizing)
    requires Together(cfg, q, g, t, sz)
    decreases |run|
  {
    if |run| == 0 then q' == q && g' == g && t' == t
    else
      CanDo(cfg, q, g, t, run[0], sz) &&
      (StepTogether(cfg, q, g, t, run[0], sz);
       Runs(cfg, CA.Perform(q, run[0].step, sz), CA.Advance(q, g, run[0].step), Do(cfg, q, g, t, run[0]), run[1..],
            q', g', t', sz))
  }

  lemma {:induction false} RunTogether(cfg: Config, q: CA.Queue, g: CA.Progress, t: Tape, run: seq<Deed>,
      q': CA.Queue, g': CA.Progress, t': Tape, sz: CA.Sizing)
    requires Together(cfg, q, g, t, sz) && Runs(cfg, q, g, t, run, q', g', t', sz)
    ensures Together(cfg, q', g', t', sz)
    decreases |run|
  {
    hide Recorded, CA.Safe, CA.Permitted, CA.Affordable, CA.Perform, CA.Advance, Do, Sound;
    if |run| > 0 {
      StepTogether(cfg, q, g, t, run[0], sz);
      RunTogether(cfg, CA.Perform(q, run[0].step, sz), CA.Advance(q, g, run[0].step), Do(cfg, q, g, t, run[0]),
                  run[1..], q', g', t', sz);
    }
  }

  lemma {:induction false} StartsTogether(cfg: Config, slots: nat, consumers: nat, buf: seq<Byte>)
    requires cfg.Valid() && |buf| == cfg.buffer && cfg.most <= cfg.buffer && consumers > 0
    requires cfg.buffer <= 0x1_0000_0000 && 0x1_0000_0000 % cfg.buffer == 0
    ensures Together(cfg, CA.StartQueue(slots, consumers), CA.StartProgress(slots), Tape(buf, [], [], 0),
                     CA.Sizing(cfg.buffer, cfg.most))
  {
    hide Recorded, CA.InStep;
    var sz := CA.Sizing(cfg.buffer, cfg.most);
    CA.StartsInStep(slots, consumers, sz);
    CA.ReservedInLap(CA.StartQueue(slots, consumers), CA.StartProgress(slots), sz);
    EmptyRecorded(cfg, buf);
  }

  /** Over any run of the whole system: every registered listener finds in the buffer all it has not read of
      what is published and final, byte for byte as the driver's trips laid it, and that is what a turn of the
      capture program asks of the buffer. */
  lemma {:induction false} ListenersFindTheStream(cfg: Config, q: CA.Queue, g: CA.Progress, t: Tape, run: seq<Deed>,
      q': CA.Queue, g': CA.Progress, t': Tape, sz: CA.Sizing, i: nat, w: DR.Waited)
    requires Together(cfg, q, g, t, sz) && Runs(cfg, q, g, t, run, q', g', t', sz)
    requires i < |q'.ls.slots| == |g'.p.readers| && q'.ls.slots[i].id != EMPTY && w.m.p == g'.p
    ensures cfg.file > 0
    ensures DR.Ready(cfg, w, i, t'.buf, t'.stream)
    ensures g'.p.wr <= Reserved(t'.trips)
  {
    RunTogether(cfg, q, g, t, run, q', g', t', sz);
    hide Recorded, Reserved, DR.Ready;
    assert LR.SlotStands(q'.ls.slots[i], g'.p.readers[i], g'.p, sz.buffer);
    DR.TapeIsReady(cfg, t', w, i, t'.stream);
  }
}
