/** The driver and the capture program at work together: the deeds of the driver's threads and of other
    clients come between any two steps of the program, also during its wait and before it copies a block. */
module CaptureSystem {
  import opened Cyclic
  import opened StreamLayout
  import opened WriteCounter
  import opened RawRecord
  import opened ByteStream
  import opened FrameLog
  import opened ListenerModel
  import opened HandleModel
  import opened CheckRaw
  import opened CaptureFiles
  import LR = ListenerRuns
  import CR = ClientRuns
  import CA = CaptureRuns
  import CT = CaptureTape
  import DR = DumpRuns

  /** Between two calls; inside the driver's wait; with the driver's answer, before the copy. */
  datatype Phase = Turning | Waiting | Answered

  /** The driver's queue and what it stands for, the tape, the program's handle and files, and where the
      handle stands in the stream. */
  datatype System = System(q: CA.Queue, g: CA.Progress, t: Tape, h: Handle, files: seq<seq<Byte>>,
                           current: seq<Byte>, phase: Phase, track: CR.Track, start: nat) {
    function View(): Dump {
      Dump(q.ls, h, files, current)
    }

    function Mark(): DR.Mark {
      DR.Mark(g.p, track, start)
    }
  }

  /** A deed of the driver or of another client, or the steps of the program's loop: the request, its
      answer, the copy of a block, the end of a full file. */
  datatype Act = Drive(d: CT.Deed) | Ask | Return | Copy | Finish

  function Sizing(cfg: Config): CA.Sizing {
    CA.Sizing(cfg.buffer, cfg.most)
  }

  /** What the request leaves of the handle once its acknowledgement is in. */
  function Acked(h: Handle): Handle {
    if h.acks <= h.avail then h.(avail := h.avail - h.acks, acks := 0) else h
  }

  /** What the wait reports, whenever and for whatever reason it ends. */
  function Reported(s: System, id: int, sz: Sizes): Answer
    requires s.q.ls.InBuffer(sz.buffer) && Find(s.q.ls.slots, id) < |s.q.ls.slots|
  {
    var l := s.q.ls.slots[Find(s.q.ls.slots, id)];
    Answer(s.q.ls, 0, Used(l, sz.buffer), l.rd)
  }

  /** Deeds are affordable and leave the program's own listener alone; the program's steps come in the order
      of its loop. */
  ghost predicate Enabled(cfg: Config, s: System, a: Act, id: int, sz: Sizes)
    requires CA.Shaped(s.q, s.g, Sizing(cfg))
  {
    match a
    case Drive(d) =>
      && CA.Permitted(s.q, d.step, Sizing(cfg)) && CA.Affordable(s.q, s.g, d.step, Sizing(cfg))
      && (d.step.Allot? ==> d.frame.Size() == d.step.w && FrameLog.Sound(cfg, s.t.trips + [d.frame]))
      && (d.step.Client? ==> d.step.e.id != id)
    case Ask => s.phase.Turning? && |s.current| < sz.file
    case Return => s.phase.Waiting?
    case Copy => s.phase.Answered?
    case Finish => s.phase.Turning? && |s.current| >= sz.file
  }

  predicate Ready(cfg: Config, s: System, id: int, bs: nat, sz: Sizes) {
    && cfg.Valid() && sz.Valid() && cfg.buffer == sz.buffer == |s.t.buf| && cfg.most <= cfg.buffer
    && CA.Shaped(s.q, s.g, Sizing(cfg)) && id != EMPTY
    && Find(s.q.ls.slots, id) < |s.q.ls.slots| && s.h.rdoff < sz.buffer && 0 < bs <= sz.buffer
  }

  function Acknowledged(cfg: Config, s: System, id: int, bs: nat, sz: Sizes): System
    requires Ready(cfg, s, id, bs, sz)
  {
    var step := CA.Client(LR.Ack(id, AckBytes(s.h, true)));
    s.(q := CA.Perform(s.q, step, Sizing(cfg)), g := CA.Advance(s.q, s.g, step))
  }

  function Perform(cfg: Config, s: System, a: Act, id: int, bs: nat, sz: Sizes): System
    requires Ready(cfg, s, id, bs, sz)
    requires a.Drive? ==> CA.Permitted(s.q, a.d.step, Sizing(cfg)) && (a.d.step.Allot? ==> a.d.frame.Fits(cfg))
  {
    match a
    case Drive(d) =>
      s.(q := CA.Perform(s.q, d.step, Sizing(cfg)), g := CA.Advance(s.q, s.g, d.step),
         t := CT.Do(cfg, s.q, s.g, s.t, d))
    case Ask => Acknowledged(cfg, s, id, bs, sz).(phase := Waiting)
    case Return =>
      var r := Reported(s, id, sz);
      s.(h := Settle(s.h, r, bs, true, sz).0,
         track := CR.OpTrack(s.track, s.g.p.readers[Find(s.q.ls.slots, id)], r, bs, sz), phase := Answered)
    case Copy =>
      if s.h.avail >= bs then
        var (h, bytes) := WriteBlock(s.t.buf, s.h, Room(s.View(), sz), bs, sz);
        s.(h := h, current := s.current + bytes, track := s.track.(at := s.track.at + |bytes|), phase := Turning)
      else s.(phase := Turning)
    case Finish =>
      var s' := Acknowledged(cfg, s, id, bs, sz);
      s'.(h := Settle(s.h, Answer(s'.q.ls, 0, 0, 0), 0, true, sz).0, files := s.files + [s.current],
          current := [])
  }

  // ----- What every step keeps -----

  /** The handle as the driver sees it. */
  function Seen(s: System): Handle {
    if s.phase.Waiting? then Acked(s.h) else s.h
  }

  /** Driver, tape, handle and files tell of the same bytes. */
  ghost predicate Good(cfg: Config, s: System, id: int, bs: nat, sz: Sizes) {
    && DR.BlocksOk(cfg, bs, sz) && Ready(cfg, s, id, bs, sz)
    && CT.Together(cfg, s.q, s.g, s.t, Sizing(cfg))
    && CR.InAgreement(CR.Session(s.q.ls, s.g.p, Seen(s), s.track), id, sz)
    && (!s.track.started ==> s.g.p.readers[Find(s.q.ls.slots, id)] == s.start)
    && DR.Saved(s.View(), s.Mark(), s.t.stream, bs, sz)
    && s.h.acks <= s.h.avail
    && (!s.phase.Turning? ==> |s.current| < sz.file)
    && (s.phase.Answered? ==> s.h.acks == 0)
  }

  // ----- The driver's deeds -----

  lemma {:induction false} EventKeepsListener(
    ls: Listeners, p: LR.Positions, e: LR.Event, h: Handle, track: CR.Track, id: int, sz: Sizes)
    requires CR.InAgreement(CR.Session(ls, p, h, track), id, sz) && ls.InBuffer(sz.buffer)
    requires h.rdoff < sz.buffer && LR.Allowed(p, e, sz.buffer)
    requires e.Open? || e.Close? || e.Ack? ==> e.id != id
    ensures var ls', p' := LR.Do(ls, e, sz.buffer), LR.Move(ls, p, e);
            && CR.InAgreement(CR.Session(ls', p', h, track), id, sz)
            && |ls'.slots| == |ls.slots| == |p'.readers| == |p.readers|
            && Find(ls'.slots, id) == Find(ls.slots, id)
            && p'.readers[Find(ls.slots, id)] == p.readers[Find(ls.slots, id)]
  {
    CR.OthersAgree(CR.Session(ls, p, h, track), e, id, sz);
    CR.OthersKeepListener(ls, p, e, id, sz.buffer);
    hide LR.Stands, LR.Do, LR.Move, Find, CR.Agrees;
  }

  /** No deed of the driver or of others moves the program's listener or disagrees with its handle. */
  lemma {:induction false} DeedKeepsListener(
    q: CA.Queue, g: CA.Progress, step: CA.Step, h: Handle, track: CR.Track, id: int, most: nat, sz: Sizes)
    requires CR.InAgreement(CR.Session(q.ls, g.p, h, track), id, sz) && h.rdoff < sz.buffer
    requires CA.Safe(q, g, CA.Sizing(sz.buffer, most)) && CA.Shaped(q, g, CA.Sizing(sz.buffer, most))
    requires CA.Permitted(q, step, CA.Sizing(sz.buffer, most)) && (step.Client? ==> step.e.id != id)
    ensures var q', g' := CA.Perform(q, step, CA.Sizing(sz.buffer, most)), CA.Advance(q, g, step);
            && CR.InAgreement(CR.Session(q'.ls, g'.p, h, track), id, sz)
            && |q'.ls.slots| == |q.ls.slots| == |g'.p.readers| == |g.p.readers|
            && Find(q'.ls.slots, id) == Find(q.ls.slots, id)
            && g'.p.readers[Find(q.ls.slots, id)] == g.p.readers[Find(q.ls.slots, id)]
  {
    hide Find, CR.Agrees, CA.Claims, LR.SlotStands;
    var e := match step
      case Client(e) => e
      case Publish => LR.Push(if g.reserved >= g.p.wr then g.reserved - g.p.wr else 0)
      case _ => LR.PopAll;
    if step.Client? || step.Pop? {
      EventKeepsListener(q.ls, g.p, e, h, track, id, sz);
    } else if step.Publish? {
      CA.NewBytesExact(q, g, CA.Sizing(sz.buffer, most));
      EventKeepsListener(q.ls, g.p, e, h, track, id, sz);
    } else if step.Restart? {
      if q.ls.count <= 0 {
        LR.NoneActive(q.ls.slots, Find(q.ls.slots, id));
        FindHas(q.ls.slots, id);
        assert false;
      }
    }
  }

  lemma FindHas(slots: seq<Listener>, id: int)
    requires Find(slots, id) < |slots|
    ensures slots[Find(slots, id)].id == id
  {
  }

  /** While the program is attached no reader's position is past the stream that stands in the buffer. */
  lemma {:induction false} SlowestInStream(cfg: Config, s: System, id: int, bs: nat, sz: Sizes)
    requires Good(cfg, s, id, bs, sz)
    ensures LR.Move(s.q.ls, s.g.p, LR.PopAll).rd <= |s.t.stream|
  {
    hide Recorded, LR.Stands, LR.Slowest, CA.Claims, DR.Flat;
    FindHas(s.q.ls.slots, id);
    RecordedShape(cfg, s.t);
  }

  lemma DeedGrows(cfg: Config, q: CA.Queue, g: CA.Progress, t: Tape, d: CT.Deed, sz: CA.Sizing)
    requires CT.Together(cfg, q, g, t, sz) && CT.CanDo(cfg, q, g, t, d, sz) && !LR.NoClients(q.ls.slots)
    ensures cfg.Valid() && |t.buf| == cfg.buffer && cfg.most <= cfg.buffer && (d.step.Allot? ==> d.frame.Fits(cfg))
    ensures t.stream <= CT.Do(cfg, q, g, t, d).stream && |CT.Do(cfg, q, g, t, d).buf| == |t.buf|
  {
    hide Recorded, FrameLog.Sound, LR.Stands, LR.NoClients, LR.Slowest, Reserve, Grown, WriteAll, Puts;
    RecordedShape(cfg, t);
    if d.step.Allot? {
      CT.AllotGrows(cfg, q, g, t, d.step.c, d.frame, sz);
    }
  }

  lemma SavedLonger(d: Dump, m: DR.Mark, s: seq<Byte>, d': Dump, m': DR.Mark, s': seq<Byte>, bs: nat, sz: Sizes)
    requires 0 < bs && DR.Saved(d, m, s, bs, sz) && s <= s'
    requires d'.files == d.files && d'.current == d.current && m'.At() == m.At() && m'.start == m.start
    ensures DR.Saved(d', m', s', bs, sz)
  {
    hide DR.Flat;
    assert s'[m.start..m.At()] == s[m.start..m.At()];
  }

  lemma SomeoneListens(ls: Listeners, id: int)
    requires id != EMPTY && Find(ls.slots, id) < |ls.slots|
    ensures !LR.NoClients(ls.slots)
  {
    hide Find;
    FindHas(ls.slots, id);
  }

  lemma {:induction false} DriveCanDo(cfg: Config, s: System, d: CT.Deed, id: int, bs: nat, sz: Sizes)
    requires Good(cfg, s, id, bs, sz) && Enabled(cfg, s, Drive(d), id, sz)
    ensures CT.CanDo(cfg, s.q, s.g, s.t, d, Sizing(cfg)) && !LR.NoClients(s.q.ls.slots)
    ensures d.step.Allot? ==> d.frame.Fits(cfg)
  {
    SlowestInStream(cfg, s, id, bs, sz);
    SomeoneListens(s.q.ls, id);
    if d.step.Allot? {
      CT.FrameFits(cfg, s.t.trips, d.frame);
    }
    hide FrameLog.Sound, DR.Flat, LR.Stands, Find, Recorded;
  }

  lemma {:induction false} DriveKeeps(cfg: Config, s: System, d: CT.Deed, id: int, bs: nat, sz: Sizes)
    requires Good(cfg, s, id, bs, sz) && Enabled(cfg, s, Drive(d), id, sz)
    ensures d.step.Allot? ==> d.frame.Fits(cfg)
    ensures Good(cfg, Perform(cfg, s, Drive(d), id, bs, sz), id, bs, sz)
    ensures s.t.stream <= Perform(cfg, s, Drive(d), id, bs, sz).t.stream
  {
    hide DR.Saved, CR.InAgreement, Find, CT.CanDo, CT.Do, CA.Perform, CA.Advance, CA.Permitted, CA.Affordable, Recorded,
         CA.Safe, FrameLog.Sound;
    DriveCanDo(cfg, s, d, id, bs, sz);
    CT.StepTogether(cfg, s.q, s.g, s.t, d, Sizing(cfg));
    DeedGrows(cfg, s.q, s.g, s.t, d, Sizing(cfg));
    DeedKeepsListener(s.q, s.g, d.step, Seen(s), s.track, id, cfg.most, sz);
    var s' := Perform(cfg, s, Drive(d), id, bs, sz);
    SavedLonger(s.View(), s.Mark(), s.t.stream, s'.View(), s'.Mark(), s'.t.stream, bs, sz);
  }

  // ----- The program's steps -----

  lemma SettleAcks(h: Handle, a: Answer, want: nat, sz: Sizes)
    requires sz.Valid() && h.rdoff < sz.buffer && h.acks <= h.avail && a.ret == 0
    ensures Acked(h).rdoff < sz.buffer && Settle(h, a, want, true, sz) == Settle(Acked(h), a, want, true, sz)
    ensures Settle(h, a, 0, true, sz) == (Acked(h), Ok)
    ensures Acked(h).acks == 0
  {
  }

  lemma TogetherShaped(cfg: Config, q: CA.Queue, g: CA.Progress, t: Tape, sz: CA.Sizing)
    requires CT.Together(cfg, q, g, t, sz)
    ensures CA.Shaped(q, g, sz) && CA.Safe(q, g, sz) && Recorded(cfg, t)
    ensures t.from == g.p.rd && g.p.wr <= g.reserved == Reserved(t.trips)
    ensures LR.Stands(q.ls, g.p, sz.buffer)
  {
    hide Recorded, LR.Stands, Reserved;
  }

  /** The acknowledgement moves the listener up to what the handle has read. */
  lemma {:induction false} AckKeeps(cfg: Config, s: System, id: int, bs: nat, sz: Sizes)
    requires Good(cfg, s, id, bs, sz) && s.phase.Turning?
    ensures var s' := Acknowledged(cfg, s, id, bs, sz);
            && CT.Together(cfg, s'.q, s'.g, s.t, Sizing(cfg)) && CA.Shaped(s'.q, s'.g, Sizing(cfg))
            && Find(s'.q.ls.slots, id) == Find(s.q.ls.slots, id) < |s'.q.ls.slots|
            && CR.InAgreement(CR.Session(s'.q.ls, s'.g.p, Acked(s.h), s.track), id, sz)
            && s'.g.p.readers[Find(s.q.ls.slots, id)] == s.g.p.readers[Find(s.q.ls.slots, id)] + s.h.acks
  {
    hide DR.Saved, DR.BlocksOk, Find, CR.InAgreement, CA.Safe, Recorded, LR.Move, Settle, Acknowledge, AckBytes, Acked;
    TogetherShaped(cfg, s.q, s.g, s.t, Sizing(cfg));
    CT.ClientTogether(cfg, s.q, s.g, s.t, LR.Ack(id, AckBytes(s.h, true)), Sizing(cfg));
    AckAgrees(s.q.ls, s.g.p, s.h, s.track, id, sz);
  }

  lemma {:induction false} AckAgrees(ls: Listeners, p: LR.Positions, h: Handle, track: CR.Track, id: int, sz: Sizes)
    requires CR.InAgreement(CR.Session(ls, p, h, track), id, sz) && ls.InBuffer(sz.buffer) && h.rdoff < sz.buffer
    ensures var n, i := AckBytes(h, true), Find(ls.slots, id);
            var ls', p' := Acknowledge(ls, id, n, sz.buffer), LR.Move(ls, p, LR.Ack(id, n));
            && Find(ls'.slots, id) == i < |ls'.slots| == |p'.readers| == |p.readers|
            && CR.InAgreement(CR.Session(ls', p', Acked(h), track), id, sz)
            && p'.readers[i] == p.readers[i] + h.acks && p'.wr == p.wr
  {
    hide LR.Stands, Acknowledge, LR.Move, Find, Settle;
    var n, i := AckBytes(h, true), Find(ls.slots, id);
    LR.StandsInBuffer(ls, p, sz.buffer);
    CR.AckIsWhole(ls, p, id, h, track, true, sz);
    CR.RequestKeepsListener(ls, id, n, 0, 0, [], sz.buffer);
    var a := Answer(ls, 0, 0, 0);
    CR.SettleAgrees(h, a, p.readers[i], p.readers[i] + n, p.wr, p.wr, track, 0, true, sz);
    SettleAcks(h, a, 0, sz);
    CR.AgreementIs(CR.Session(Acknowledge(ls, id, n, sz.buffer), LR.Move(ls, p, LR.Ack(id, n)), Acked(h), track),
                   id, sz, i);
  }

  /** Acknowledging moves no saved byte and no place in the stream. */
  lemma {:induction false} AskKeeps(cfg: Config, s: System, id: int, bs: nat, sz: Sizes)
    requires Good(cfg, s, id, bs, sz) && Enabled(cfg, s, Ask, id, sz)
    ensures Good(cfg, Perform(cfg, s, Ask, id, bs, sz), id, bs, sz)
  {
    hide DR.Saved, CT.Together, CR.InAgreement, Find, Acknowledged, Acked, AckBytes, DR.BlocksOk;
    AckKeeps(cfg, s, id, bs, sz);
    AcknowledgedRest(cfg, s, id, bs, sz);
    UnstartedHasNoAcks(cfg, s, id, bs, sz);
    var s' := Perform(cfg, s, Ask, id, bs, sz);
    SavedLonger(s.View(), s.Mark(), s.t.stream, s'.View(), s'.Mark(), s'.t.stream, bs, sz);
  }

  lemma AcknowledgedRest(cfg: Config, s: System, id: int, bs: nat, sz: Sizes)
    requires Ready(cfg, s, id, bs, sz)
    ensures Acknowledged(cfg, s, id, bs, sz) ==
              s.(q := Acknowledged(cfg, s, id, bs, sz).q, g := Acknowledged(cfg, s, id, bs, sz).g)
  {
  }

  lemma UnstartedHasNoAcks(cfg: Config, s: System, id: int, bs: nat, sz: Sizes)
    requires Good(cfg, s, id, bs, sz) && s.phase.Turning?
    ensures !s.track.started ==> s.h.acks == 0
  {
    hide DR.Saved, CT.Together, Find, DR.BlocksOk;
  }

  lemma {:induction false} FinishKeeps(cfg: Config, s: System, id: int, bs: nat, sz: Sizes)
    requires Good(cfg, s, id, bs, sz) && Enabled(cfg, s, Finish, id, sz)
    ensures Good(cfg, Perform(cfg, s, Finish, id, bs, sz), id, bs, sz)
    ensures Perform(cfg, s, Finish, id, bs, sz).files == s.files + [s.current]
  {
    hide DR.Saved, CT.Together, CR.InAgreement, Find, Acknowledged, Acked, AckBytes, DR.BlocksOk, Settle;
    AckKeeps(cfg, s, id, bs, sz);
    AcknowledgedRest(cfg, s, id, bs, sz);
    UnstartedHasNoAcks(cfg, s, id, bs, sz);
    var q' := Acknowledged(cfg, s, id, bs, sz).q;
    SettleAcks(s.h, Answer(q'.ls, 0, 0, 0), 0, sz);
    var s' := Perform(cfg, s, Finish, id, bs, sz);
    SavedFile(s.View(), s.Mark(), s.t.stream, s'.View(), s'.Mark(), bs, sz);
  }

  lemma {:induction false} SavedFile(d: Dump, m: DR.Mark, s: seq<Byte>, d': Dump, m': DR.Mark, bs: nat, sz: Sizes)
    requires 0 < bs && DR.Saved(d, m, s, bs, sz) && |d.current| >= sz.file
    requires d'.files == d.files + [d.current] && d'.current == [] && m'.At() == m.At() && m'.start == m.start
    ensures DR.Saved(d', m', s, bs, sz)
  {
    hide DR.Flat;
    DR.FlatAppend(d.files, d.current);
    DivModUnique(0, 0, 0, bs);
  }

  /** The answer tells where the listener stands and how much has been published, at that moment. */
  lemma {:induction false} ReturnKeeps(cfg: Config, s: System, id: int, bs: nat, sz: Sizes)
    requires Good(cfg, s, id, bs, sz) && Enabled(cfg, s, Return, id, sz)
    ensures Good(cfg, Perform(cfg, s, Return, id, bs, sz), id, bs, sz)
  {
    hide DR.Saved, Find, DR.BlocksOk, Settle, CR.OpTrack, Acked, CR.Agrees, Recorded, CA.Safe, LR.Stands;
    var i, r := Find(s.q.ls.slots, id), Reported(s, id, sz);
    FindHas(s.q.ls.slots, id);
    CR.OffsetsOf(s.q.ls, s.g.p, i, sz.buffer);
    SettleAcks(s.h, r, bs, sz);
    var s' := Perform(cfg, s, Return, id, bs, sz);
    AnswerAgrees(Acked(s.h), r, s.g.p.readers[i], s.g.p.wr, s.track, s.start, bs, sz);
    CR.AgreementIs(CR.Session(s.q.ls, s.g.p, s'.h, s'.track), id, sz, i);
    SavedLonger(s.View(), s.Mark(), s.t.stream, s'.View(), s'.Mark(), s'.t.stream, bs, sz);
  }

  lemma {:induction false} AnswerAgrees(
    h: Handle, a: Answer, r: nat, wr: nat, t: CR.Track, start: nat, want: nat, sz: Sizes)
    requires sz.Valid() && CR.Agrees(h, r, wr, t, sz) && a.ret == 0 && h.acks == 0
    requires a.available == wr - r && a.readOffset == r % sz.buffer
    requires !t.started ==> r == start
    ensures h.rdoff < sz.buffer
    ensures var h' := Settle(h, a, want, true, sz).0;
            var t' := CR.OpTrack(t, r, a, want, sz);
            && CR.Agrees(h', r, wr, t', sz) && h'.acks == 0 && h'.rdoff < sz.buffer
            && (if t'.started then t'.base + t'.at else start) == (if t.started then t.base + t.at else start)
            && (!t'.started ==> r == start)
  {
    hide Settle, CR.OpTrack;
    CR.SettleAgrees(h, a, r, r, wr, wr, t, want, true, sz);
    DR.SettleKeepsPlace(h, a, r, wr, wr, t, start, want, sz);
    ModBelow(CR.OpTrack(t, r, a, want, sz).at, sz.buffer);
  }

  lemma ModBelow(x: nat, n: nat)
    requires n > 0
    ensures 0 <= x % n < n
  {
  }

  lemma {:induction false} AnsweredWaits(cfg: Config, s: System, id: int, bs: nat, sz: Sizes)
    requires Good(cfg, s, id, bs, sz) && s.phase.Answered?
    ensures DR.Waits(s.View(), s.Mark(), DR.Waited(s.q.ls, s.h, s.Mark()), id, sz)
  {
    hide DR.Saved, Find, CT.Together, LR.Stands;
    var t := s.track;
    AddWrapped(t.base, t.at, sz.buffer);
    AddWrapped(t.at, 0, sz.buffer);
  }

  /** What the program has not read of the published bytes stands in the buffer. */
  lemma {:induction false} TapeShows(cfg: Config, s: System, id: int, bs: nat, sz: Sizes)
    requires Good(cfg, s, id, bs, sz)
    ensures cfg.file > 0
    ensures DR.Ready(cfg, DR.Waited(s.q.ls, s.h, s.Mark()), Find(s.q.ls.slots, id), s.t.buf, s.t.stream)
  {
    hide DR.Saved, Find, CR.InAgreement, CT.Together, Recorded, DR.Ready, Reserved, CA.Safe;
    TogetherShaped(cfg, s.q, s.g, s.t, Sizing(cfg));
    FindHas(s.q.ls.slots, id);
    var i := Find(s.q.ls.slots, id);
    assert LR.SlotStands(s.q.ls.slots[i], s.g.p.readers[i], s.g.p, sz.buffer);
    DR.TapeIsReady(cfg, s.t, DR.Waited(s.q.ls, s.h, s.Mark()), i, s.t.stream);
  }

  lemma {:induction false} RoomOf(d: Dump, m: DR.Mark, s: seq<Byte>, bs: nat, sz: Sizes)
    requires 0 < bs && DR.Saved(d, m, s, bs, sz) && |d.current| < sz.file && sz.file % bs == 0
    ensures |d.current| + bs <= sz.file && (|d.current| + bs) % bs == 0 && Room(d, sz) == sz.file - |d.current|
  {
    DR.RoomForBlock(|d.current|, sz.file, bs);
  }

  lemma BlockSize(buf: seq<Byte>, h: Handle, most: nat, bs: nat, sz: Sizes)
    requires sz.Valid() && |buf| == sz.buffer && h.rdoff < sz.buffer && bs <= sz.buffer && bs <= most && bs <= h.avail
    ensures |WriteBlock(buf, h, most, bs, sz).1| == bs
  {
  }

  lemma AttachedGives(s: System, id: int, bs: nat, sz: Sizes)
    requires DR.Attached(s.View(), s.Mark(), id, bs, sz)
    ensures sz.Valid() && s.h.rdoff < sz.buffer && s.h.acks <= s.h.avail
    ensures CR.InAgreement(CR.Session(s.q.ls, s.g.p, s.h, s.track), id, sz)
    ensures !s.track.started ==> s.g.p.readers[Find(s.q.ls.slots, id)] == s.start
  {
    hide LR.Stands, Find;
  }

  /** The block copied is the next one of the stream, whatever has been written since the answer. */
  lemma {:induction false} CopyKeeps(cfg: Config, s: System, id: int, bs: nat, sz: Sizes)
    requires Good(cfg, s, id, bs, sz) && Enabled(cfg, s, Copy, id, sz)
    ensures Good(cfg, Perform(cfg, s, Copy, id, bs, sz), id, bs, sz)
  {
    hide DR.Saved, Find, CR.InAgreement, CT.Together, DR.Waits, DR.Ready, WriteBlock, DR.Attached, Room;
    var s' := Perform(cfg, s, Copy, id, bs, sz);
    if s.h.avail >= bs {
      AnsweredWaits(cfg, s, id, bs, sz);
      TapeShows(cfg, s, id, bs, sz);
      RoomOf(s.View(), s.Mark(), s.t.stream, bs, sz);
      BlockSize(s.t.buf, s.h, Room(s.View(), sz), bs, sz);
      DR.BlockEnds(cfg, s.View(), s.Mark(), DR.Waited(s.q.ls, s.h, s.Mark()), s.t.buf, s.t.stream, id, bs, sz);
      AttachedGives(s', id, bs, sz);
    } else {
      SavedLonger(s.View(), s.Mark(), s.t.stream, s'.View(), s'.Mark(), s'.t.stream, bs, sz);
    }
  }

  // ----- Runs of the whole -----

  lemma {:induction false} StepKeeps(cfg: Config, s: System, a: Act, id: int, bs: nat, sz: Sizes)
    requires Good(cfg, s, id, bs, sz) && Enabled(cfg, s, a, id, sz)
    ensures a.Drive? && a.d.step.Allot? ==> a.d.frame.Fits(cfg)
    ensures Good(cfg, Perform(cfg, s, a, id, bs, sz), id, bs, sz)
    ensures Perform(cfg, s, a, id, bs, sz).start == s.start
  {
    hide Good, Perform, Ready;
    GoodIsReady(cfg, s, id, bs, sz);
    StartStays(cfg, s, a, id, bs, sz);
    match a
    case Drive(d) => DriveKeeps(cfg, s, d, id, bs, sz);
    case Ask => AskKeeps(cfg, s, id, bs, sz);
    case Return => ReturnKeeps(cfg, s, id, bs, sz);
    case Copy => CopyKeeps(cfg, s, id, bs, sz);
    case Finish => FinishKeeps(cfg, s, id, bs, sz);
  }

  lemma GoodIsReady(cfg: Config, s: System, id: int, bs: nat, sz: Sizes)
    requires Good(cfg, s, id, bs, sz)
    ensures Ready(cfg, s, id, bs, sz)
    ensures DR.BlocksOk(cfg, bs, sz) && DR.Saved(s.View(), s.Mark(), s.t.stream, bs, sz) && Recorded(cfg, s.t)
  {
    hide DR.BlocksOk, DR.Saved, CR.InAgreement, Recorded, Ready, CA.Safe;
  }

  lemma {:induction false} StartStays(cfg: Config, s: System, a: Act, id: int, bs: nat, sz: Sizes)
    requires Good(cfg, s, id, bs, sz) && Enabled(cfg, s, a, id, sz)
    ensures a.Drive? && a.d.step.Allot? ==> a.d.frame.Fits(cfg)
    ensures Ready(cfg, s, id, bs, sz) && Perform(cfg, s, a, id, bs, sz).start == s.start
  {
    hide DR.BlocksOk, DR.Saved, CR.InAgreement, CT.Together, FrameLog.Sound, WriteBlock, Settle, CA.Perform, CA.Advance,
         CT.Do, CA.Affordable;
    if a.Drive? {
      DriveCanDo(cfg, s, a.d, id, bs, sz);
    }
  }

  ghost predicate Runs(cfg: Config, s: System, run: seq<Act>, s': System, id: int, bs: nat, sz: Sizes)
    requires Good(cfg, s, id, bs, sz)
    decreases |run|
  {
    if |run| == 0 then s' == s
    else
      Enabled(cfg, s, run[0], id, sz) &&
      (StepKeeps(cfg, s, run[0], id, bs, sz);
       Runs(cfg, Perform(cfg, s, run[0], id, bs, sz), run[1..], s', id, bs, sz))
  }

  lemma {:induction false} RunKeeps(cfg: Config, s: System, run: seq<Act>, s': System, id: int, bs: nat, sz: Sizes)
    requires Good(cfg, s, id, bs, sz) && Runs(cfg, s, run, s', id, bs, sz)
    ensures Good(cfg, s', id, bs, sz) && s'.start == s.start
    decreases |run|
  {
    if |run| > 0 {
      StepKeeps(cfg, s, run[0], id, bs, sz);
      hide Good, Enabled, Perform;
      RunKeeps(cfg, Perform(cfg, s, run[0], id, bs, sz), run[1..], s', id, bs, sz);
    }
  }

  /** The program with its handle just opened. */
  function Joined(q: CA.Queue, g: CA.Progress, t: Tape, start: nat): System {
    System(q, g, t, Handle(0, 0, 0, 0), [], [], Turning, CR.Track(0, 0, false), start)
  }

  lemma {:induction false} AlignedIsStable(cfg: Config, x: nat, wr: nat, bs: nat)
    requires cfg.Valid() && RAW_HLEN <= bs && cfg.file % bs == 0 && x % bs == 0 && x <= wr
    ensures x <= Stable(cfg, wr)
  {
    if x > 0 {
      if x < bs {
        DivModUnique(x, 0, x, bs);
      }
      AddPeriod(x - bs, bs);
      DR.BlockIsStable(cfg, x - bs, wr, bs);
    }
  }

  lemma StreamIsStable(cfg: Config, t: Tape)
    requires Recorded(cfg, t)
    ensures cfg.file > 0 && |t.stream| == Stable(cfg, Reserved(t.trips))
  {
    hide FrameLog.Sound, Log, EntryHolds, Reserved, Stable;
    RecordedShape(cfg, t);
  }

  /** The program may join whenever its listener starts at a multiple of its block size. */
  lemma {:induction false} JoinedIsGood(cfg: Config, q: CA.Queue, g: CA.Progress, t: Tape, id: int, bs: nat, sz: Sizes)
    requires CT.Together(cfg, q, g, t, Sizing(cfg)) && DR.BlocksOk(cfg, bs, sz) && id != EMPTY
    requires Find(q.ls.slots, id) < |q.ls.slots| == |g.p.readers|
    requires g.p.readers[Find(q.ls.slots, id)] % bs == 0
    ensures Good(cfg, Joined(q, g, t, g.p.readers[Find(q.ls.slots, id)]), id, bs, sz)
  {
    hide Recorded, LR.Stands, CA.Safe, Find, DR.Saved, CR.InAgreement, Reserved, Stable;
    var i := Find(q.ls.slots, id);
    TogetherShaped(cfg, q, g, t, Sizing(cfg));
    RecordedShape(cfg, t);
    StreamIsStable(cfg, t);
    FindHas(q.ls.slots, id);
    ReaderBelow(q.ls, g.p, i, sz.buffer);
    AlignedIsStable(cfg, g.p.readers[i], Reserved(t.trips), bs);
    DR.OpenedSaved(q.ls, g.p, t.stream, id, bs, sz);
    AttachedGives(Joined(q, g, t, g.p.readers[i]), id, bs, sz);
  }

  lemma ReaderBelow(ls: Listeners, p: LR.Positions, i: nat, size: nat)
    requires LR.Stands(ls, p, size) && i < |ls.slots| && ls.slots[i].id != EMPTY
    ensures |p.readers| == |ls.slots| && p.rd <= p.readers[i] <= p.wr
  {
    assert LR.SlotStands(ls.slots[i], p.readers[i], p, size);
  }

  /** The driver starts, and its threads and other clients work for a while, idle resets included. */
  ghost predicate Warms(cfg: Config, slots: nat, consumers: nat, buf: seq<Byte>, deeds: seq<CT.Deed>,
                        q: CA.Queue, g: CA.Progress, t: Tape) {
    && cfg.Valid() && |buf| == cfg.buffer && cfg.most <= cfg.buffer && consumers > 0
    && cfg.buffer <= 0x1_0000_0000 && 0x1_0000_0000 % cfg.buffer == 0
    && (CT.StartsTogether(cfg, slots, consumers, buf);
        CT.Runs(cfg, CA.StartQueue(slots, consumers), CA.StartProgress(slots), Tape(buf, [], [], 0), deeds, q, g, t,
                Sizing(cfg)))
  }

  /** The capture program has just opened its handle, and its listener starts at a file boundary. */
  predicate JoinsAt(q: CA.Queue, g: CA.Progress, id: int, first: nat, sz: Sizes) {
    && id != EMPTY && Find(q.ls.slots, id) < |q.ls.slots| == |g.p.readers|
    && g.p.readers[Find(q.ls.slots, id)] == first * sz.file
  }

  lemma {:induction false} JoinedAfter(
    cfg: Config, slots: nat, consumers: nat, buf: seq<Byte>, deeds: seq<CT.Deed>, q: CA.Queue, g: CA.Progress,
    t: Tape, id: int, first: nat, bs: nat, sz: Sizes)
    requires Warms(cfg, slots, consumers, buf, deeds, q, g, t) && DR.BlocksOk(cfg, bs, sz)
    requires JoinsAt(q, g, id, first, sz)
    ensures first * sz.file >= 0 && Good(cfg, Joined(q, g, t, first * sz.file), id, bs, sz)
  {
    hide CT.Together, CT.Runs, Find, Good;
    CT.StartsTogether(cfg, slots, consumers, buf);
    CT.RunTogether(cfg, CA.StartQueue(slots, consumers), CA.StartProgress(slots), Tape(buf, [], [], 0), deeds,
                   q, g, t, Sizing(cfg));
    DR.MultipleOfMultiple(first, sz.file, bs);
    JoinedIsGood(cfg, q, g, t, id, bs, sz);
  }

  /** Every file the capture program closes passes the repository's check, and the files closed and the one
      open are the stream the driver has laid out, without gap or repeat, whatever the driver's threads and
      other clients do before it joins and between any two of its steps. */
  lemma {:induction false} FilesOfEveryRunPass(
    cfg: Config, slots: nat, consumers: nat, buf: seq<Byte>, deeds: seq<CT.Deed>, q: CA.Queue, g: CA.Progress,
    t: Tape, id: int, first: nat, run: seq<Act>, s: System, bs: nat, sz: Sizes, o: Options)
    requires Warms(cfg, slots, consumers, buf, deeds, q, g, t) && DR.BlocksOk(cfg, bs, sz)
    requires JoinsAt(q, g, id, first, sz)
    requires (JoinedAfter(cfg, slots, consumers, buf, deeds, q, g, t, id, first, bs, sz);
              Runs(cfg, Joined(q, g, t, first * sz.file), run, s, id, bs, sz))
    requires SaneFrames(s.t.trips, o)
    ensures forall k :: 0 <= k < |s.files| ==> Checked(s.files[k], 0, Tally(0, 0, false), o).errors == 0
    ensures first * sz.file <= s.Mark().At() <= |s.t.stream|
    ensures DR.Flat(s.files) + s.current == s.t.stream[first * sz.file..s.Mark().At()]
    ensures forall f :: f in s.files ==> |f| == sz.file
  {
    hide Runs, Good, Find, Recorded, DR.Saved, Checked, SaneFrames, Warms, JoinsAt, DR.Flat;
    JoinedAfter(cfg, slots, consumers, buf, deeds, q, g, t, id, first, bs, sz);
    RunKeeps(cfg, Joined(q, g, t, first * sz.file), run, s, id, bs, sz);
    GoodIsReady(cfg, s, id, bs, sz);
    DR.SavedBytes(s.View(), s.Mark(), s.t.stream, bs, sz);
    forall k | 0 <= k < |s.files| ensures Checked(s.files[k], 0, Tally(0, 0, false), o).errors == 0 {
      DR.ClosedFilesPass(cfg, s.View(), s.Mark(), s.t, k, first, bs, sz, o);
    }
  }

  // ----- The program's own loop -----

  /** One iteration of the poll thread during the wait is a pop and a publication. */
  lemma {:induction false} PollIsDeeds(q: CA.Queue, sz: CA.Sizing)
    requires q.ls.InBuffer(sz.buffer) && sz.buffer <= TWO_32 && |q.left| > 0 && q.left[0] == 0
    ensures var popped := CA.Perform(q, CA.Pop, sz);
            && popped.ls.InBuffer(sz.buffer) && popped.left == q.left
            && Poll(q.ls, CA.NewBytes(popped, sz.buffer), sz.buffer) == CA.Perform(popped, CA.Publish, sz).ls
  {
    hide PopGlobal, CA.NewBytes;
    var popped := CA.Perform(q, CA.Pop, sz);
    if CA.NewBytes(popped, sz.buffer) == 0 {
      PushNothing(popped.ls, sz.buffer);
    }
  }

  lemma PushOneNothing(l: Listener, size: nat)
    requires l.InBuffer(size) && size <= TWO_32
    ensures PushOne(l, 0, size) == l
  {
    DivModUnique(l.wr, 0, l.wr, TWO_64);
    DivModUnique(l.wr, 0, l.wr, size);
  }

  lemma {:induction false} PushNothing(ls: Listeners, size: nat)
    requires ls.InBuffer(size) && size <= TWO_32
    ensures PushAll(ls, 0, size) == ls
  {
    hide PushOne;
    forall i | 0 <= i < |ls.slots| ensures PushAll(ls, 0, size).slots[i] == ls.slots[i] {
      PushOneNothing(ls.slots[i], size);
    }
  }

  /** A turn of the program is its request, the wait, the answer and the copy: if the deeds of the wait leave
      the listeners as the driver's wait leaves them, the whole is what the program's loop computes. */
  lemma {:induction false} TurnIsSteps(
    cfg: Config, s: System, mid: System, pushes: seq<nat>, id: int, bs: nat, sz: Sizes)
    requires Good(cfg, s, id, bs, sz) && Good(cfg, mid, id, bs, sz) && Enabled(cfg, s, Ask, id, sz)
    requires mid.phase.Waiting? && mid.h == s.h && mid.files == s.files && mid.current == s.current
    requires Loops(ONE_SECOND) <= |pushes|
    requires var asked := Perform(cfg, s, Ask, id, bs, sz).q.ls;
             && Find(s.q.ls.slots, id) < |asked.slots| && asked.InBuffer(sz.buffer)
             && mid.q.ls ==
                  HandleModel.Waited(asked, Find(s.q.ls.slots, id), bs, Loops(ONE_SECOND), pushes, sz.buffer).0
    requires Find(mid.q.ls.slots, id) == Find(s.q.ls.slots, id)
    ensures var answered := Perform(cfg, mid, Return, id, bs, sz);
            && Good(cfg, answered, id, bs, sz)
            && Perform(cfg, answered, Copy, id, bs, sz).View() ==
                 Turn(s.View(), Round(pushes, mid.t.buf), id, bs, sz)
  {
    hide Loops, DR.Saved, CT.Together, CR.InAgreement, Settle, WriteBlock, Find, HandleModel.Waited, DR.BlocksOk;
    ReturnKeeps(cfg, mid, id, bs, sz);
  }

  /** The end of a file is the one the loop computes. */
  lemma {:induction false} FinishIsClose(cfg: Config, s: System, id: int, bs: nat, sz: Sizes)
    requires Good(cfg, s, id, bs, sz) && Enabled(cfg, s, Finish, id, sz)
    ensures Perform(cfg, s, Finish, id, bs, sz).View() == Close(s.View(), id, bs, sz)
  {
    hide DR.Saved, CT.Together, CR.InAgreement, Settle, DR.BlocksOk;
  }
}
