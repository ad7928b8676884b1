/** The admin send queue: commands posted to the firmware through a ring.

    The firmware is any list of batches of written-back descriptors: each time the driver reads the
    head or waits, the next batch is what the firmware finishes meanwhile, as far as the tail lets it. */
module AdminSend {
  import opened Cyclic

  datatype Option<T> = None | Some(value: T)

  datatype Desc = Desc(opcode: nat, flags: bv16, cookie: nat, datalen: nat, addr: nat, retval: nat)

  const EMPTY_DESC := Desc(0, 0, 0, 0, 0, 0)

  /** `struct i40e_asq_cmd_details`; `callback` says whether one is set. */
  datatype Details = Details(callback: bool, cookie: nat, flagsEna: bv16, flagsDis: bv16, async: bool, postpone: bool)

  const EMPTY_DETAILS := Details(false, 0, 0, 0, false, false)

  datatype Status = Success | QueueEmpty | InvalidSize | BadParam | QueueFull | QueueError | CriticalError | Timeout

  /** A command as it went to the ring. */
  datatype Posted = Posted(desc: Desc, details: Details)

  // ----- Positions and slots -----

  function At(j: nat, n: nat): (i: nat)
    requires n > 0
    ensures i < n
  {
    j % n
  }

  function Following(i: nat, n: nat): nat {
    if i + 1 == n then 0 else i + 1
  }

  lemma FollowingSlot(j: nat, n: nat)
    requires n > 0
    ensures At(j + 1, n) == Following(At(j, n), n)
  {
    AddWrapped(j, 1, n);
    if j % n + 1 == n {
      DivModUnique(n, 1, 0, n);
    } else {
      DivModUnique(j % n + 1, 0, j % n + 1, n);
    }
  }

  lemma SlotsDiffer(i: nat, j: nat, n: nat)
    requires i < j < i + n
    ensures At(i, n) != At(j, n)
  {
    if At(i, n) == At(j, n) {
      SameOffset(i, j, n);
    }
  }

  /** What the ring holds: of every command not yet reclaimed its details, and its descriptor as posted or,
      once finished, as the firmware wrote it back. */
  ghost predicate InRing(descs: seq<Desc>, dets: seq<Details>, posted: seq<Posted>, replies: seq<Desc>,
      cleaned: nat, n: nat) {
    && |descs| == |dets| == n
    && n > 0
    && cleaned <= |replies| <= |posted| < cleaned + n
    && forall j {:trigger At(j, n)} :: cleaned <= j < |posted| ==>
         && dets[At(j, n)] == posted[j].details
         && descs[At(j, n)] == if j < |replies| then replies[j] else posted[j].desc
  }

  lemma InRingShape(descs: seq<Desc>, dets: seq<Details>, posted: seq<Posted>, replies: seq<Desc>, cleaned: nat, n: nat)
    requires InRing(descs, dets, posted, replies, cleaned, n)
    ensures cleaned <= |replies| <= |posted| < cleaned + n
  {
  }

  /** The descriptors handed to callbacks for the first `cleaned` commands, in posting order. */
  function CallbacksOf(posted: seq<Posted>, replies: seq<Desc>, cleaned: nat): seq<Desc>
    requires cleaned <= |replies| <= |posted|
  {
    if cleaned == 0 then []
    else CallbacksOf(posted, replies, cleaned - 1) +
         (if posted[cleaned - 1].details.callback then [replies[cleaned - 1]] else [])
  }

  lemma {:induction false} CallbacksStay(posted: seq<Posted>, replies: seq<Desc>, posted': seq<Posted>,
      replies': seq<Desc>, cleaned: nat)
    requires cleaned <= |replies| <= |posted| && |replies'| <= |posted'| && posted <= posted' && replies <= replies'
    ensures CallbacksOf(posted', replies', cleaned) == CallbacksOf(posted, replies, cleaned)
  {
    if cleaned > 0 {
      CallbacksStay(posted, replies, posted', replies', cleaned - 1);
    }
  }

  /** How many of the first n commands want a callback. */
  function Wanted(posted: seq<Posted>, n: nat): nat
    requires n <= |posted|
  {
    |set i | 0 <= i < n && posted[i].details.callback|
  }

  lemma {:induction false} WantedNext(posted: seq<Posted>, n: nat)
    requires n < |posted|
    ensures Wanted(posted, n + 1) == Wanted(posted, n) + (if posted[n].details.callback then 1 else 0)
  {
    var before := set i | 0 <= i < n && posted[i].details.callback;
    var after := set i | 0 <= i < n + 1 && posted[i].details.callback;
    if posted[n].details.callback {
      assert after == before + {n};
    } else {
      assert after == before;
    }
  }

  /** Each reclaimed command that wants a callback has had one, with its own write-back, in posting order; no other
      command has. */
  lemma {:induction false} CallbackOfEach(posted: seq<Posted>, replies: seq<Desc>, cleaned: nat)
    requires cleaned <= |replies| <= |posted|
    ensures |CallbacksOf(posted, replies, cleaned)| == Wanted(posted, cleaned)
    ensures forall i :: 0 <= i < cleaned && posted[i].details.callback ==>
              Wanted(posted, i) < Wanted(posted, cleaned)
              && CallbacksOf(posted, replies, cleaned)[Wanted(posted, i)] == replies[i]
  {
    if cleaned > 0 {
      CallbackOfEach(posted, replies, cleaned - 1);
      WantedNext(posted, cleaned - 1);
      hide Wanted;
    }
  }

  lemma {:induction false} ReplyInRing(
    descs: seq<Desc>, dets: seq<Details>, posted: seq<Posted>, replies: seq<Desc>, cleaned: nat, n: nat, d: Desc)
    requires InRing(descs, dets, posted, replies, cleaned, n) && |replies| < |posted|
    ensures InRing(descs[At(|replies|, n) := d], dets, posted, replies + [d], cleaned, n)
  {
    var h := |replies|;
    forall j {:trigger At(j, n)} | cleaned <= j < |posted| && j != h ensures At(j, n) != At(h, n) {
      if j < h { SlotsDiffer(j, h, n); } else { SlotsDiffer(h, j, n); }
    }
  }

  lemma {:induction false} CleanInRing(
    descs: seq<Desc>, dets: seq<Details>, posted: seq<Posted>, replies: seq<Desc>, cleaned: nat, n: nat)
    requires InRing(descs, dets, posted, replies, cleaned, n) && cleaned < |replies|
    ensures var i := At(cleaned, n);
            && descs[i] == replies[cleaned] && dets[i] == posted[cleaned].details
            && InRing(descs[i := EMPTY_DESC], dets[i := EMPTY_DETAILS], posted, replies, cleaned + 1, n)
  {
    forall j {:trigger At(j, n)} | cleaned < j < |posted| ensures At(j, n) != At(cleaned, n) {
      SlotsDiffer(cleaned, j, n);
    }
  }

  /** The details of the next command can be written early: that slot holds no posted command. */
  lemma {:induction false} DetailsInRing(
    descs: seq<Desc>, dets: seq<Details>, posted: seq<Posted>, replies: seq<Desc>, cleaned: nat, n: nat, t: Details)
    requires InRing(descs, dets, posted, replies, cleaned, n)
    ensures InRing(descs, dets[At(|posted|, n) := t], posted, replies, cleaned, n)
  {
    forall j {:trigger At(j, n)} | cleaned <= j < |posted| ensures At(j, n) != At(|posted|, n) {
      SlotsDiffer(j, |posted|, n);
    }
  }

  lemma {:induction false} PostInRing(
    descs: seq<Desc>, dets: seq<Details>, posted: seq<Posted>, replies: seq<Desc>, cleaned: nat, n: nat, d: Desc)
    requires InRing(descs, dets, posted, replies, cleaned, n) && |posted| + 1 < cleaned + n
    ensures var i := At(|posted|, n);
            InRing(descs[i := d], dets, posted + [Posted(d, dets[i])], replies, cleaned, n)
  {
    forall j {:trigger At(j, n)} | cleaned <= j < |posted| ensures At(j, n) != At(|posted|, n) {
      SlotsDiffer(j, |posted|, n);
    }
  }

  /** `I40E_DESC_UNUSED`. */
  function DescUnused(nextToClean: nat, nextToUse: nat, count: nat): int {
    (if nextToClean > nextToUse then 0 else count) + nextToClean - nextToUse - 1
  }

  lemma {:induction false} UnusedCounts(clean: nat, use: nat, n: nat)
    requires n > 0 && clean <= use < clean + n
    ensures DescUnused(At(clean, n), At(use, n), n) == n - 1 - (use - clean)
  {
    DistanceOfPositions(clean, use, n);
  }

  /** Positions at most a lap apart with the same slot are the same: the test for completion. */
  lemma SameSlot(i: nat, j: nat, n: nat)
    requires i <= j < i + n
    ensures At(i, n) == At(j, n) <==> i == j
  {
    if i < j { SlotsDiffer(i, j, n); }
  }

  // ----- Commands -----

  /** The caller's descriptor with the cookie and the flags of the details. */
  function WithDetails(d: Desc, t: Details): Desc {
    d.(cookie := if t.cookie != 0 then t.cookie else d.cookie, flags := (d.flags & !t.flagsDis) | t.flagsEna)
  }

  /** The descriptor on the ring: an indirect command points to the slot's own buffer. */
  function OnRing(d: Desc, hasBuff: bool, buffSize: nat, addr: nat): Desc {
    if hasBuff then d.(datalen := buffSize, addr := addr) else d
  }

  /** What the firmware's return value says; its upper byte is internal to the firmware. */
  function StatusOf(retval: nat): (s: Status)
    ensures s == Success || s == QueueError
  {
    if retval % 256 == 0 then Success else QueueError
  }

  /** The flags bit by bit: what is to be enabled is set, else what is to be disabled is cleared, and the rest
      are the caller's. */
  lemma FlagsByBit(d: Desc, t: Details, bit: bv16)
    requires bit != 0 && bit & (bit - 1) == 0
    ensures WithDetails(d, t).flags & bit ==
              if t.flagsEna & bit != 0 then bit else if t.flagsDis & bit != 0 then 0 else d.flags & bit
  {
  }

  /** A cookie of 0 is none.  Nothing else of the caller's descriptor changes. */
  lemma DetailsMeans(d: Desc, t: Details)
    ensures var d' := WithDetails(d, t);
            && d'.cookie == (if t.cookie == 0 then d.cookie else t.cookie)
            && d'.opcode == d.opcode && d'.datalen == d.datalen && d'.addr == d.addr && d'.retval == d.retval
  {
  }

  /** A direct command goes to the ring as it is; an indirect one with the length of its data and the address of
      the buffer of its slot. */
  lemma OnRingMeans(d: Desc, buffSize: nat, addr: nat)
    ensures OnRing(d, false, buffSize, addr) == d
    ensures var d' := OnRing(d, true, buffSize, addr);
            && d'.datalen == buffSize && d'.addr == addr
            && d'.opcode == d.opcode && d'.flags == d.flags && d'.cookie == d.cookie && d'.retval == d.retval
  {
  }

  /** The lower octet of the return value alone decides. */
  lemma StatusByOctet(high: nat, low: nat)
    requires low < 256
    ensures StatusOf(high * 256 + low) == if low == 0 then Success else QueueError
  {
    DivModUnique(high * 256 + low, high, low, 256);
  }

  // ----- What the firmware finishes meanwhile -----

  /** What is finished once the firmware has had these answers, one for each command it has been told of. */
  function Finished(replies: seq<Desc>, told: nat, answers: seq<Desc>): (replies': seq<Desc>)
    requires |replies| <= told
    ensures replies <= replies' && |replies'| <= told
    ensures |replies'| == told || |replies'| == |replies| + |answers|
  {
    replies + answers[..if |answers| <= told - |replies| then |answers| else told - |replies|]
  }

  function AllOf(batches: seq<seq<Desc>>): seq<Desc> {
    if |batches| == 0 then [] else AllOf(batches[..|batches| - 1]) + batches[|batches| - 1]
  }

  lemma FinishedMore(replies: seq<Desc>, told: nat, a: seq<Desc>, b: seq<Desc>)
    requires |replies| <= told
    ensures Finished(Finished(replies, told, a), told, b) == Finished(replies, told, a + b)
  {
  }

  lemma AllOfMore(batches: seq<seq<Desc>>, k: nat)
    requires k < |batches|
    ensures AllOf(batches[..k + 1]) == AllOf(batches[..k]) + batches[k]
  {
    assert batches[..k + 1][..k] == batches[..k];
  }

  /** How many delays of 50 microseconds the wait makes: the first whatever the timeout, and others until their
      sum has reached it. */
  function Delays(timeout: nat): (n: nat)
    ensures n >= 1 && timeout <= 50 * n && (n > 1 ==> 50 * (n - 1) < timeout)
  {
    if timeout <= 50 then 1 else (timeout + 49) / 50
  }

  /** The answers of the first k batches. */
  function Heard(batches: seq<seq<Desc>>, k: nat): seq<Desc> {
    AllOf(if k <= |batches| then batches[..k] else batches)
  }

  /** The answers the firmware gives during a wait that runs to its end. */
  function AnswersIn(polls: seq<seq<Desc>>, timeout: nat): seq<Desc> {
    Heard(polls, Delays(timeout))
  }

  lemma NothingFinished(replies: seq<Desc>, told: nat, polls: seq<seq<Desc>>)
    requires |replies| <= told
    ensures Finished(replies, told, Heard(polls, 0)) == replies
  {
  }

  lemma OneMoreBatch(replies: seq<Desc>, told: nat, polls: seq<seq<Desc>>, k: nat)
    requires |replies| <= told
    ensures var before := Finished(replies, told, Heard(polls, k));
            Finished(replies, told, Heard(polls, k + 1)) ==
              if k < |polls| then Finished(before, told, polls[k]) else before
  {
    if k < |polls| {
      AllOfMore(polls, k);
      FinishedMore(replies, told, AllOf(polls[..k]), polls[k]);
    } else if k == |polls| {
      assert polls[..k] == polls;
    }
  }

  /** Once all is finished, later batches change nothing. */
  lemma {:induction false} NoMoreToFinish(replies: seq<Desc>, told: nat, polls: seq<seq<Desc>>, k: nat, n: nat)
    requires |replies| <= told && k <= n
    requires |Finished(replies, told, Heard(polls, k))| == told
    ensures Finished(replies, told, Heard(polls, n)) == Finished(replies, told, Heard(polls, k))
    decreases n - k
  {
    hide Heard;
    if k < n {
      OneMoreBatch(replies, told, polls, k);
      NoMoreToFinish(replies, told, polls, k + 1, n);
    }
  }

  // ----- The queue -----

  class AdminSendQueue {
    const count: nat
    const bufSize: nat
    const ring: array<Desc>
    const details: array<Details>
    const buffers: array<nat>
    var nextToUse: nat
    var nextToClean: nat
    var head: nat
    var tail: nat
    var callbacks: seq<Desc>
    ghost var posted: seq<Posted>
    ghost var replies: seq<Desc>
    ghost var cleaned: nat
    ghost var told: nat

    /** clean <= head <= tail <= use in ring order, and every callback made so far, once, in order. */
    ghost predicate Valid()
      reads this, ring, details
    {
      && ring.Length == details.Length == buffers.Length == count > 0
      && InRing(ring[..], details[..], posted, replies, cleaned, count)
      && |replies| <= told <= |posted|
      && nextToUse == At(|posted|, count) && nextToClean == At(cleaned, count)
      && head == At(|replies|, count) && tail == At(told, count)
      && callbacks == CallbacksOf(posted, replies, cleaned)
    }

    lemma Shape()
      requires Valid()
      ensures count > 0 && ring.Length == details.Length == buffers.Length == count
      ensures nextToUse == At(|posted|, count) < count
      ensures cleaned <= |replies| <= told <= |posted| < cleaned + count
    {
    }

    /** The ring after `i40e_config_asq_regs`; `addresses` are those of the preallocated buffers. */
    constructor (addresses: array<nat>, bufSize: nat)
      requires addresses.Length > 0
      ensures Valid() && count == addresses.Length && this.bufSize == bufSize && buffers == addresses
      ensures posted == [] && replies == [] && fresh(ring) && fresh(details)
    {
      count, this.bufSize, buffers := addresses.Length, bufSize, addresses;
      ring := new Desc[addresses.Length](i => EMPTY_DESC);
      details := new Details[addresses.Length](i => EMPTY_DETAILS);
      nextToUse, nextToClean, head, tail, callbacks := 0, 0, 0, 0, [];
      posted, replies, cleaned, told := [], [], 0, 0;
      new;
      DivModUnique(0, 0, 0, count);
    }

    /** The firmware finishes one command. */
    method FinishOne(d: Desc)
      requires Valid() && |replies| < told
      modifies ring, this`head, this`replies
      ensures Valid() && replies == old(replies) + [d]
    {
      ReplyInRing(ring[..], details[..], posted, replies, cleaned, count, d);
      CallbacksStay(posted, replies, posted, replies + [d], cleaned);
      FollowingSlot(|replies|, count);
      ring[head] := d;
      head := Following(head, count);
      replies := replies + [d];
    }

    /** The firmware finishes the commands of a batch, one by one, until it meets the tail. */
    method Firmware(batch: seq<Desc>)
      requires Valid()
      modifies ring, this`head, this`replies
      ensures Valid() && old(replies) <= replies
      ensures |old(replies)| <= told && replies == Finished(old(replies), told, batch)
    {
      hide InRing, At, CallbacksOf, Following;
      var i := 0;
      InRingShape(ring[..], details[..], posted, replies, cleaned, count);
      SameSlot(|replies|, told, count);
      while i < |batch| && head != tail
        invariant i <= |batch| && Valid()
        invariant replies == old(replies) + batch[..i]
        invariant |replies| <= told < |replies| + count && (head == tail <==> |replies| == told)
        decreases |batch| - i
      {
        FinishOne(batch[i]);
        i := i + 1;
        InRingShape(ring[..], details[..], posted, replies, cleaned, count);
        SameSlot(|replies|, told, count);
      }
    }

    /** The reclaiming of one finished command, its callback first. */
    method CleanOne()
      requires Valid() && cleaned < |replies|
      modifies ring, details, this`nextToClean, this`cleaned, this`callbacks
      ensures Valid() && cleaned == old(cleaned) + 1
      ensures nextToUse < details.Length && details[nextToUse] == old(details[nextToUse])
    {
      SlotsDiffer(cleaned, |posted|, count);
      CleanInRing(ring[..], details[..], posted, replies, cleaned, count);
      FollowingSlot(cleaned, count);
      if details[nextToClean].callback {
        callbacks := callbacks + [ring[nextToClean]];
      }
      ring[nextToClean] := EMPTY_DESC;
      details[nextToClean] := EMPTY_DETAILS;
      nextToClean := Following(nextToClean, count);
      cleaned := cleaned + 1;
    }

    /** The two tests of the cleaning: whether it has caught up with the firmware, and how many slots are free. */
    lemma CleaningTests()
      requires Valid()
      ensures head == nextToClean <==> cleaned == |replies|
      ensures DescUnused(nextToClean, nextToUse, count) == count - 1 - (|posted| - cleaned)
    {
      SameSlot(cleaned, |replies|, count);
      UnusedCounts(cleaned, |posted|, count);
    }

    /** `i40e_clean_asq`; each reading of the head finds what the firmware has finished by then. */
    method CleanAsq(fw: seq<seq<Desc>>) returns (unused: nat, ghost heard: nat)
      requires Valid()
      modifies ring, details, this`head, this`replies, this`nextToClean, this`cleaned, this`callbacks
      ensures Valid() && |old(replies)| <= told && heard <= |fw|
      ensures replies == Finished(old(replies), told, Heard(fw, heard))
      ensures cleaned == |replies|
      ensures unused == count - 1 - (|posted| - cleaned)
      ensures nextToUse < details.Length && details[nextToUse] == old(details[nextToUse])
    {
      hide Valid, At, DescUnused, Finished, Heard;
      Shape();
      var k := 0;
      var done := false;
      ghost var was := replies;
      NothingFinished(was, told, fw);
      while !done
        invariant Valid() && k <= |fw| && |was| <= told && replies == Finished(was, told, Heard(fw, k))
        invariant done ==> cleaned == |replies|
        invariant cleaned <= |replies| <= |posted|
        invariant nextToUse < details.Length && details[nextToUse] == old(details[nextToUse])
        decreases !done, |posted| - cleaned
      {
        if k < |fw| {
          Firmware(fw[k]);
          OneMoreBatch(was, told, fw, k);
          k := k + 1;
        }
        Shape();
        CleaningTests();
        if head == nextToClean {
          done := true;
        } else {
          CleanOne();
          Shape();
        }
      }
      CleaningTests();
      Shape();
      unused, heard := DescUnused(nextToClean, nextToUse, count), k;
    }

    /** Put a command on the ring and, unless it is postponed, tell the firmware. */
    method Post(d: Desc, hasBuff: bool, buffSize: nat) returns (slot: nat)
      requires Valid() && |posted| + 1 < cleaned + count
      modifies ring, this`nextToUse, this`tail, this`posted, this`told
      ensures Valid() && slot == At(|old(posted)|, count)
      ensures posted == old(posted) + [Posted(OnRing(d, hasBuff, buffSize, buffers[slot]), details[slot])]
      ensures told == if details[slot].postpone then old(told) else |posted|
    {
      slot := nextToUse;
      var onRing := OnRing(d, hasBuff, buffSize, buffers[slot]);
      PostInRing(ring[..], details[..], posted, replies, cleaned, count, onRing);
      ghost var posted' := posted + [Posted(onRing, details[slot])];
      CallbacksStay(posted, replies, posted', replies, cleaned);
      FollowingSlot(|posted|, count);
      ring[slot] := onRing;
      nextToUse := Following(nextToUse, count);
      posted := posted';
      if !details[slot].postpone {
        tail := nextToUse;
        told := |posted|;
      }
    }

    /** `i40e_asq_done`. */
    method AsqDone() returns (done: bool)
      requires Valid()
      ensures done <==> |replies| == |posted|
    {
      SameSlot(|replies|, |posted|, count);
      done := head == nextToUse;
    }

    /** The wait for a command's write-back: polls[k] is what the firmware finishes during the k-th delay.
        Afterwards the firmware has had all that it could finish until the timeout. */
    method WaitForWriteback(polls: seq<seq<Desc>>, timeout: nat)
      requires Valid()
      modifies ring, this`head, this`replies
      ensures Valid() && |old(replies)| <= told
      ensures replies == Finished(old(replies), told, AnswersIn(polls, timeout))
    {
      hide InRing, At, CallbacksOf, Finished, Heard;
      Shape();
      var totalDelay, k := 0, 0;
      ghost var was := replies;
      NothingFinished(was, told, polls);
      while true
        invariant Valid() && |was| <= told && totalDelay == 50 * k && k < Delays(timeout)
        invariant replies == Finished(was, told, Heard(polls, k))
        decreases Delays(timeout) - k
      {
        var done := AsqDone();
        if done {
          Shape();
          NoMoreToFinish(was, told, polls, k, Delays(timeout));
          return;
        }
        if k < |polls| {
          Firmware(polls[k]);
        }
        OneMoreBatch(was, told, polls, k);
        k := k + 1;
        totalDelay := totalDelay + 50;
        if totalDelay >= timeout {
          return;
        }
      }
    }

    /** The details of the command go to the next slot before anything is checked. */
    method WriteDetails(t: Details)
      requires Valid()
      modifies details
      ensures Valid() && details[At(|posted|, count)] == t
    {
      DetailsInRing(ring[..], details[..], posted, replies, cleaned, count, t);
      details[nextToUse] := t;
    }

    /** The descriptor of the newest command, once the firmware has finished it. */
    method ReadBack(slot: nat) returns (d: Desc)
      requires Valid() && |replies| == |posted| > cleaned && slot == At(|posted| - 1, count)
      ensures d == replies[|replies| - 1]
    {
      d := ring[slot];
    }

    /** The part of the call after the ring has room: post, wait if the command is synchronous, collect. */
    method PostAndCollect(d: Desc, t: Details, hasBuff: bool, buffSize: nat, polls: seq<seq<Desc>>, timeout: nat,
        critical: bool)
      returns (status: Status, d': Desc)
      requires Valid() && |posted| + 1 < cleaned + count && details[nextToUse] == t
      modifies ring, this`nextToUse, this`tail, this`posted, this`told, this`head, this`replies
      ensures Valid() && |old(replies)| <= |posted|
      ensures posted == old(posted) + [Posted(OnRing(d, hasBuff, buffSize, buffers[At(|old(posted)|, count)]), t)]
      ensures replies == if t.async || t.postpone then old(replies)
                         else Finished(old(replies), |posted|, AnswersIn(polls, timeout))
      ensures if |replies| == |posted| then
                d' == replies[|replies| - 1] && status == StatusOf(d'.retval)
              else
                d' == d && status == if t.async || t.postpone then Success
                    else if critical then CriticalError else Timeout
    {
      hide Valid, At, OnRing, StatusOf, Finished, AnswersIn;
      Shape();
      var slot := Post(d, hasBuff, buffSize);
      if !t.async && !t.postpone {
        WaitForWriteback(polls, timeout);
      }
      Shape();
      d' := d;
      var completed := AsqDone();
      status := Success;
      if completed {
        d' := ReadBack(slot);
        status := StatusOf(d'.retval);
      } else if !t.async && !t.postpone {
        status := if critical then CriticalError else Timeout;
      }
    }

    /** `i40e_asq_send_command`; `heard` of the firmware's batches come while the queue is cleaned.  A
        synchronous command whose wait brings an answer to every command not yet answered returns its own. */
    method SendCommand(d: Desc, hasBuff: bool, buffSize: nat, cmdDetails: Option<Details>,
                       cleanFw: seq<seq<Desc>>, polls: seq<seq<Desc>>, timeout: nat, critical: bool)
      returns (status: Status, d': Desc, ghost heard: nat)
      requires Valid()
      modifies ring, details, this`nextToUse, this`nextToClean, this`tail, this`head, this`callbacks,
               this`posted, this`replies, this`cleaned, this`told
      ensures Valid() && old(posted) <= posted && |old(replies)| <= old(told) && heard <= |cleanFw|
      ensures var t := if cmdDetails.Some? then cmdDetails.value else EMPTY_DETAILS;
              var d1 := WithDetails(d, t);
              var ready := Finished(old(replies), old(told), Heard(cleanFw, heard));
              if buffSize > bufSize then
                status == InvalidSize && posted == old(posted) && replies == old(replies) && d' == d1
                && cleaned == old(cleaned)
              else if t.postpone && !t.async then
                status == BadParam && posted == old(posted) && replies == old(replies) && d' == d1
                && cleaned == old(cleaned)
              else if status == QueueFull then
                && posted == old(posted) && replies == ready && d' == d1
                && cleaned == |replies| && |posted| - cleaned == count - 1
              else
                && posted == old(posted) + [Posted(OnRing(d1, hasBuff, buffSize, buffers[At(|old(posted)|, count)]), t)]
                && cleaned == |ready| <= |posted|
                && replies == (if t.async then ready else Finished(ready, |posted|, AnswersIn(polls, timeout)))
                && if |replies| == |posted| then d' == replies[|replies| - 1] && status == StatusOf(d'.retval)
                   else d' == d1 && status == if t.async then Success else if critical then CriticalError else Timeout
      ensures |posted| > |old(posted)| && (cmdDetails.Some? ==> !cmdDetails.value.async)
              && |posted| <= |old(replies)| + |AnswersIn(polls, timeout)| ==>
                |replies| == |posted| && d' == replies[|replies| - 1] && status == StatusOf(d'.retval)
    {
      hide Valid, At, WithDetails, OnRing, AnswersIn, Heard, StatusOf, Finished;
      Shape();
      var t := if cmdDetails.Some? then cmdDetails.value else EMPTY_DETAILS;
      d', heard := WithDetails(d, t), 0;
      WriteDetails(t);
      if buffSize > bufSize {
        return InvalidSize, d', 0;
      }
      if t.postpone && !t.async {
        return BadParam, d', 0;
      }
      Shape();
      var unused;
      unused, heard := CleanAsq(cleanFw);
      Shape();
      if unused == 0 {
        return QueueFull, d', heard;
      }
      status, d' := PostAndCollect(d', t, hasBuff, buffSize, polls, timeout, critical);
      Shape();
    }
  }
}
