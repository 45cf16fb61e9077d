/** When a connection can be drained: what a cooperative network can still achieve, and what no network can. */
module Drain {
  import opened Types
  import opened Book
  import opened System
  import Ack
  import Codec
  import Encoder
  import Link
  import Packet
  import Reliable
  import Sender

  /** Nothing new is sent. */
  ghost predicate Quiet(steps: seq<Step>) {
    forall i :: 0 <= i < |steps| ==> !steps[i].SendMessage?
  }

  /** A run without new messages; `packed` when its transmissions are sets the buffer may pack. */
  ghost predicate Leads(mtu: nat, packed: bool, s: State, steps: seq<Step>, s': State) {
    IsRun(mtu, s, steps) && Quiet(steps) && (packed ==> Packed(mtu, s, steps)) && Final(mtu, s, steps) == s'
  }

  ghost predicate Reaches(mtu: nat, packed: bool, s: State, s': State) {
    exists steps :: Leads(mtu, packed, s, steps, s')
  }

  ghost predicate Drainable(mtu: nat, packed: bool, s: State) {
    exists s' :: Reaches(mtu, packed, s, s') && Drained(s')
  }

  lemma Stays(mtu: nat, packed: bool, s: State)
    ensures Reaches(mtu, packed, s, s)
  {
    assert Leads(mtu, packed, s, [], s);
  }

  lemma Then(mtu: nat, packed: bool, a: State, b: State, c: State)
    requires Reaches(mtu, packed, a, b) && Reaches(mtu, packed, b, c)
    ensures Reaches(mtu, packed, a, c)
  {
    hide IsRun;
    hide Final;
    hide Packed;
    var one :| Leads(mtu, packed, a, one, b);
    var two :| Leads(mtu, packed, b, two, c);
    RunAppend(mtu, a, one, two);
    assert Leads(mtu, packed, a, one + two, c);
  }

  lemma Takes(mtu: nat, packed: bool, s: State, step: Step)
    requires Enabled(mtu, s, step) && !step.SendMessage? && (packed ==> PackedStep(mtu, s, step))
    ensures Reaches(mtu, packed, s, Next(mtu, s, step))
  {
    hide Next;
    hide PackedStep;
    hide Packed;
    System.OneStep(mtu, s, step);
    assert Leads(mtu, packed, s, [step], Next(mtu, s, step));
  }

  /** All frames of the recorded sets have bodies. */
  ghost predicate Bodied(recorded: map<nat, seq<Frame>>) {
    forall n, f :: n in recorded && f in recorded[n] ==> f.body != []
  }

  /** What stays as it is while a connection is drained. */
  ghost predicate Same(s: State, s': State) {
    s'.book == s.book && s'.open == s.open && s'.sender.accepted == s.sender.accepted
  }

  lemma ReadableSet(s: State, n: nat)
    requires Inv(s) && n in s.sender.recorded && forall f :: f in s.sender.recorded[n] ==> f.body != []
    ensures n < U24_LIMIT - 1 && s.sender.recorded[n] != [] && OnWire(s, n, s.sender.recorded[n])
    ensures Packet.Read(Packet.Write(Packet.Frames(Codec.FrameSet(n, s.sender.recorded[n]))))
            == Ok(Packet.Frames(Codec.FrameSet(n, s.sender.recorded[n])))
  {
    hide Agrees;
    hide Sender.Conserved;
    hide Link.Sound;
    hide ArrivedSound;
    hide ReportsSound;
    hide Packet.Write;
    hide Packet.Read;
    hide InBook;
    hide IsFrame;
    var frames := s.sender.recorded[n];
    assert n in s.sender.sent && s.sender.sent[n] == frames;
    forall f | f in frames
      ensures Codec.WellFormed(f)
    {
      assert f in s.sender.accepted && Sendable(f);
    }
    Packet.RoundTrip(Packet.Frames(Codec.FrameSet(n, frames)));
  }

  /** These records are what the peer makes of the numbers it still has to acknowledge, smallest first. */
  ghost predicate Genuine(mtu: nat, acks: multiset<nat>, records: seq<Ack.Record>) {
    exists nums: seq<nat>, consumed: nat :: Link.Ascending(nums) && multiset(nums) == acks
        && Ack.Compressed(nums, mtu, records, consumed)
  }

  /** The network delivers, the peer reports as it does, and the sender takes the reports in. */
  ghost predicate Answering(mtu: nat, s: State, step: Step) {
    match step
    case Receive(_) => true
    case ReportAcks(records) => Genuine(mtu, s.route.acks, records)
    case Hear(_) => true
    case Confirm(_) => true
    case _ => false
  }

  ghost predicate Answers(mtu: nat, s: State, steps: seq<Step>, s': State)
    decreases |steps|
  {
    if steps == [] then s == s'
    else
      && Enabled(mtu, s, steps[0]) && Answering(mtu, s, steps[0])
      && Answers(mtu, Next(mtu, s, steps[0]), steps[1..], s')
  }

  ghost predicate Settles(mtu: nat, s: State, s': State) {
    exists steps :: Answers(mtu, s, steps, s')
  }

  /** The sender need not transmit anything any more: the network and the peer alone can drain it. */
  ghost predicate Finishes(mtu: nat, s: State) {
    exists s' :: Settles(mtu, s, s') && Drained(s')
  }

  lemma {:induction false} AnswersAppend(mtu: nat, a: State, one: seq<Step>, b: State, two: seq<Step>, c: State)
    requires Answers(mtu, a, one, b) && Answers(mtu, b, two, c)
    ensures Answers(mtu, a, one + two, c)
    decreases |one|
  {
    hide Next;
    hide Answering;
    hide Encoder.CanSend;
    hide Splits;
    hide Entry;
    hide Ack.Expand;
    hide Ack.WireSize;
    if one == [] {
      assert one + two == two;
    } else {
      AnswersAppend(mtu, Next(mtu, a, one[0]), one[1..], b, two, c);
      assert (one + two)[1..] == one[1..] + two;
    }
  }

  lemma SettlesThen(mtu: nat, a: State, b: State, c: State)
    requires Settles(mtu, a, b) && Settles(mtu, b, c)
    ensures Settles(mtu, a, c)
  {
    hide Answers;
    var one :| Answers(mtu, a, one, b);
    var two :| Answers(mtu, b, two, c);
    AnswersAppend(mtu, a, one, b, two, c);
  }

  lemma SettlesBy(mtu: nat, s: State, step: Step)
    requires Enabled(mtu, s, step) && Answering(mtu, s, step)
    ensures Settles(mtu, s, Next(mtu, s, step))
  {
    hide Next;
    hide Answering;
    assert [step][1..] == [];
    assert Answers(mtu, s, [step], Next(mtu, s, step));
  }

  lemma SettlesStay(mtu: nat, s: State)
    ensures Settles(mtu, s, s)
  {
    assert Answers(mtu, s, [], s);
  }

  /** Answers are steps of the system without new messages or transmissions. */
  lemma {:induction false} AnswersReach(mtu: nat, packed: bool, s: State, steps: seq<Step>, s': State)
    requires Answers(mtu, s, steps, s')
    ensures Leads(mtu, packed, s, steps, s')
    decreases |steps|
  {
    if steps != [] {
      AnsweringIsQuiet(mtu, s, steps[0]);
      hide Next;
      hide Enabled;
      hide Answering;
      hide PackedStep;
      AnswersReach(mtu, packed, Next(mtu, s, steps[0]), steps[1..], s');
    }
  }

  lemma AnsweringIsQuiet(mtu: nat, s: State, step: Step)
    requires Answering(mtu, s, step)
    ensures !step.SendMessage? && PackedStep(mtu, s, step)
  {
  }

  lemma SettlesReach(mtu: nat, packed: bool, s: State, s': State)
    requires Settles(mtu, s, s')
    ensures Reaches(mtu, packed, s, s')
  {
    hide Leads;
    hide Answers;
    var steps :| Answers(mtu, s, steps, s');
    AnswersReach(mtu, packed, s, steps, s');
  }

  /** Numbers in ascending order. */
  lemma {:induction false} Sorted(acks: multiset<nat>) returns (nums: seq<U24>)
    requires forall n :: n in acks ==> n < U24_LIMIT - 1
    ensures Link.Ascending(nums) && multiset(nums) == acks
    decreases |acks|
  {
    if acks == multiset{} {
      return [];
    }
    var n :| n in acks;
    var rest := acks - multiset{n};
    assert acks == rest + multiset{n};
    nums := Sorted(rest);
    Link.InsertContents(nums, n);
    Link.InsertAscending(nums, n);
    nums := Link.Insert(nums, n);
  }

  lemma PendingNumbers(s: State)
    requires Inv(s)
    ensures forall n :: n in s.route.acks ==> n < U24_LIMIT - 1
  {
    hide Agrees;
    hide Sender.Conserved;
    hide Sender.Traced;
    hide WireSound;
    hide ReportsSound;
    hide InBook;
    hide IsFrame;
    hide Sendable;
    forall n | n in s.route.acks
      ensures n < U24_LIMIT - 1
    {
      assert n in s.route.arrivals;
      assert n in s.sender.sent;
    }
  }

  /** What stays as it is while the peer answers. */
  ghost predicate Settling(s: State, s': State) {
    s'.book == s.book && s'.open == s.open && s'.sender == s.sender
  }

  /** The peer reports until it owes nothing; what the sender makes of the reports does not matter. */
  lemma {:induction false} ReportAll(mtu: nat, s: State) returns (s': State)
    requires Inv(s) && 7 <= mtu <= MAX_MTU
    ensures Settles(mtu, s, s') && Inv(s') && Settling(s, s') && s'.route.acks == multiset{}
    decreases |s.route.acks|
  {
    hide Inv;
    hide Settles;
    if s.route.acks == multiset{} {
      SettlesStay(mtu, s);
      return s;
    }
    PendingNumbers(s);
    var nums := Sorted(s.route.acks);
    assert nums != [] && forall n :: n in nums ==> n in multiset(nums);
    var records, consumed := Ack.CompressSome(nums, mtu);
    var step := ReportAcks(records);
    ReportStep(mtu, s, nums, records, consumed);
    SettlesBy(mtu, s, step);
    StepInv(mtu, s, step);
    var mid := Next(mtu, s, step);
    s' := ReportAll(mtu, mid);
    SettlesThen(mtu, s, mid, s');
  }

  lemma ReportStep(mtu: nat, s: State, nums: seq<U24>, records: seq<Ack.Record>, consumed: nat)
    requires Link.Ascending(nums) && multiset(nums) == s.route.acks && Ack.Compressed(nums, mtu, records, consumed)
    ensures Enabled(mtu, s, ReportAcks(records)) && Answering(mtu, s, ReportAcks(records))
    ensures var s' := Next(mtu, s, ReportAcks(records)); Settling(s, s') && |s'.route.acks| < |s.route.acks|
  {
    hide Packet.Write;
    hide Ack.Canonical;
    hide Ack.Expand;
    hide Ack.WireSize;
    assert nums == nums[..consumed] + nums[consumed..];
    assert s.route.acks == multiset(nums[..consumed]) + multiset(nums[consumed..]);
    assert Genuine(mtu, s.route.acks, records);
  }

  /**
   * One recorded set whose frames have bodies, when the peer owes nothing: it receives the set, reports it,
   * and is heard.
   */
  lemma SettleOne(mtu: nat, s: State, n: nat) returns (s': State)
    requires Inv(s) && 7 <= mtu <= MAX_MTU && s.open && n in s.sender.recorded
             && forall f :: f in s.sender.recorded[n] ==> f.body != []
    requires s.route.acks == multiset{}
    ensures Settles(mtu, s, s') && Inv(s') && Same(s, s') && s'.route.acks == multiset{}
    ensures s'.sender.queued == s.sender.queued && s'.sender.recorded == s.sender.recorded - {n}
            && s'.sender.next == s.sender.next
  {
    hide Inv;
    hide Packet.Write;
    hide Packet.Read;
    hide OnWire;
    hide Sender.AnyReliable;
    hide Settles;
    hide Ack.Compressed;
    ReadableSet(s, n);
    var frames := s.sender.recorded[n];
    var datagram := Packet.Write(Packet.Frames(Codec.FrameSet(n, frames)));
    assert datagram in s.wire by { WireHas(s, n, frames); }
    var s1 := Next(mtu, s, Receive(datagram));
    assert s1 == s.(route := s.route.Deliver(n), arrived := s.arrived + [frames]);
    SettlesBy(mtu, s, Receive(datagram));
    StepInv(mtu, s, Receive(datagram));
    var records := [Ack.Single(n)];
    OneRecord(mtu, n);
    assert s1.route.acks == multiset{n} == multiset([n]);
    assert Genuine(mtu, s1.route.acks, records) by {
      assert Link.Ascending([n]);
    }
    var s2 := Next(mtu, s1, ReportAcks(records));
    SettlesBy(mtu, s1, ReportAcks(records));
    StepInv(mtu, s1, ReportAcks(records));
    SettlesThen(mtu, s, s1, s2);
    var report := Packet.Write(Packet.Acks(records));
    var s3 := Next(mtu, s2, Hear(report));
    SettlesBy(mtu, s2, Hear(report));
    StepInv(mtu, s2, Hear(report));
    SettlesThen(mtu, s, s2, s3);
    assert n in s3.heard;
    s' := Next(mtu, s3, Confirm(n));
    SettlesBy(mtu, s3, Confirm(n));
    StepInv(mtu, s3, Confirm(n));
    SettlesThen(mtu, s, s3, s');
  }

  lemma WireHas(s: State, n: nat, frames: seq<Frame>)
    requires OnWire(s, n, frames)
    ensures n < U24_LIMIT && frames != [] && Packet.Write(Packet.Frames(Codec.FrameSet(n, frames))) in s.wire
  {
  }

  lemma OneRecord(mtu: nat, n: U24)
    requires mtu >= 7
    ensures Ack.Expand([Ack.Single(n)]) == [n] && 3 + Ack.WireSize([Ack.Single(n)]) == 7
    ensures Ack.Compressed([n], mtu, [Ack.Single(n)], 1)
    ensures Packet.Read(Packet.Write(Packet.Acks([Ack.Single(n)]))) == Ok(Packet.Acks([Ack.Single(n)]))
  {
    var records := [Ack.Single(n)];
    assert records[..0] == [] && records[1..] == [];
    assert Ack.Expand(records) == [n];
    assert Ack.Total(records) == 1;
    assert [n][..1] == [n];
    hide Packet.Write;
    hide Packet.Read;
    Packet.RoundTrip(Packet.Acks(records));
  }

  /** With nothing queued and bodies in every recorded set, the network and the peer alone can finish. */
  lemma {:induction false} SettleAll(mtu: nat, s: State) returns (s': State)
    requires Inv(s) && 7 <= mtu <= MAX_MTU && s.open && s.sender.queued == multiset{} && Bodied(s.sender.recorded)
    requires s.route.acks == multiset{}
    ensures Settles(mtu, s, s') && Drained(s')
    decreases |s.sender.recorded|
  {
    hide Inv;
    hide Settles;
    if s.sender.recorded == map[] {
      SettlesStay(mtu, s);
      return s;
    }
    var n :| n in s.sender.recorded;
    var mid := SettleOne(mtu, s, n);
    Fewer(s.sender.recorded, n);
    s' := SettleAll(mtu, mid);
    SettlesThen(mtu, s, mid, s');
  }

  lemma Settle(mtu: nat, s: State) returns (s': State)
    requires Inv(s) && 7 <= mtu <= MAX_MTU && s.open && s.sender.queued == multiset{} && Bodied(s.sender.recorded)
    ensures Settles(mtu, s, s') && Drained(s') && Reaches(mtu, true, s, s')
  {
    hide Inv;
    hide Settles;
    hide Reaches;
    var mid := ReportAll(mtu, s);
    s' := SettleAll(mtu, mid);
    SettlesThen(mtu, s, mid, s');
    SettlesReach(mtu, true, s, s');
  }

  /** A recorded set with a frame without a body is never confirmed. */
  lemma {:induction false} BodilessStays(mtu: nat, s: State, steps: seq<Step>, s': State, n: nat)
    requires Inv(s) && mtu <= MAX_MTU && Answers(mtu, s, steps, s') && n in s.sender.recorded
             && exists f :: f in s.sender.recorded[n] && f.body == []
    ensures n in s'.sender.recorded
    decreases |steps|
  {
    if steps != [] {
      AnswerKeeps(mtu, s, steps[0], n);
      hide Answering;
      hide Inv;
      StepInv(mtu, s, steps[0]);
      hide Next;
      hide Enabled;
      BodilessStays(mtu, Next(mtu, s, steps[0]), steps[1..], s', n);
    }
  }

  lemma AnswerKeeps(mtu: nat, s: State, step: Step, n: nat)
    requires Inv(s) && Enabled(mtu, s, step) && Answering(mtu, s, step)
    requires n in s.sender.recorded && exists f :: f in s.sender.recorded[n] && f.body == []
    ensures var s' := Next(mtu, s, step); n in s'.sender.recorded && s'.sender.recorded[n] == s.sender.recorded[n]
  {
    hide Inv;
    hide Packet.Write;
    hide Packet.Read;
    hide Genuine;
    if step == Confirm(n) {
      HeardHaveBodies(s, n);
      assert false;
    }
  }

  /**
   * Whatever was transmitted, and however it was packed: once nothing is queued, the network delivering,
   * the peer reporting as it does and the sender taking the reports in can drain the sender without any
   * further transmission if and only if every frame kept for resending has a body.
   */
  lemma FlushedFinishesIff(mtu: nat, channels: nat, trace: seq<Step>)
    requires IsRun(mtu, Initial(channels), trace) && 7 <= mtu <= MAX_MTU
    requires var s := Final(mtu, Initial(channels), trace); s.open && s.sender.queued == multiset{}
    ensures var s := Final(mtu, Initial(channels), trace); Finishes(mtu, s) <==> Bodied(s.sender.recorded)
  {
    hide IsRun;
    hide Final;
    hide Inv;
    hide Answers;
    var s := Final(mtu, Initial(channels), trace);
    InitialInv(channels);
    RunInv(mtu, Initial(channels), trace);
    if Bodied(s.sender.recorded) {
      var s' := Settle(mtu, s);
    }
    if Finishes(mtu, s) {
      var s' :| Settles(mtu, s, s') && Drained(s');
      var steps :| Answers(mtu, s, steps, s');
      forall n, f | n in s.sender.recorded && f in s.sender.recorded[n]
        ensures f.body != []
      {
        if f.body == [] {
          BodilessStays(mtu, s, steps, s', n);
        }
      }
    }
  }

  /** Messages with data leave nothing without a body behind. */
  lemma DataFinishes(mtu: nat, channels: nat, trace: seq<Step>)
    requires IsRun(mtu, Initial(channels), trace) && 7 <= mtu <= MAX_MTU
    requires var s := Final(mtu, Initial(channels), trace); s.open && s.sender.queued == multiset{} && AllData(s.book)
    ensures Finishes(mtu, Final(mtu, Initial(channels), trace))
  {
    hide IsRun;
    hide Final;
    hide Inv;
    hide Finishes;
    var s := Final(mtu, Initial(channels), trace);
    InitialInv(channels);
    RunInv(mtu, Initial(channels), trace);
    HeldFrames(s);
    forall f | f in s.sender.accepted
      ensures f.body != []
    {
      DataMeansBodies(s, f);
    }
    FlushedFinishesIff(mtu, channels, trace);
  }

  lemma Fewer<V>(m: map<nat, V>, n: nat)
    requires n in m
    ensures |m - {n}| < |m|
  {
    assert (m - {n}).Keys == m.Keys - {n};
    assert |(m - {n}).Keys| == |m - {n}| && |m.Keys| == |m|;
  }

  /** Some set within the limits of the buffer's packing off a non-empty queue, or a single frame. */
  lemma Choose(mtu: nat, packed: bool, queued: multiset<Frame>) returns (frames: seq<Frame>)
    requires queued != multiset{} && Reliable.AllFit(mtu, queued)
    ensures frames != [] && multiset(frames) <= queued
    ensures if packed then Reliable.Packs(mtu, queued, frames) else |frames| == 1
  {
    if packed && Reliable.OneSet(mtu, queued) {
      frames :| multiset(frames) == queued && Codec.SizeOf(frames) + FRAME_SET_HEADER_SIZE <= mtu;
      assert frames == [] ==> multiset(frames) == multiset{};
    } else {
      hide Reliable.OneSet;
      var f :| f in queued;
      frames := [f];
      assert Reliable.Fits(mtu, f) && [f][1..] == [];
      assert Codec.SizeOf(frames) == f.Size();
    }
  }

  /** What has to be sent along with bodies: every frame of a packed set, or reliable frames sent by themselves. */
  ghost predicate Sound(packed: bool, queued: multiset<Frame>) {
    forall f :: f in queued && (packed || f.IsReliable()) ==> f.body != []
  }

  lemma TransmitBodied(packed: bool, v: Sender.View, frames: seq<Frame>)
    requires multiset(frames) <= v.queued && Sound(packed, v.queued) && Bodied(v.recorded)
             && (!packed ==> |frames| == 1)
    ensures var v' := v.Transmit(frames);
            Bodied(v'.recorded) && Sound(packed, v'.queued) && |v'.queued| == |v.queued| - |frames|
  {
    var v' := v.Transmit(frames);
    assert v.queued == v'.queued + multiset(frames);
    forall f | f in frames && Sender.AnyReliable(frames)
      ensures f.body != []
    {
      assert f in multiset(frames);
      assert !packed ==> frames == [f];
    }
  }

  /** Transmit until nothing is queued. */
  lemma {:induction false} Flush(mtu: nat, packed: bool, s: State) returns (s': State)
    requires Inv(s) && mtu <= MAX_MTU && Reliable.AllFit(mtu, s.sender.accepted)
             && s.sender.next + |s.sender.queued| < U24_LIMIT
    requires Sound(packed, s.sender.queued) && Bodied(s.sender.recorded)
    ensures Reaches(mtu, packed, s, s') && Inv(s') && Same(s, s') && s'.sender.queued == multiset{}
            && Bodied(s'.sender.recorded)
    decreases |s.sender.queued|
  {
    hide Inv;
    hide Reaches;
    hide Bodied;
    hide Sound;
    hide Reliable.Packs;
    hide Packet.Write;
    hide Sender.AnyReliable;
    if s.sender.queued == multiset{} {
      Stays(mtu, packed, s);
      return s;
    }
    QueueFits(mtu, s);
    var frames := Choose(mtu, packed, s.sender.queued);
    TransmitBodied(packed, s.sender, frames);
    var step := Transmit(frames);
    assert PackedStep(mtu, s, step) || !packed;
    var mid := Next(mtu, s, step);
    Takes(mtu, packed, s, step);
    StepInv(mtu, s, step);
    s' := Flush(mtu, packed, mid);
    Then(mtu, packed, s, mid, s');
  }

  lemma QueueFits(mtu: nat, s: State)
    requires Inv(s) && Reliable.AllFit(mtu, s.sender.accepted)
    ensures Reliable.AllFit(mtu, s.sender.queued) && |s.sender.queued| <= |s.sender.accepted|
  {
    hide Agrees;
    hide Sender.Traced;
    hide Link.Sound;
    hide FromBook;
    hide WireSound;
    hide ArrivedSound;
    hide ReportsSound;
    var v := s.sender;
    assert v.accepted == v.queued + (Sender.Recorded(v.recorded, v.next) + v.acked + v.fired);
  }

  /** Give up on every recorded set with a number below `n`. */
  lemma {:induction false} RequeueAll(mtu: nat, s: State, n: nat) returns (s': State)
    requires Inv(s) && mtu <= MAX_MTU
    ensures Reaches(mtu, false, s, s') && Inv(s') && Same(s, s') && s'.sender.next == s.sender.next
    ensures Sender.Held(s'.sender) <= Sender.Held(s.sender)
    ensures forall k :: k in s'.sender.recorded ==> k in s.sender.recorded && k >= n
  {
    hide Inv;
    hide Reaches;
    hide Packed;
    if n == 0 {
      Stays(mtu, false, s);
      return s;
    }
    var mid := RequeueAll(mtu, s, n - 1);
    s' := Next(mtu, mid, Requeue(n - 1));
    Takes(mtu, false, mid, Requeue(n - 1));
    StepInv(mtu, mid, Requeue(n - 1));
    RequeueHeld(mid, n - 1);
    Then(mtu, false, s, mid, s');
  }

  lemma RequeueHeld(s: State, n: nat)
    requires Inv(s)
    ensures Sender.Held(s.sender.Requeue(n)) <= Sender.Held(s.sender)
  {
    hide Sender.Held;
    hide Sender.Conserved;
    hide Sender.Traced;
    Sender.StepHeld(s.sender, Sender.Requeueing(n));
  }

  /** Accepted frames fit a set by themselves, along every run. */
  lemma {:induction false} RunFits(mtu: nat, s: State, steps: seq<Step>)
    requires IsRun(mtu, s, steps) && mtu <= MAX_MTU && Reliable.AllFit(mtu, s.sender.accepted)
    ensures Reliable.AllFit(mtu, Final(mtu, s, steps).sender.accepted)
    decreases |steps|
  {
    hide Reliable.AllFit;
    hide Next;
    if steps != [] {
      StepFits(mtu, s, steps[0]);
      RunFits(mtu, Next(mtu, s, steps[0]), steps[1..]);
    }
  }

  lemma StepFits(mtu: nat, s: State, step: Step)
    requires Enabled(mtu, s, step) && mtu <= MAX_MTU && Reliable.AllFit(mtu, s.sender.accepted)
    ensures Reliable.AllFit(mtu, Next(mtu, s, step).sender.accepted)
  {
    hide Packet.Write;
    hide Sender.AnyReliable;
    if step.SendMessage? {
      hide Encoder.CanSend;
      hide Encoder.Frames;
      var frames := Encoder.Frames(mtu, s.counters, step.msg);
      AcceptAll(s.sender, frames);
      Encoder.FramesFit(mtu, s.counters, step.msg);
      EncodedSendable(mtu, s.counters, step.msg);
      forall f | f in multiset(frames)
        ensures Reliable.Fits(mtu, f)
      {
        assert f in frames;
      }
    }
  }

  /** Frames of messages with data have bodies. */
  lemma DataMeansBodies(s: State, f: Frame)
    requires Inv(s) && f in s.sender.accepted
    ensures AllData(s.book) ==> f.body != []
    ensures f.IsReliable() && ReliableData(s.book) ==> f.body != []
  {
    hide Agrees;
    hide Sender.Conserved;
    hide Sender.Traced;
    hide Link.Sound;
    hide WireSound;
    hide ArrivedSound;
    hide ReportsSound;
    assert InBook(s.book, f);
    var m: nat, j: nat :| IsFrame(s.book, f, m, j);
    assert s.book[m].Filled() && f.body == s.book[m].pieces[j];
  }

  ghost predicate AllData(book: seq<Sent>) {
    forall m :: 0 <= m < |book| ==> book[m].msg.data != []
  }

  ghost predicate ReliableData(book: seq<Sent>) {
    forall m :: 0 <= m < |book| && book[m].reliability.IsReliable() ==> book[m].msg.data != []
  }

  lemma ReachableFacts(mtu: nat, channels: nat, trace: seq<Step>)
    requires IsRun(mtu, Initial(channels), trace) && mtu <= MAX_MTU
    ensures var s := Final(mtu, Initial(channels), trace);
            Inv(s) && Reliable.AllFit(mtu, s.sender.accepted) && Reliable.AllFit(mtu, s.sender.queued)
            && |s.sender.queued| <= |s.sender.accepted|
  {
    hide IsRun;
    hide Final;
    hide Inv;
    InitialInv(channels);
    RunInv(mtu, Initial(channels), trace);
    RunFits(mtu, Initial(channels), trace);
    QueueFits(mtu, Final(mtu, Initial(channels), trace));
  }

  /**
   * When every message accepted so far has data, whatever its reliability, a close can complete: from
   * every reachable open state with numbers to spare, transmissions within the MTU, of all that waits
   * whenever that fits one set, and a network that delivers them drain the sender.
   */
  lemma DataDrains(mtu: nat, channels: nat, trace: seq<Step>)
    requires IsRun(mtu, Initial(channels), trace) && 7 <= mtu <= MAX_MTU
    requires var s := Final(mtu, Initial(channels), trace);
             s.open && AllData(s.book) && s.sender.next + |s.sender.queued| < U24_LIMIT
    ensures Drainable(mtu, true, Final(mtu, Initial(channels), trace))
  {
    hide IsRun;
    hide Final;
    hide Inv;
    hide Reaches;
    var s := Final(mtu, Initial(channels), trace);
    ReachableFacts(mtu, channels, trace);
    HeldFrames(s);
    forall f | f in s.sender.accepted
      ensures f.body != []
    {
      DataMeansBodies(s, f);
    }
    var mid := Flush(mtu, true, s);
    var end := Settle(mtu, mid);
    Then(mtu, true, s, mid, end);
  }

  /** What waits or is recorded was accepted. */
  lemma HeldFrames(s: State)
    requires Inv(s)
    ensures forall f :: f in s.sender.queued ==> f in s.sender.accepted
    ensures forall n, f :: n in s.sender.recorded && f in s.sender.recorded[n] ==> f in s.sender.accepted
  {
    hide Agrees;
    hide Link.Sound;
    hide WireSound;
    hide ArrivedSound;
    hide ReportsSound;
    hide InBook;
    hide IsFrame;
    hide Sendable;
    forall n, f | n in s.sender.recorded && f in s.sender.recorded[n]
      ensures f in s.sender.accepted
    {
      assert s.sender.sent[n] == s.sender.recorded[n];
    }
  }

  lemma {:induction false} QuietKeepsBook(mtu: nat, s: State, steps: seq<Step>)
    requires IsRun(mtu, s, steps) && Quiet(steps)
    ensures Final(mtu, s, steps).book == s.book
    decreases |steps|
  {
    if steps != [] {
      hide Packet.Write;
      hide Packet.Read;
      QuietKeepsBook(mtu, Next(mtu, s, steps[0]), steps[1..]);
    }
  }

  /**
   * If sets could be packed at will, the condition would be exact: from every reachable open state with
   * numbers to spare, some run without new messages drains the sender if and only if every reliable
   * message has data.
   */
  lemma DrainsIff(mtu: nat, channels: nat, trace: seq<Step>)
    requires IsRun(mtu, Initial(channels), trace) && 7 <= mtu <= MAX_MTU
    requires var s := Final(mtu, Initial(channels), trace);
             s.open && s.sender.next + Sender.Held(s.sender) < U24_LIMIT
    ensures var s := Final(mtu, Initial(channels), trace);
            Drainable(mtu, false, s) <==> ReliableData(s.book)
  {
    hide IsRun;
    hide Final;
    hide Inv;
    hide Reaches;
    var s := Final(mtu, Initial(channels), trace);
    if Drainable(mtu, false, s) {
      DrainableNeeds(mtu, channels, trace);
    }
    if ReliableData(s.book) {
      ReachableFacts(mtu, channels, trace);
      var again := RequeueAll(mtu, s, s.sender.next);
      NoneAbove(s);
      QueueFits(mtu, again);
      HeldFrames(again);
      forall f | f in again.sender.queued && f.IsReliable()
        ensures f.body != []
      {
        DataMeansBodies(again, f);
      }
      var mid := Flush(mtu, false, again);
      var end := Settle(mtu, mid);
      Freely(mtu, mid, end);
      Then(mtu, false, s, again, mid);
      Then(mtu, false, s, mid, end);
    }
  }

  lemma NoneAbove(s: State)
    requires Inv(s)
    ensures forall k :: k in s.sender.recorded ==> k < s.sender.next
  {
    hide Agrees;
    hide Sender.Conserved;
    hide Link.Sound;
    hide WireSound;
    hide ArrivedSound;
    hide ReportsSound;
    hide FromBook;
  }

  lemma Freely(mtu: nat, s: State, s': State)
    requires Reaches(mtu, true, s, s')
    ensures Reaches(mtu, false, s, s')
  {
    var steps :| Leads(mtu, true, s, steps, s');
    assert Leads(mtu, false, s, steps, s');
  }

  lemma DrainableNeeds(mtu: nat, channels: nat, trace: seq<Step>)
    requires IsRun(mtu, Initial(channels), trace) && mtu <= MAX_MTU
             && Drainable(mtu, false, Final(mtu, Initial(channels), trace))
    ensures ReliableData(Final(mtu, Initial(channels), trace).book)
  {
    hide IsRun;
    hide Final;
    hide Packed;
    var s := Final(mtu, Initial(channels), trace);
    var end :| Reaches(mtu, false, s, end) && Drained(end);
    var steps :| Leads(mtu, false, s, steps, end);
    RunAppend(mtu, Initial(channels), trace, steps);
    CloseMeansReceived(mtu, channels, trace + steps);
    QuietKeepsBook(mtu, s, steps);
  }

  /**
   * The frames `q` stay together, on their way out or kept for resending, and every set sent since
   * `from` holds just them.
   */
  ghost predicate Together(q: multiset<Frame>, from: State, s: State) {
    && ((s.sender.queued == q && s.sender.recorded == map[])
        || (s.sender.queued == multiset{}
            && exists n :: s.sender.recorded.Keys == {n} && multiset(s.sender.recorded[n]) == q))
    && (forall n :: n in s.sender.sent ==> n in from.sender.sent || multiset(s.sender.sent[n]) == q)
    && (from.sender.sent == map[] ==> s.arrived == from.arrived)
  }

  /** A reliable frame and a frame without a body that go out in one set. */
  ghost predicate Poisoned(mtu: nat, q: multiset<Frame>) {
    Reliable.OneSet(mtu, q) && (exists f :: f in q && f.IsReliable()) && (exists f :: f in q && f.body == [])
  }

  lemma HoldsAll(q: multiset<Frame>, frames: seq<Frame>)
    requires multiset(frames) == q
    ensures (exists f :: f in q && f.IsReliable()) ==> Sender.AnyReliable(frames)
    ensures (exists f :: f in q && f.body == []) ==> exists f :: f in frames && f.body == []
  {
    if f :| f in q && f.IsReliable() {
      assert f in multiset(frames);
      var i :| 0 <= i < |frames| && frames[i] == f;
    }
    if f :| f in q && f.body == [] {
      assert f in multiset(frames);
    }
  }

  lemma TransmitTogether(mtu: nat, q: multiset<Frame>, from: State, s: State, frames: seq<Frame>)
    requires Together(q, from, s) && Poisoned(mtu, q) && Enabled(mtu, s, Transmit(frames))
             && PackedStep(mtu, s, Transmit(frames))
    ensures Together(q, from, Next(mtu, s, Transmit(frames)))
  {
    hide Packet.Write;
    hide Sender.AnyReliable;
    hide Reliable.OneSet;
    assert s.sender.queued != multiset{} by {
      assert frames[0] in multiset(frames);
    }
    assert s.sender.queued == q && multiset(frames) == q;
    HoldsAll(q, frames);
    var s' := Next(mtu, s, Transmit(frames));
    assert s'.sender.recorded.Keys == {s.sender.next} && multiset(s'.sender.recorded[s.sender.next]) == q;
  }

  lemma ConfirmTogether(mtu: nat, q: multiset<Frame>, from: State, s: State, n: nat)
    requires Inv(s) && Together(q, from, s) && Poisoned(mtu, q) && Enabled(mtu, s, Confirm(n))
    ensures Together(q, from, Next(mtu, s, Confirm(n)))
  {
    hide Inv;
    hide Reliable.OneSet;
    if n in s.sender.recorded {
      HoldsAll(q, s.sender.recorded[n]);
      HeardHaveBodies(s, n);
      assert false;
    }
  }

  lemma HeardHaveBodies(s: State, n: nat)
    requires Inv(s) && n in s.heard && n in s.sender.recorded
    ensures forall f :: f in s.sender.recorded[n] ==> f.body != []
  {
    hide Agrees;
    hide Sender.Conserved;
    hide Link.Sound;
    hide WireSound;
    hide FromBook;
    assert n in s.route.arrivals && s.sender.sent[n] == s.sender.recorded[n];
    var i :| 0 <= i < |s.arrived| && s.arrived[i] == s.sender.sent[n];
    forall f | f in s.sender.recorded[n]
      ensures f.body != []
    {
      assert Codec.WellFormed(f);
    }
  }

  lemma RequeueTogether(mtu: nat, q: multiset<Frame>, from: State, s: State, n: nat)
    requires Together(q, from, s)
    ensures Together(q, from, Next(mtu, s, Requeue(n)))
  {
    var s' := Next(mtu, s, Requeue(n));
    if n in s.sender.recorded {
      assert s.sender.recorded.Keys == {n};
      assert s'.sender.recorded.Keys == {};
      assert s'.sender.queued == multiset{} + multiset(s.sender.recorded[n]);
    }
  }

  lemma ReceiveTogether(mtu: nat, q: multiset<Frame>, from: State, s: State, datagram: Codec.Bytes)
    requires Inv(s) && Together(q, from, s) && Poisoned(mtu, q) && Enabled(mtu, s, Receive(datagram))
    ensures Together(q, from, Next(mtu, s, Receive(datagram)))
  {
    hide Agrees;
    hide Sender.Conserved;
    hide Sender.Traced;
    hide Link.Sound;
    hide ArrivedSound;
    hide ReportsSound;
    hide FromBook;
    hide Packet.Write;
    hide Packet.Read;
    hide Reliable.OneSet;
    if from.sender.sent == map[] {
      var n: nat :| Datagram(s, datagram, n);
      ReadDatagram(s, datagram, n);
      HoldsAll(q, s.sender.sent[n]);
    }
  }

  lemma SameTogether(q: multiset<Frame>, from: State, s: State, s': State)
    requires Together(q, from, s) && s'.sender == s.sender && s'.arrived == s.arrived
    ensures Together(q, from, s')
  {
  }

  lemma StepTogether(mtu: nat, q: multiset<Frame>, from: State, s: State, step: Step)
    requires Inv(s) && Together(q, from, s) && Poisoned(mtu, q) && mtu <= MAX_MTU
    requires Enabled(mtu, s, step) && !step.SendMessage? && PackedStep(mtu, s, step)
    ensures Together(q, from, Next(mtu, s, step))
  {
    hide Inv;
    hide Together;
    hide Poisoned;
    hide Packet.Write;
    hide Packet.Read;
    hide Ack.Expand;
    hide Sender.AnyReliable;
    var s' := Next(mtu, s, step);
    if s'.sender == s.sender && s'.arrived == s.arrived {
      SameTogether(q, from, s, s');
      return;
    }
    match step
    case Transmit(frames) => TransmitTogether(mtu, q, from, s, frames);
    case Receive(datagram) => ReceiveTogether(mtu, q, from, s, datagram);
    case Confirm(n) => ConfirmTogether(mtu, q, from, s, n);
    case Requeue(n) => RequeueTogether(mtu, q, from, s, n);
    case ReportAcks(_) =>
    case ReportNacks(_) =>
    case Hear(_) =>
    case DropRoute =>
  }

  lemma {:induction false} RunTogether(mtu: nat, q: multiset<Frame>, from: State, s: State, steps: seq<Step>)
    requires Inv(s) && Together(q, from, s) && Poisoned(mtu, q) && mtu <= MAX_MTU
    requires IsRun(mtu, s, steps) && Quiet(steps) && Packed(mtu, s, steps)
    ensures Together(q, from, Final(mtu, s, steps))
    decreases |steps|
  {
    hide Inv;
    hide Together;
    hide Poisoned;
    hide Next;
    hide PackedStep;
    if steps != [] {
      StepTogether(mtu, q, from, s, steps[0]);
      StepInv(mtu, s, steps[0]);
      RunTogether(mtu, q, from, Next(mtu, s, steps[0]), steps[1..]);
    }
  }

  lemma NeverDrained(mtu: nat, q: multiset<Frame>, from: State, s: State)
    requires Together(q, from, s) && Poisoned(mtu, q)
    ensures !Drained(s)
  {
    hide Reliable.OneSet;
  }

  /**
   * What the buffer packs decides. From every reachable open state with nothing recorded, numbers to
   * spare, and a queue that fits one set and holds a reliable frame: some run without new messages
   * drains the sender if and only if every queued frame, reliable or not, has a body.
   */
  lemma OneSetDrainsIff(mtu: nat, channels: nat, trace: seq<Step>)
    requires IsRun(mtu, Initial(channels), trace) && 7 <= mtu <= MAX_MTU
    requires var s := Final(mtu, Initial(channels), trace);
             && s.open && s.sender.recorded == map[] && s.sender.next + |s.sender.queued| < U24_LIMIT
             && Reliable.OneSet(mtu, s.sender.queued) && exists f :: f in s.sender.queued && f.IsReliable()
    ensures var s := Final(mtu, Initial(channels), trace);
            Drainable(mtu, true, s) <==> forall f :: f in s.sender.queued ==> f.body != []
  {
    hide IsRun;
    hide Final;
    hide Inv;
    hide Reliable.OneSet;
    hide Packed;
    var s := Final(mtu, Initial(channels), trace);
    ReachableFacts(mtu, channels, trace);
    if forall f :: f in s.sender.queued ==> f.body != [] {
      hide Reaches;
      var mid := Flush(mtu, true, s);
      var end := Settle(mtu, mid);
      Then(mtu, true, s, mid, end);
    } else if Drainable(mtu, true, s) {
      var end :| Reaches(mtu, true, s, end) && Drained(end);
      var steps :| Leads(mtu, true, s, steps, end);
      assert Poisoned(mtu, s.sender.queued);
      RunTogether(mtu, s.sender.queued, s, s, steps);
      NeverDrained(mtu, s.sender.queued, s, end);
    }
  }

  /** An unreliable message without data, and a reliable one with data. */
  const EMPTY: Message := Message(Unreliable, 0, Medium, [])
  const SMALL: Message := Message(Reliable, 0, Medium, [1])

  lemma SmallFrames(st: Encoder.Counters, msg: Message)
    requires |st.orderNext| == 1 && st.orderNext[0] == 0 && st.reliableNext == 0 && st.partedNext == 0
             && (msg == EMPTY || msg == SMALL)
    ensures Encoder.CanSend(1500, st, msg) && !Encoder.NeedsSplit(1500, msg)
            && Encoder.Effective(1500, msg) == msg.reliability
    ensures var frames := Encoder.Frames(1500, st, msg);
            |frames| == 1 && frames[0].body == msg.data && frames[0].Size() <= 10
                && frames[0].IsReliable() == msg.reliability.IsReliable()
  {
  }

  lemma SendOne(s: State, msg: Message)
    requires |s.counters.orderNext| == 1 && s.counters.orderNext[0] == 0 && s.counters.reliableNext == 0
             && s.counters.partedNext == 0
    requires (msg == EMPTY || msg == SMALL) && Splits(s.book) == 0
    ensures Enabled(1500, s, SendMessage(msg))
    ensures var s' := Next(1500, s, SendMessage(msg));
            && s'.sender == WithAccepted(s.sender, Encoder.Frames(1500, s.counters, msg)) && Splits(s'.book) == 0
            && s'.counters == s.counters.(reliableNext := if msg == SMALL then 1 else 0)
            && s'.arrived == s.arrived && s'.open == s.open && s'.book == s.book + [Entry(1500, s.counters, msg)]
  {
    hide WithAccepted;
    SmallFrames(s.counters, msg);
    SplitsGrow(s.book, Entry(1500, s.counters, msg));
    AcceptAll(s.sender, Encoder.Frames(1500, s.counters, msg));
  }

  /** The state after both were accepted: their two frames wait, and nothing was sent. */
  lemma BothWait()
    ensures var trace := [SendMessage(EMPTY), SendMessage(SMALL)];
            && IsRun(1500, Initial(1), trace)
            && var s := Final(1500, Initial(1), trace);
               && ReliableData(s.book) && Poisoned(1500, s.sender.queued)
               && s.sender.recorded == map[] && s.sender.sent == map[] && s.arrived == []
  {
    hide Packed;
    hide Final;
    hide IsRun;
    hide Next;
    hide Enabled;
    hide Encoder.Frames;
    hide Encoder.CanSend;
    hide Poisoned;
    var s0 := Initial(1);
    SmallFrames(s0.counters, EMPTY);
    SendOne(s0, EMPTY);
    var s1 := Next(1500, s0, SendMessage(EMPTY));
    SmallFrames(s1.counters, SMALL);
    SendOne(s1, SMALL);
    System.OneStep(1500, s0, SendMessage(EMPTY));
    System.OneStep(1500, s1, SendMessage(SMALL));
    RunAppend(1500, s0, [SendMessage(EMPTY)], [SendMessage(SMALL)]);
    assert [SendMessage(EMPTY)] + [SendMessage(SMALL)] == [SendMessage(EMPTY), SendMessage(SMALL)];
    QueuedPair(Encoder.Frames(1500, s0.counters, EMPTY), Encoder.Frames(1500, s1.counters, SMALL));
  }

  lemma QueuedPair(a: seq<Frame>, b: seq<Frame>)
    requires |a| == 1 && |b| == 1 && a[0].body == [] && b[0].IsReliable() && a[0].Size() <= 10 && b[0].Size() <= 10
    ensures var v := WithAccepted(WithAccepted(Sender.INITIAL, a), b);
            Poisoned(1500, v.queued) && v.recorded == map[] && v.sent == map[]
  {
    var frames := a + b;
    assert frames[1..] == b && b[1..] == [];
    assert Codec.SizeOf(frames) == a[0].Size() + b[0].Size() + Codec.SizeOf([]);
    var q := WithAccepted(WithAccepted(Sender.INITIAL, a), b).queued;
    assert q == multiset(frames);
    assert a[0] in multiset(a) && b[0] in multiset(b);
    assert Reliable.OneSet(1500, q);
  }

  /**
   * The failure at a concrete input: an unreliable message without data and a reliable one with data,
   * accepted in this order. Every reliable message has data, and yet no run without further messages
   * delivers anything or drains the sender, because the two frames always travel in one set.
   */
  lemma EmptyCompanionBlocks(steps: seq<Step>)
    ensures var trace := [SendMessage(EMPTY), SendMessage(SMALL)];
            && IsRun(1500, Initial(1), trace)
            && var s := Final(1500, Initial(1), trace);
               && ReliableData(s.book)
               && (IsRun(1500, s, steps) && Quiet(steps) && Packed(1500, s, steps) ==>
                     !Drained(Final(1500, s, steps)) && Final(1500, s, steps).arrived == [])
  {
    hide Packed;
    hide Final;
    hide IsRun;
    hide Inv;
    hide Poisoned;
    hide ReliableData;
    BothWait();
    var trace := [SendMessage(EMPTY), SendMessage(SMALL)];
    var s := Final(1500, Initial(1), trace);
    if IsRun(1500, s, steps) && Quiet(steps) && Packed(1500, s, steps) {
      InitialInv(1);
      RunInv(1500, Initial(1), trace);
      RunTogether(1500, s.sender.queued, s, s, steps);
      NeverDrained(1500, s.sender.queued, s, Final(1500, s, steps));
    }
  }
}
