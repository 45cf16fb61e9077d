/**
 * The whole connection in one direction: encoder, sender, a network that loses, repeats and reorders
 * datagrams at will, and the receiving route. A run is any sequence of enabled steps.
 */
module System {
  import opened Types
  import opened Book
  import Ack
  import Codec
  import Delivery
  import Encoder
  import Link
  import Packet
  import Reliable
  import Sender

  datatype State = State(
    counters: Encoder.Counters,
    book: seq<Sent>,
    sender: Sender.View,
    wire: set<Codec.Bytes>,   // every datagram the sender put on the network
    route: Link.View,
    arrived: seq<seq<Frame>>, // every frame set handed to the decoder, in order
    open: bool,               // the receiving connection was not dropped
    back: set<Codec.Bytes>,   // every report the receiver put on the network
    heard: set<nat>)          // numbers of the acknowledgements that reached the sender

  datatype Step =
    | SendMessage(msg: Message)
    | Transmit(frames: seq<Frame>)
    | Receive(datagram: Codec.Bytes)
    | ReportAcks(acks: seq<Ack.Record>)
    | ReportNacks(nacks: seq<Ack.Record>)
    | Hear(report: Codec.Bytes)
    | Confirm(num: nat)
    | Requeue(num: nat)
    | DropRoute

  /** Bodies must fit the 13-bit length of a frame header. */
  const MAX_MTU: nat := 8197

  function Initial(channels: nat): State {
    State(Encoder.Initial(channels), [], Sender.INITIAL, {}, Link.INITIAL, [], true, {}, {})
  }

  function Accepts(frames: seq<Frame>): (log: seq<Sender.Action>)
    ensures |log| == |frames|
  {
    seq(|frames|, i requires 0 <= i < |frames| => Sender.Accepting(frames[i]))
  }

  /**
   * What each step demands. The network only ever delivers datagrams that were sent; a set is
   * confirmed only on a number that was heard; giving up on a set is always possible, as it follows
   * both from a report and from a timeout.
   */
  ghost predicate Enabled(mtu: nat, s: State, step: Step) {
    match step
    case SendMessage(msg) =>
      && Encoder.CanSend(mtu, s.counters, msg) && !msg.reliability.IsSequenced()
      && Splits(s.book + [Entry(mtu, s.counters, msg)]) <= U16_LIMIT
    case Transmit(frames) => frames != [] && multiset(frames) <= s.sender.queued && s.sender.next < U24_LIMIT - 1
    case Receive(datagram) => datagram in s.wire && s.open
    case ReportAcks(records) => 3 + Ack.WireSize(records) <= mtu && multiset(Ack.Expand(records)) <= s.route.acks
    case ReportNacks(records) => 3 + Ack.WireSize(records) <= mtu
        && multiset(Ack.Expand(records)) <= multiset(s.route.nacks)
    case Hear(report) => report in s.back
    case Confirm(n) => n in s.heard
    case Requeue(_) => true
    case DropRoute => true
  }

  /** A datagram reaches the route as far as it can be read. */
  function Received(s: State, datagram: Codec.Bytes): State {
    match Packet.Read(datagram)
    case Ok(Frames(set_)) => s.(route := s.route.Deliver(set_.seqNum), arrived := s.arrived + [set_.frames])
    case _ => s
  }

  function Heard(s: State, report: Codec.Bytes): State {
    match Packet.Read(report)
    case Ok(Acks(records)) => s.(heard := s.heard + Link.Elements(Ack.Expand(records)))
    case _ => s
  }

  function Next(mtu: nat, s: State, step: Step): State
    requires step.SendMessage? ==> Encoder.CanSend(mtu, s.counters, step.msg)
    requires step.Transmit? ==> step.frames != [] && s.sender.next < U24_LIMIT
  {
    match step
    case SendMessage(msg) =>
      s.(counters := Encoder.After(mtu, s.counters, msg),
         book := s.book + [Entry(mtu, s.counters, msg)],
         sender := Sender.Replay(s.sender, Accepts(Encoder.Frames(mtu, s.counters, msg))))
    case Transmit(frames) =>
      s.(sender := s.sender.Transmit(frames),
         wire := s.wire + {Packet.Write(Packet.Frames(Codec.FrameSet(s.sender.next, frames)))})
    case Receive(datagram) => Received(s, datagram)
    case ReportAcks(records) =>
      s.(route := s.route.TakeAcks(Ack.Expand(records)), back := s.back + {Packet.Write(Packet.Acks(records))})
    case ReportNacks(records) =>
      s.(route := s.route.TakeNacks(Ack.Expand(records)), back := s.back + {Packet.Write(Packet.Nacks(records))})
    case Hear(report) => Heard(s, report)
    case Confirm(n) => s.(sender := s.sender.Confirm(n))
    case Requeue(n) => s.(sender := s.sender.Requeue(n))
    case DropRoute => s.(open := false)
  }

  ghost predicate IsRun(mtu: nat, s: State, steps: seq<Step>)
    decreases |steps|
  {
    steps == [] || (Enabled(mtu, s, steps[0]) && IsRun(mtu, Next(mtu, s, steps[0]), steps[1..]))
  }

  ghost function Final(mtu: nat, s: State, steps: seq<Step>): State
    requires IsRun(mtu, s, steps)
    decreases |steps|
  {
    if steps == [] then s else Final(mtu, Next(mtu, s, steps[0]), steps[1..])
  }

  // What the encoder hands down: every field announced by the flags, and a body the header can count.
  predicate Sendable(f: Frame) {
    Codec.FieldsMatch(f) && f.flags == Flags.Parse(f.flags.raw) && |f.body| < 8192
  }

  /** The sender holds exactly frames of the book, and transmits only those. */
  ghost predicate FromBook(book: seq<Sent>, accepted: multiset<Frame>, sent: map<nat, seq<Frame>>) {
    && (forall f :: f in accepted ==> InBook(book, f) && Sendable(f))
    && (forall m: nat, j: nat, f: Frame :: IsFrame(book, f, m, j) ==> f in accepted)
    && (forall m :: 0 <= m < |book| ==> book[m].Filled())
    && (forall n :: n in sent ==> sent[n] != [] && n < U24_LIMIT - 1)
    && (forall n, f :: n in sent && f in sent[n] ==> f in accepted)
  }

  /** Datagrams are transmissions, written out. */
  ghost predicate Datagram(s: State, b: Codec.Bytes, n: nat) {
    n in s.sender.sent && n < U24_LIMIT && s.sender.sent[n] != []
        && b == Packet.Write(Packet.Frames(Codec.FrameSet(n, s.sender.sent[n])))
  }

  /** The wire holds exactly the transmissions. */
  ghost predicate WireSound(s: State) {
    && (forall b :: b in s.wire ==> exists n: nat :: Datagram(s, b, n))
    && (forall n :: n in s.sender.sent ==> OnWire(s, n, s.sender.sent[n]))
  }

  ghost predicate OnWire(s: State, n: nat, frames: seq<Frame>) {
    n < U24_LIMIT && frames != [] && Packet.Write(Packet.Frames(Codec.FrameSet(n, frames))) in s.wire
  }

  /** What arrived was transmitted, and is well formed. */
  ghost predicate ArrivedSound(s: State) {
    && (forall n :: n in s.route.arrivals ==> n in s.sender.sent && s.sender.sent[n] in s.arrived)
    && (forall i, f :: 0 <= i < |s.arrived| && f in s.arrived[i] ==> f in s.sender.accepted && Codec.WellFormed(f))
  }

  /** Acknowledged numbers are numbers that arrived, all the way back to the sender. */
  ghost predicate ReportsSound(s: State) {
    && (forall b :: b in s.back ==> Report(s, b))
    && (forall n :: n in s.heard ==> n in s.route.arrivals)
    && (forall n :: n in s.sender.confirmed ==> n in s.heard)
  }

  ghost predicate Report(s: State, b: Codec.Bytes) {
    exists records :: |records| < U16_LIMIT && (IsAck(s, b, records) || b == Packet.Write(Packet.Nacks(records)))
  }

  ghost predicate IsAck(s: State, b: Codec.Bytes, records: seq<Ack.Record>) {
    b == Packet.Write(Packet.Acks(records)) && forall n :: n in Ack.Expand(records) ==> n in s.route.arrivals
  }

  ghost predicate Inv(s: State) {
    && Agrees(s.book, s.counters)
    && Sender.Conserved(s.sender) && Sender.Traced(s.sender)
    && Link.Sound(s.route)
    && FromBook(s.book, s.sender.accepted, s.sender.sent) && WireSound(s) && ArrivedSound(s) && ReportsSound(s)
  }

  lemma InitialInv(channels: nat)
    ensures Inv(Initial(channels))
  {
    AgreesInitially(channels);
    Sender.InitialConserved();
    Link.InitialSound();
  }

  /** The sender with more frames accepted and queued. */
  ghost function WithAccepted(v: Sender.View, frames: seq<Frame>): Sender.View {
    v.(queued := v.queued + multiset(frames), accepted := v.accepted + multiset(frames))
  }

  lemma WithAcceptedSnoc(v: Sender.View, frames: seq<Frame>, f: Frame)
    ensures WithAccepted(v, frames).Accept(f) == WithAccepted(v, frames + [f])
  {
    assert multiset(frames + [f]) == multiset(frames) + multiset{f};
    assert (v.queued + multiset(frames)) + multiset{f} == v.queued + (multiset(frames) + multiset{f});
    assert (v.accepted + multiset(frames)) + multiset{f} == v.accepted + (multiset(frames) + multiset{f});
  }

  lemma {:induction false} AcceptAll(v: Sender.View, frames: seq<Frame>)
    ensures Sender.IsRun(v, Accepts(frames))
    ensures Sender.Replay(v, Accepts(frames)) == WithAccepted(v, frames)
  {
    hide WithAccepted;
    if frames == [] {
      WithNothing(v);
    } else {
      var front, last := frames[..|frames| - 1], frames[|frames| - 1];
      AcceptAll(v, front);
      assert Accepts(frames)[..|frames| - 1] == Accepts(front);
      assert frames == front + [last];
      WithAcceptedSnoc(v, front, last);
    }
  }

  lemma WithNothing(v: Sender.View)
    ensures WithAccepted(v, []) == v
  {
    assert v.queued + multiset([]) == v.queued && v.accepted + multiset([]) == v.accepted;
  }

  /** The frames of a message that is not sequenced can be written and read, unless its data is empty. */
  lemma EncodedSendable(mtu: nat, st: Encoder.Counters, msg: Message)
    requires Encoder.CanSend(mtu, st, msg) && !msg.reliability.IsSequenced() && mtu <= MAX_MTU
    ensures forall f :: f in Encoder.Frames(mtu, st, msg) ==> Sendable(f)
  {
    Encoder.FramesFit(mtu, st, msg);
    forall f | f in Encoder.Frames(mtu, st, msg)
      ensures Sendable(f)
    {
      assert f.Size() + FRAME_SET_HEADER_SIZE <= mtu;
    }
  }

  lemma BookGrows(book: seq<Sent>, e: Sent, f: Frame)
    requires InBook(book, f)
    ensures InBook(book + [e], f)
  {
    var m: nat, j: nat :| IsFrame(book, f, m, j);
    assert IsFrame(book + [e], f, m, j);
  }

  lemma AcceptedInBook(book: seq<Sent>, accepted: multiset<Frame>, e: Sent, frames: seq<Frame>)
    requires forall f :: f in accepted ==> InBook(book, f) && Sendable(f)
    requires e.Well() && |frames| == |e.pieces| && forall j :: 0 <= j < |frames| ==>
               frames[j] == e.FrameAt(j) && Sendable(frames[j])
    ensures forall f :: f in accepted + multiset(frames) ==> InBook(book + [e], f) && Sendable(f)
  {
    hide Sendable;
    forall f | f in accepted + multiset(frames)
      ensures InBook(book + [e], f) && Sendable(f)
    {
      if f in accepted {
        BookGrows(book, e, f);
      } else {
        assert f in multiset(frames);
        var j: nat :| j < |frames| && frames[j] == f;
        assert IsFrame(book + [e], f, |book|, j);
      }
    }
  }

  lemma BookAccepted(book: seq<Sent>, accepted: multiset<Frame>, e: Sent, frames: seq<Frame>)
    requires forall m: nat, j: nat, f: Frame :: IsFrame(book, f, m, j) ==> f in accepted
    requires e.Well() && |frames| == |e.pieces| && forall j :: 0 <= j < |frames| ==> frames[j] == e.FrameAt(j)
    ensures forall m: nat, j: nat, f: Frame :: IsFrame(book + [e], f, m, j) ==> f in accepted + multiset(frames)
  {
    forall m: nat, j: nat, f: Frame | IsFrame(book + [e], f, m, j)
      ensures f in accepted + multiset(frames)
    {
      if m < |book| {
        assert IsFrame(book, f, m, j);
      } else {
        assert frames[j] == f;
        assert f in multiset(frames);
      }
    }
  }

  lemma SendFromBook(mtu: nat, s: State, msg: Message)
    requires FromBook(s.book, s.sender.accepted, s.sender.sent) && Enabled(mtu, s, SendMessage(msg)) && mtu <= MAX_MTU
    ensures var s' := Next(mtu, s, SendMessage(msg)); FromBook(s'.book, s'.sender.accepted, s'.sender.sent)
  {
    hide Sendable;
    hide InBook;
    hide IsFrame;
    var e, frames := Entry(mtu, s.counters, msg), Encoder.Frames(mtu, s.counters, msg);
    hide Sent.Filled;
    EntryFrames(mtu, s.counters, msg);
    EntryFilled(mtu, s.counters, msg);
    AcceptAll(s.sender, frames);
    AcceptedInBook(s.book, s.sender.accepted, e, frames);
    BookAccepted(s.book, s.sender.accepted, e, frames);
  }

  lemma EntryFilled(mtu: nat, st: Encoder.Counters, msg: Message)
    requires Encoder.CanSend(mtu, st, msg)
    ensures Entry(mtu, st, msg).Filled()
  {
  }

  lemma EntryFrames(mtu: nat, st: Encoder.Counters, msg: Message)
    requires Encoder.CanSend(mtu, st, msg) && !msg.reliability.IsSequenced() && mtu <= MAX_MTU
    ensures var e, frames := Entry(mtu, st, msg), Encoder.Frames(mtu, st, msg);
            e.Well() && |frames| == |e.pieces| && forall j :: 0 <= j < |frames| ==>
                  frames[j] == e.FrameAt(j) && Sendable(frames[j])
  {
    EntryWell(mtu, st, msg);
    EncodedSendable(mtu, st, msg);
    forall j | 0 <= j < |Encoder.Frames(mtu, st, msg)|
      ensures Sendable(Encoder.Frames(mtu, st, msg)[j])
    {
      assert Encoder.Frames(mtu, st, msg)[j] in Encoder.Frames(mtu, st, msg);
    }
  }

  /** Everything but the book and the sender's queue is as before, and the sender accepted more. */
  lemma SendInv(mtu: nat, s: State, msg: Message)
    requires Inv(s) && Enabled(mtu, s, SendMessage(msg)) && mtu <= MAX_MTU
    ensures Inv(Next(mtu, s, SendMessage(msg)))
  {
    hide WireSound;
    hide ArrivedSound;
    hide Agrees;
    hide Sender.Conserved;
    hide Sender.Traced;
    hide FromBook;
    hide Encoder.CanSend;
    hide Link.Sound;
    hide Report;
    hide Entry;
    var frames := Encoder.Frames(mtu, s.counters, msg);
    SendAgrees(mtu, s.book, s.counters, msg);
    SendFromBook(mtu, s, msg);
    AcceptAll(s.sender, frames);
    Sender.RunConserves(s.sender, Accepts(frames));
    var s' := Next(mtu, s, SendMessage(msg));
    assert s'.sender.sent == s.sender.sent && s'.sender.confirmed == s.sender.confirmed;
    SameWire(s, s');
    SameArrived(s, s');
    SameReports(s, s');
  }

  lemma SameWire(s: State, s': State)
    requires WireSound(s) && s'.wire == s.wire && s'.sender.sent == s.sender.sent
    ensures WireSound(s')
  {
    hide Packet.Write;
    forall b | b in s'.wire
      ensures exists n: nat :: Datagram(s', b, n)
    {
      var n: nat :| Datagram(s, b, n);
      assert Datagram(s', b, n);
    }
    assert forall n :: n in s.sender.sent ==> OnWire(s, n, s.sender.sent[n]);
  }

  lemma SameArrived(s: State, s': State)
    requires ArrivedSound(s) && s'.route.arrivals == s.route.arrivals && s'.arrived == s.arrived
    requires s'.sender.sent == s.sender.sent && forall f :: f in s.sender.accepted ==> f in s'.sender.accepted
    ensures ArrivedSound(s')
  {
  }

  lemma SameReports(s: State, s': State)
    requires ReportsSound(s) && s'.back == s.back && s'.heard == s.heard && s'.sender.confirmed <= s'.heard
    requires forall n :: n in s.route.arrivals ==> n in s'.route.arrivals
    ensures ReportsSound(s')
  {
    forall b | b in s'.back
      ensures Report(s', b)
    {
      ReportGrows(s, s', b);
    }
  }

  lemma ReportGrows(s: State, s': State, b: Codec.Bytes)
    requires Report(s, b) && forall n :: n in s.route.arrivals ==> n in s'.route.arrivals
    ensures Report(s', b)
  {
    hide Packet.Write;
    var records :| |records| < U16_LIMIT && (IsAck(s, b, records) || b == Packet.Write(Packet.Nacks(records)));
    assert IsAck(s, b, records) ==> IsAck(s', b, records);
  }

  lemma TransmitInv(mtu: nat, s: State, frames: seq<Frame>)
    requires Inv(s) && Enabled(mtu, s, Transmit(frames))
    ensures Inv(Next(mtu, s, Transmit(frames)))
  {
    hide Agrees;
    hide Sender.Conserved;
    hide Sender.Traced;
    hide Link.Sound;
    hide Sender.AnyReliable;
    hide Packet.Write;
    var a := Sender.Transmitting(frames);
    NextNotSent(s.sender);
    Sender.StepConserves(s.sender, a);
    Sender.StepTraced(s.sender, a);
    var s' := Next(mtu, s, Transmit(frames));
    TransmitFromBook(s, s', frames);
    TransmitWire(s, s', frames);
    TransmitArrived(s, s', frames);
    SameReports(s, s');
  }

  lemma NextNotSent(v: Sender.View)
    requires Sender.Traced(v)
    ensures v.next !in v.sent
  {
  }

  lemma TransmitFromBook(s: State, s': State, frames: seq<Frame>)
    requires FromBook(s.book, s.sender.accepted, s.sender.sent) && Sender.Conserved(s.sender) && frames != []
             && multiset(frames) <= s.sender.queued && s.sender.next < U24_LIMIT - 1
    requires s'.book == s.book && s'.sender.accepted == s.sender.accepted
             && s'.sender.sent == s.sender.sent[s.sender.next := frames]
    ensures FromBook(s'.book, s'.sender.accepted, s'.sender.sent)
  {
    hide InBook;
    hide IsFrame;
    hide Sendable;
    forall f | f in frames
      ensures f in s.sender.accepted
    {
      assert f in multiset(frames);
    }
  }

  lemma TransmitWire(s: State, s': State, frames: seq<Frame>)
    requires WireSound(s) && frames != [] && s.sender.next !in s.sender.sent && s.sender.next < U24_LIMIT
    requires s'.sender.sent == s.sender.sent[s.sender.next := frames]
    requires s'.wire == s.wire + {Packet.Write(Packet.Frames(Codec.FrameSet(s.sender.next, frames)))}
    ensures WireSound(s')
  {
    hide Packet.Write;
    forall b | b in s'.wire
      ensures exists n: nat :: Datagram(s', b, n)
    {
      if b in s.wire {
        var n: nat :| Datagram(s, b, n);
        assert Datagram(s', b, n);
      } else {
        assert Datagram(s', b, s.sender.next);
      }
    }
    forall n | n in s'.sender.sent
      ensures OnWire(s', n, s'.sender.sent[n])
    {
      assert n != s.sender.next ==> OnWire(s, n, s.sender.sent[n]);
    }
  }

  lemma TransmitArrived(s: State, s': State, frames: seq<Frame>)
    requires ArrivedSound(s) && s.sender.next !in s.sender.sent && s'.route == s.route && s'.arrived == s.arrived
    requires s'.sender.sent == s.sender.sent[s.sender.next := frames] && s'.sender.accepted == s.sender.accepted
    ensures ArrivedSound(s')
  {
  }

  /** A datagram is read as the transmission it was, or not at all. */
  lemma ReadDatagram(s: State, b: Codec.Bytes, n: nat)
    requires FromBook(s.book, s.sender.accepted, s.sender.sent) && Datagram(s, b, n)
    ensures Packet.Read(b).Ok? ==>
              && Packet.Read(b).value == Packet.Frames(Codec.FrameSet(n, s.sender.sent[n]))
              && forall f :: f in s.sender.sent[n] ==> Codec.WellFormed(f)
  {
    hide InBook;
    hide IsFrame;
    hide Packet.Write;
    hide Packet.Read;
    forall f | f in s.sender.sent[n]
      ensures f.body == [] || Codec.WellFormed(f)
    {
      assert Sendable(f);
    }
    Packet.FramesSameOrErr(Codec.FrameSet(n, s.sender.sent[n]));
  }

  lemma ReceiveInv(mtu: nat, s: State, datagram: Codec.Bytes)
    requires Inv(s) && Enabled(mtu, s, Receive(datagram))
    ensures Inv(Next(mtu, s, Receive(datagram)))
  {
    hide Agrees;
    hide Sender.Conserved;
    hide Sender.Traced;
    hide Link.Sound;
    hide Packet.Write;
    hide Packet.Read;
    hide Codec.WellFormed;
    var n: nat :| Datagram(s, datagram, n);
    ReadDatagram(s, datagram, n);
    if Packet.Read(datagram).Ok? {
      var s' := Next(mtu, s, Receive(datagram));
      var frames := s.sender.sent[n];
      assert s' == s.(route := s.route.Deliver(n), arrived := s.arrived + [frames]);
      Link.StepSound(s.route, Link.Arrive(n));
      Link.ArrivalsAfter(s.route, n);
      ReceiveArrived(s, s', n);
      SameReports(s, s');
      SameWire(s, s');
    }
  }

  lemma ReceiveArrived(s: State, s': State, n: nat)
    requires ArrivedSound(s) && FromBook(s.book, s.sender.accepted, s.sender.sent) && n in s.sender.sent
             && forall f :: f in s.sender.sent[n] ==> Codec.WellFormed(f)
    requires s'.sender == s.sender && s'.arrived == s.arrived + [s.sender.sent[n]]
    requires forall k :: k in s'.route.arrivals <==> k == n || k in s.route.arrivals
    ensures ArrivedSound(s')
  {
    hide InBook;
    hide IsFrame;
    hide Codec.WellFormed;
    assert s'.arrived[|s.arrived|] == s.sender.sent[n];
    forall k | k in s'.route.arrivals
      ensures k in s.sender.sent && s.sender.sent[k] in s'.arrived
    {
      if k != n {
        assert s.sender.sent[k] in s.arrived;
      }
    }
    forall i, f | 0 <= i < |s'.arrived| && f in s'.arrived[i]
      ensures f in s.sender.accepted && Codec.WellFormed(f)
    {
      if i < |s.arrived| {
        assert f in s.arrived[i];
      }
    }
  }

  lemma ReportInv(mtu: nat, s: State, records: seq<Ack.Record>)
    requires Inv(s) && mtu <= MAX_MTU && 3 + Ack.WireSize(records) <= mtu
    ensures Enabled(mtu, s, ReportAcks(records)) ==> Inv(Next(mtu, s, ReportAcks(records)))
    ensures Enabled(mtu, s, ReportNacks(records)) ==> Inv(Next(mtu, s, ReportNacks(records)))
  {
    hide WireSound;
    hide ArrivedSound;
    hide Agrees;
    hide Sender.Conserved;
    hide Sender.Traced;
    hide FromBook;
    hide Packet.Write;
    hide Ack.Expand;
    hide Ack.WireSize;
    hide Link.SoundGaps;
    Ack.FewRecords(records);
    if Enabled(mtu, s, ReportAcks(records)) {
      var s' := Next(mtu, s, ReportAcks(records));
      Link.SendAcksSound(s.route, Ack.Expand(records));
      AcksArrived(s.route, Ack.Expand(records));
      assert IsAck(s', Packet.Write(Packet.Acks(records)), records);
      NewReport(s, s', Packet.Write(Packet.Acks(records)));
      SameWire(s, s');
      SameArrived(s, s');
    }
    if Enabled(mtu, s, ReportNacks(records)) {
      var s' := Next(mtu, s, ReportNacks(records));
      Link.SendNacksSound(s.route, Ack.Expand(records));
      NewReport(s, s', Packet.Write(Packet.Nacks(records)));
      SameWire(s, s');
      SameArrived(s, s');
    }
  }

  lemma AcksArrived(v: Link.View, nums: seq<nat>)
    requires v.acks + v.acked == v.arrivals && multiset(nums) <= v.acks
    ensures forall n :: n in nums ==> n in v.arrivals
  {
    assert forall n :: n in nums ==> n in multiset(nums);
  }

  lemma NewReport(s: State, s': State, b: Codec.Bytes)
    requires ReportsSound(s) && s'.back == s.back + {b} && s'.heard == s.heard && s'.sender == s.sender
    requires s'.route.arrivals == s.route.arrivals && Report(s', b)
    ensures ReportsSound(s')
  {
    forall r | r in s'.back
      ensures Report(s', r)
    {
      if r in s.back {
        ReportGrows(s, s', r);
      }
    }
  }

  lemma HearInv(mtu: nat, s: State, report: Codec.Bytes)
    requires Inv(s) && Enabled(mtu, s, Hear(report))
    ensures Inv(Next(mtu, s, Hear(report)))
  {
    hide WireSound;
    hide ArrivedSound;
    hide Agrees;
    hide Sender.Conserved;
    hide Sender.Traced;
    hide FromBook;
    hide Link.Sound;
    hide Packet.Write;
    hide Packet.Read;
    hide Ack.Expand;
    assert Report(s, report);
    var records :| |records| < U16_LIMIT
        && (IsAck(s, report, records) || report == Packet.Write(Packet.Nacks(records)));
    Packet.ReportSameOrErr(records);
    var s' := Next(mtu, s, Hear(report));
    assert forall n :: n in s'.heard ==> n in s.heard || n in s.route.arrivals;
    SameWire(s, s');
    SameArrived(s, s');
    forall b | b in s'.back
      ensures Report(s', b)
    {
      ReportGrows(s, s', b);
    }
  }

  lemma MoveInv(mtu: nat, s: State, step: Step)
    requires Inv(s) && Enabled(mtu, s, step) && (step.Confirm? || step.Requeue? || step.DropRoute?)
    ensures Inv(Next(mtu, s, step))
  {
    hide WireSound;
    hide ArrivedSound;
    hide Agrees;
    hide Sender.Conserved;
    hide Sender.Traced;
    hide Link.Sound;
    hide FromBook;
    hide Report;
    var s' := Next(mtu, s, step);
    match step {
      case Confirm(n) =>
        Sender.StepConserves(s.sender, Sender.Confirming(n));
        Sender.StepTraced(s.sender, Sender.Confirming(n));
      case Requeue(n) =>
        Sender.StepConserves(s.sender, Sender.Requeueing(n));
        Sender.StepTraced(s.sender, Sender.Requeueing(n));
      case DropRoute =>
    }
    SameWire(s, s');
    SameArrived(s, s');
    SameReports(s, s');
  }

  lemma StepInv(mtu: nat, s: State, step: Step)
    requires Inv(s) && Enabled(mtu, s, step) && mtu <= MAX_MTU
    ensures Inv(Next(mtu, s, step))
  {
    hide Inv;
    match step
    case SendMessage(msg) => SendInv(mtu, s, msg);
    case Transmit(frames) => TransmitInv(mtu, s, frames);
    case Receive(datagram) => ReceiveInv(mtu, s, datagram);
    case ReportAcks(records) => ReportInv(mtu, s, records);
    case ReportNacks(records) => ReportInv(mtu, s, records);
    case Hear(report) => HearInv(mtu, s, report);
    case Confirm(_) => MoveInv(mtu, s, step);
    case Requeue(_) => MoveInv(mtu, s, step);
    case DropRoute => MoveInv(mtu, s, step);
  }

  /** The invariant holds in every reachable state. */
  lemma {:induction false} RunInv(mtu: nat, s: State, steps: seq<Step>)
    requires Inv(s) && IsRun(mtu, s, steps) && mtu <= MAX_MTU
    ensures Inv(Final(mtu, s, steps))
    decreases |steps|
  {
    hide Inv;
    hide Next;
    if steps != [] {
      StepInv(mtu, s, steps[0]);
      RunInv(mtu, Next(mtu, s, steps[0]), steps[1..]);
    }
  }

  lemma ArrivedInBook(s: State)
    requires Inv(s)
    ensures WellBook(s.book) && Delivery.AllInBook(s.book, s.arrived)
  {
    hide WireSound;
    hide ReportsSound;
    hide Sender.Conserved;
    hide Sender.Traced;
    hide Link.Sound;
    hide WellBook;
    forall i, j | 0 <= i < |s.arrived| && 0 <= j < |s.arrived[i]|
      ensures InBook(s.book, s.arrived[i][j])
    {
      assert s.arrived[i][j] in s.arrived[i];
    }
  }

  /**
   * End-to-end ordered safety. In every state reachable from a fresh connection, whatever the
   * network lost, repeated or reordered and whatever the decoder's limits discarded, the bodies
   * delivered on each channel are a prefix of the ordered data accepted for it.
   */
  lemma OrderedDelivery(mtu: nat, channels: nat, steps: seq<Step>, cfg: Delivery.Config, c: nat)
    requires IsRun(mtu, Initial(channels), steps) && mtu <= MAX_MTU
    ensures var s := Final(mtu, Initial(channels), steps);
            Delivery.BodiesOn(Delivery.Delivered(cfg, s.arrived), c) <= OrderedData(s.book, c)
  {
    hide Inv;
    hide IsRun;
    hide Final;
    hide WellBook;
    hide Delivery.AllInBook;
    InitialInv(channels);
    RunInv(mtu, Initial(channels), steps);
    var s := Final(mtu, Initial(channels), steps);
    ArrivedInBook(s);
    Delivery.OrderedSafety(s.book, cfg, s.arrived, c);
  }

  /** The sender has nothing queued and nothing unacknowledged, which is when closing completes. */
  ghost predicate Drained(s: State) {
    s.sender.queued == multiset{} && s.sender.recorded == map[]
  }

  lemma {:induction false} InFlatten(sets: seq<seq<Frame>>, i: nat, f: Frame)
    requires i < |sets| && f in sets[i]
    ensures f in Delivery.Flatten(sets)
  {
    if i > 0 {
      InFlatten(sets[1..], i - 1, f);
    }
  }

  /** A reliable frame of the book that is confirmed has arrived. */
  lemma ConfirmedArrived(s: State, f: Frame)
    requires Inv(s) && Drained(s) && f in s.sender.accepted && f.IsReliable()
    ensures f in Delivery.Flatten(s.arrived) && Codec.WellFormed(f)
  {
    hide WireSound;
    hide FromBook;
    hide Agrees;
    hide Link.Sound;
    hide InBook;
    hide IsFrame;
    hide Codec.WellFormed;
    Sender.DrainedMeansConfirmed(s.sender, f);
    var n :| n in s.sender.confirmed && n in s.sender.sent && f in s.sender.sent[n];
    assert n in s.route.arrivals;
    var i :| 0 <= i < |s.arrived| && s.arrived[i] == s.sender.sent[n];
    InFlatten(s.arrived, i, f);
  }

  /**
   * Close implies received. In every reachable state in which the sender is drained, every frame of
   * every reliable message accepted so far was received by the peer's open route.
   */
  lemma CloseMeansReceived(mtu: nat, channels: nat, steps: seq<Step>)
    requires IsRun(mtu, Initial(channels), steps) && mtu <= MAX_MTU
    requires Drained(Final(mtu, Initial(channels), steps))
    ensures var s := Final(mtu, Initial(channels), steps);
            && WellBook(s.book)
            && Delivery.AllArrived(s.book, s.arrived)
            && (forall m: nat :: m < |s.book| && s.book[m].reliability.IsReliable() ==> s.book[m].msg.data != [])
  {
    hide Inv;
    hide IsRun;
    hide Final;
    InitialInv(channels);
    RunInv(mtu, Initial(channels), steps);
    DrainedMeansArrived(Final(mtu, Initial(channels), steps));
  }

  lemma DrainedMeansArrived(s: State)
    requires Inv(s) && Drained(s)
    ensures WellBook(s.book) && Delivery.AllInBook(s.book, s.arrived)
    ensures Delivery.AllArrived(s.book, s.arrived)
    ensures forall m: nat :: m < |s.book| && s.book[m].reliability.IsReliable() ==> s.book[m].msg.data != []
  {
    hide Delivery.AllInBook;
    hide Delivery.Flatten;
    ArrivedInBook(s);
    forall m: nat | m < |s.book| && s.book[m].reliability.IsReliable()
      ensures Delivery.Arrived(s.book, Delivery.Flatten(s.arrived), m) && s.book[m].msg.data != []
    {
      MessageArrived(s, m);
    }
  }

  lemma MessageArrived(s: State, m: nat)
    requires Inv(s) && Drained(s) && WellBook(s.book) && m < |s.book| && s.book[m].reliability.IsReliable()
    ensures Delivery.Arrived(s.book, Delivery.Flatten(s.arrived), m) && s.book[m].msg.data != []
  {
    hide WireSound;
    hide ArrivedSound;
    hide ReportsSound;
    hide Sender.Conserved;
    hide Sender.Traced;
    hide Link.Sound;
    hide WellBook;
    hide Delivery.Flatten;
    Delivery.EntryIsWell(s.book, m);
    forall j: nat | j < |s.book[m].pieces|
      ensures s.book[m].FrameAt(j) in Delivery.Flatten(s.arrived) && s.book[m].pieces[j] != []
    {
      var f := s.book[m].FrameAt(j);
      assert IsFrame(s.book, f, m, j);
      assert f in s.sender.accepted;
      ConfirmedArrived(s, f);
    }
    FirstPiece(s.book[m]);
  }

  lemma FirstPiece(e: Sent)
    requires e.Well() && e.pieces[0] != []
    ensures e.msg.data != []
  {
  }

  /**
   * Close implies delivered, exactly: every reliable message accepted so far has been delivered once if it
   * and all before it on its channel are remembered by the decoder, and else never; with room in the
   * decoder's cache that is all of them if and only if no message is over its limits.
   */
  lemma CloseMeansDelivered(mtu: nat, channels: nat, steps: seq<Step>, cfg: Delivery.Config)
    requires IsRun(mtu, Initial(channels), steps) && mtu <= MAX_MTU
    requires Drained(Final(mtu, Initial(channels), steps))
    ensures var s := Final(mtu, Initial(channels), steps);
            WellBook(s.book) && Delivery.Accounted(s.book, cfg, s.arrived)
  {
    hide Inv;
    hide IsRun;
    hide Final;
    hide Delivery.Accounted;
    InitialInv(channels);
    RunInv(mtu, Initial(channels), steps);
    var s := Final(mtu, Initial(channels), steps);
    DrainedMeansArrived(s);
    Delivery.AllDelivered(s.book, cfg, s.arrived);
  }

  function StepOf(a: Sender.Action): Step
    requires !a.Accepting?
  {
    match a
    case Transmitting(frames) => Transmit(frames)
    case Confirming(n) => Confirm(n)
    case Requeueing(n) => Requeue(n)
  }

  function StepsOf(log: seq<Sender.Action>): (steps: seq<Step>)
    requires forall i :: 0 <= i < |log| ==> !log[i].Accepting?
    ensures |steps| == |log|
  {
    seq(|log|, i requires 0 <= i < |log| => StepOf(log[i]))
  }

  lemma ActionIsStep(mtu: nat, s: State, a: Sender.Action)
    requires Reliable.OrderlyAction(a, s.heard) && Sender.Enabled(s.sender, a)
             && Sender.Apply(s.sender, a).next < U24_LIMIT
    ensures Enabled(mtu, s, StepOf(a))
    ensures var s' := Next(mtu, s, StepOf(a));
            && s'.sender == Sender.Apply(s.sender, a) && s'.heard == s.heard && s'.counters == s.counters
            && s'.book == s.book && s'.arrived == s.arrived && s.wire <= s'.wire
  {
    hide Packet.Write;
    hide Sender.AnyReliable;
  }

  lemma NextNeverFalls(v: Sender.View, a: Sender.Action)
    ensures v.next <= Sender.Apply(v, a).next
  {
  }

  /** Every transmission of the run is a set as the buffer packs it. */
  ghost predicate Packed(mtu: nat, s: State, steps: seq<Step>)
    requires IsRun(mtu, s, steps)
    decreases |steps|
  {
    steps == [] || (PackedStep(mtu, s, steps[0]) && Packed(mtu, Next(mtu, s, steps[0]), steps[1..]))
  }

  ghost predicate PackedStep(mtu: nat, s: State, step: Step) {
    step.Transmit? ==> Reliable.Packs(mtu, s.sender.queued, step.frames)
  }

  lemma {:induction false} RunAppend(mtu: nat, s: State, a: seq<Step>, b: seq<Step>)
    requires IsRun(mtu, s, a) && IsRun(mtu, Final(mtu, s, a), b)
    ensures IsRun(mtu, s, a + b) && Final(mtu, s, a + b) == Final(mtu, Final(mtu, s, a), b)
    ensures Packed(mtu, s, a) && Packed(mtu, Final(mtu, s, a), b) ==> Packed(mtu, s, a + b)
    decreases |a|
  {
    hide Next;
    hide PackedStep;
    hide Encoder.CanSend;
    hide Splits;
    hide Entry;
    hide Ack.Expand;
    hide Ack.WireSize;
    if a == [] {
      assert a + b == b;
    } else {
      RunAppend(mtu, Next(mtu, s, a[0]), a[1..], b);
      assert (a + b)[1..] == a[1..] + b;
    }
  }

  lemma OneStep(mtu: nat, s: State, step: Step)
    requires Enabled(mtu, s, step)
    ensures IsRun(mtu, s, [step]) && Final(mtu, s, [step]) == Next(mtu, s, step)
    ensures Packed(mtu, s, [step]) <==> PackedStep(mtu, s, step)
  {
    hide Next;
    hide PackedStep;
    assert [step][1..] == [];
  }

  lemma AcceptsNothing(log: seq<Sender.Action>, nums: set<nat>)
    requires Reliable.Orderly(log, nums)
    ensures forall i :: 0 <= i < |log| ==> !log[i].Accepting?
  {
    forall i | 0 <= i < |log|
      ensures !log[i].Accepting?
    {
      assert Reliable.OrderlyAction(log[i], nums);
    }
  }

  /**
   * The reliable layer only takes steps of this model: what a flush or a close logs, when it confirms
   * no more than was heard, is a run whose transmissions are packed, and it ends with the sender the
   * layer ends with.
   */
  lemma {:induction false} LayerRefinesSystem(mtu: nat, s: State, log: seq<Sender.Action>, v: Sender.View)
    requires Reliable.Ran(mtu, s.sender, log, v) && Reliable.Orderly(log, s.heard) && v.next < U24_LIMIT
    ensures (forall i :: 0 <= i < |log| ==> !log[i].Accepting?) && IsRun(mtu, s, StepsOf(log))
            && Packed(mtu, s, StepsOf(log))
    ensures var s' := Final(mtu, s, StepsOf(log));
            && s'.sender == v && s'.heard == s.heard && s'.counters == s.counters
            && s'.book == s.book && s'.arrived == s.arrived && s.wire <= s'.wire
  {
    hide Enabled;
    hide Next;
    hide PackedStep;
    hide Reliable.OrderlyAction;
    hide Reliable.Packs;
    hide Sender.Apply;
    hide Sender.Enabled;
    AcceptsNothing(log, s.heard);
    if log != [] {
      var front, a := log[..|log| - 1], log[|log| - 1];
      var w := Sender.Replay(s.sender, front);
      NextNeverFalls(w, a);
      assert Reliable.OrderlyAction(a, s.heard);
      LayerRefinesSystem(mtu, s, front, w);
      assert StepsOf(log) == StepsOf(front) + [StepOf(a)];
      var mid := Final(mtu, s, StepsOf(front));
      ActionIsStep(mtu, mid, a);
      ActionPacked(mtu, mid, a);
      OneStep(mtu, mid, StepOf(a));
      RunAppend(mtu, s, StepsOf(front), [StepOf(a)]);
    }
  }

  /** The sequence number stays within its width. */
  lemma {:induction false} NumbersFit(mtu: nat, s: State, steps: seq<Step>)
    requires IsRun(mtu, s, steps) && s.sender.next < U24_LIMIT
    ensures Final(mtu, s, steps).sender.next < U24_LIMIT
    decreases |steps|
  {
    if steps != [] {
      StepNumber(mtu, s, steps[0]);
      hide Next;
      hide Enabled;
      NumbersFit(mtu, Next(mtu, s, steps[0]), steps[1..]);
    }
  }

  lemma StepNumber(mtu: nat, s: State, step: Step)
    requires Enabled(mtu, s, step) && s.sender.next < U24_LIMIT
    ensures Next(mtu, s, step).sender.next < U24_LIMIT
  {
    hide Packet.Write;
    hide Sender.AnyReliable;
    if step.SendMessage? {
      AcceptAll(s.sender, Encoder.Frames(mtu, s.counters, step.msg));
    }
  }

  lemma ActionPacked(mtu: nat, s: State, a: Sender.Action)
    requires !a.Accepting? && (a.Transmitting? ==> Reliable.Packs(mtu, s.sender.queued, a.frames))
    ensures PackedStep(mtu, s, StepOf(a))
  {
  }

  /**
   * A close that completes was received. From every reachable state, what a layer that starts in it
   * logs on the way to an empty sender is a run, at the end of which every frame of every reliable
   * message has arrived at the open route and every set ever sent is on the wire.
   */
  lemma CompletedClose(mtu: nat, channels: nat, trace: seq<Step>, log: seq<Sender.Action>, v: Sender.View)
    requires mtu <= MAX_MTU && IsRun(mtu, Initial(channels), trace)
    requires var s := Final(mtu, Initial(channels), trace);
             Reliable.Ran(mtu, s.sender, log, v) && Reliable.Orderly(log, s.heard) && v.next < U24_LIMIT
    requires v.queued == multiset{} && v.recorded == map[]
    ensures (forall i :: 0 <= i < |log| ==> !log[i].Accepting?) && IsRun(mtu, Initial(channels), trace + StepsOf(log))
    ensures var s := Final(mtu, Initial(channels), trace + StepsOf(log));
            && s.sender == v && Drained(s) && WellBook(s.book)
            && s.book == Final(mtu, Initial(channels), trace).book
               && s.arrived == Final(mtu, Initial(channels), trace).arrived
            && Delivery.AllArrived(s.book, s.arrived)
            && (forall n :: n in v.sent ==> OnWire(s, n, v.sent[n]))
  {
    hide Inv;
    hide IsRun;
    hide Final;
    hide Reliable.Ran;
    hide Reliable.Orderly;
    var s := Final(mtu, Initial(channels), trace);
    LayerRefinesSystem(mtu, s, log, v);
    RunAppend(mtu, Initial(channels), trace, StepsOf(log));
    CloseMeansReceived(mtu, channels, trace + StepsOf(log));
    InitialInv(channels);
    RunInv(mtu, Initial(channels), trace + StepsOf(log));
    AllOnWire(Final(mtu, Initial(channels), trace + StepsOf(log)));
  }

  lemma AllOnWire(s: State)
    requires Inv(s)
    ensures forall n :: n in s.sender.sent ==> OnWire(s, n, s.sender.sent[n])
  {
  }

  /** A confirmed transmission was readable: every frame in it has a body, whatever its reliability. */
  lemma ConfirmedHaveBodies(s: State, n: nat)
    requires Inv(s) && n in s.sender.confirmed
    ensures n in s.sender.sent && forall f :: f in s.sender.sent[n] ==> f.body != []
  {
    hide WireSound;
    hide Sender.Traced;
    hide Agrees;
    hide Sender.Conserved;
    hide Link.Sound;
    hide FromBook;
    assert n in s.heard && n in s.route.arrivals;
    var i :| 0 <= i < |s.arrived| && s.arrived[i] == s.sender.sent[n];
    forall f | f in s.sender.sent[n]
      ensures f.body != []
    {
      assert Codec.WellFormed(f);
    }
  }
}
