/** The reliable layer: flushing the buffers to the socket, resending, and waiting for the peer on close. */
module Reliable {
  import opened Types
  import Ack
  import Buffer
  import Codec
  import Estimator
  import Link
  import Packet
  import Resend
  import Sender

  /** The socket accepts as many packets as its budget says, then answers that it is not ready. */
  class Socket {
    var sent: seq<Packet.Packet>
    var budget: nat

    constructor (budget: nat)
      ensures sent == [] && this.budget == budget
    {
      sent, this.budget := [], budget;
    }

    method PollReady() returns (ready: bool)
      modifies this`budget
      ensures ready == (old(budget) > 0)
      ensures budget == if ready then old(budget) - 1 else old(budget)
    {
      ready := budget > 0;
      if ready {
        budget := budget - 1;
      }
    }

    method StartSend(p: Packet.Packet)
      modifies this`sent
      ensures sent == old(sent) + [p]
    {
      sent := sent + [p];
    }
  }

  /** Which queues a flush has to empty. */
  datatype FlushStrategy = FlushStrategy(ack: bool, nack: bool, pack: bool)

  /** A frame the encoder may hand down: it fits a set by itself and carries the fields its flags announce. */
  predicate Fits(mtu: nat, f: Frame) {
    f.Size() + FRAME_SET_HEADER_SIZE <= mtu && Codec.FieldsMatch(f)
  }

  ghost predicate AllFit(mtu: nat, frames: multiset<Frame>) {
    forall f :: f in frames ==> Fits(mtu, f)
  }

  /** A packet written to the wire takes at most `mtu` bytes. */
  ghost predicate WithinMtu(mtu: nat, p: Packet.Packet) {
    p.Unconnected? || ((p.Frames? ==> p.frameSet.frames != []) && |Packet.Write(p)| <= mtu)
  }

  /** Frame sets on the wire are the transmissions of the history. */
  ghost predicate OnRecord(v: Sender.View, p: Packet.Packet) {
    p.Frames? ==> p.frameSet.seqNum in v.sent && v.sent[p.frameSet.seqNum] == p.frameSet.frames
  }

  /** What the layer does by itself: it accepts nothing, transmits no empty set, and confirms only these numbers. */
  ghost predicate Orderly(log: seq<Sender.Action>, nums: set<nat>) {
    forall i :: 0 <= i < |log| ==> OrderlyAction(log[i], nums)
  }

  predicate OrderlyAction(a: Sender.Action, nums: set<nat>) {
    match a
    case Accepting(_) => false
    case Transmitting(frames) => frames != []
    case Confirming(n) => n in nums
    case Requeueing(_) => true
  }

  /** Sets are confirmed or queued again, and nothing else happens. */
  ghost predicate Moves(log: seq<Sender.Action>) {
    forall i :: 0 <= i < |log| ==> log[i].Confirming? || log[i].Requeueing?
  }

  /** The numbers carried by queued acknowledgements. */
  ghost function NumbersIn(queue: seq<(seq<Ack.Record>, nat)>): (r: set<nat>) {
    set i, n | 0 <= i < |queue| && n in Ack.Expand(queue[i].0) :: n
  }

  lemma FrameSetFits(mtu: nat, seqNum: U24, frames: seq<Frame>)
    requires frames != [] && Codec.SizeOf(frames) + FRAME_SET_HEADER_SIZE <= mtu && forall f :: f in frames ==>
               Codec.FieldsMatch(f)
    ensures WithinMtu(mtu, Packet.Frames(Codec.FrameSet(seqNum, frames)))
  {
    Codec.FramesSize(frames);
  }

  lemma AcksFit(mtu: nat, records: seq<Ack.Record>)
    requires 3 + Ack.WireSize(records) <= mtu
    ensures WithinMtu(mtu, Packet.Acks(records)) && WithinMtu(mtu, Packet.Nacks(records))
  {
    Ack.RecordsLength(records);
  }

  class ReliableLayer {
    const socket: Socket
    const link: Link.TransferLink
    const buf: Buffer.SendBuffer
    const resend: Resend.ResendMap
    const mtu: U16
    var seqNumWriteIndex: nat
    ghost var history: Sender.View

    /** The fields are what the history says, and the history conserves every accepted frame. */
    ghost predicate Valid()
      reads this, link, buf, resend
    {
      Apart() && InStep(history, buf.Contents(), Resend.FrameMap(resend.reliable), seqNumWriteIndex, mtu)
    }

    /** The parts other than the history are sound by themselves. */
    ghost predicate Apart()
      reads this, link, resend
    {
      link.Valid() && resend.Valid() && mtu >= 7 && resend.bound <= seqNumWriteIndex
    }

    constructor (socket: Socket, link: Link.TransferLink, mtu: U16, now: nat)
      requires link.Valid() && mtu >= 7
      ensures Valid() && this.socket == socket && this.link == link && this.mtu == mtu
      ensures history == Sender.INITIAL && resend.lastScan == now
      ensures fresh(buf) && fresh(resend) && fresh(resend.estimator)
    {
      this.socket, this.link, this.mtu := socket, link, mtu;
      buf := new Buffer.SendBuffer();
      resend := new Resend.ResendMap(now);
      seqNumWriteIndex := 0;
      history := Sender.INITIAL;
      new;
      Sender.InitialConserved();
      assert Resend.FrameMap(map[]) == map[];
    }

    method StartSend(priority: Priority, frame: Frame)
      requires Valid() && Fits(mtu, frame)
      modifies this`history, buf
      ensures Valid() && history == old(history).Accept(frame)
    {
      hide InStep;
      InStepAccept(history, buf.Contents(), Resend.FrameMap(resend.reliable), seqNumWriteIndex, mtu, frame);
      buf.Send(priority, frame);
      history := history.Accept(frame);
    }

    /** Apply one batch of acknowledged numbers to the resend map. */
    method TakeAck(records: seq<Ack.Record>, receivedAt: nat) returns (ghost log: seq<Sender.Action>)
      requires Valid()
      modifies this`history, resend`reliable, resend`inflight, resend.estimator
      ensures Valid()
      ensures log == Resend.Confirms(Ack.Expand(records)) && Moves(log)
      ensures Ran(mtu, old(history), log, history) && SameRecord(old(history), history)
    {
      hide InStep;
      hide Ran;
      hide Resend.AckAll;
      log := Resend.Confirms(Ack.Expand(records));
      InStepAck(history, buf.Contents(), resend.reliable, seqNumWriteIndex, mtu, resend.estimator.State(),
            Ack.Expand(records), receivedAt);
      history := Sender.Replay(history, log);
      resend.OnAck(records, receivedAt);
    }

    /** Give up on one batch of numbers: their frames are queued again. */
    method TakeNack(records: seq<Ack.Record>) returns (ghost log: seq<Sender.Action>)
      requires Valid()
      modifies this`history, buf`resend, resend`reliable, resend`inflight
      ensures Valid()
      ensures Orderly(log, {}) && Moves(log) && Ran(mtu, old(history), log, history)
              && SameRecord(old(history), history)
    {
      hide Sender.Replay;
      hide Ack.Expand;
      hide Resend.Inflight;
      hide Resend.FrameMap;
      hide InStep;
      hide Ran;
      hide Orderly;
      hide Resend.Lost;
      log := Resend.Requeues(Ack.Expand(records));
      ghost var before := buf.AsTiers();
      resend.OnNackInto(records, buf);
      InStepLose(history, before, old(resend.reliable), seqNumWriteIndex, mtu, Ack.Expand(records), buf.AsTiers(),
            resend.reliable);
      history := Sender.Replay(history, log);
    }

    /** Collect what timed out. */
    method TakeStales(now: nat) returns (ghost log: seq<Sender.Action>)
      requires Valid() && now >= resend.lastScan
      modifies this`history, buf`resend, resend, resend.estimator
      ensures Valid() && resend.lastScan <= now && resend.Fresh(now)
      ensures Orderly(log, {}) && Moves(log) && Ran(mtu, old(history), log, history)
              && SameRecord(old(history), history)
    {
      hide InStep;
      hide Ran;
      hide Orderly;
      hide Resend.Lost;
      ghost var order;
      ghost var before := buf.AsTiers();
      order := resend.ProcessStales(buf, now);
      log := Resend.Requeues(order);
      InStepLose(history, before, old(resend.reliable), seqNumWriteIndex, mtu, order, buf.AsTiers(), resend.reliable);
      history := Sender.Replay(history, log);
    }

    /** Take in everything the peer reported and everything that timed out. */
    method ProcessInflight(now: nat) returns (ghost log: seq<Sender.Action>)
      requires Valid() && now >= resend.lastScan
      modifies this`history, link`incomingAck, link`incomingNack, buf`resend, resend, resend.estimator
      ensures Valid() && resend.lastScan <= now && resend.Fresh(now)
      ensures link.incomingAck == [] && link.incomingNack == []
      ensures Ran(mtu, old(history), log, history) && Orderly(log, NumbersIn(old(link.incomingAck)))
              && SameRecord(old(history), history)
      ensures Moves(log)
    {
      hide Valid;
      hide Ran;
      hide Orderly;
      hide NumbersIn;
      log := ProcessAcks();
      ghost var v1 := history;
      ghost var lost := ProcessNacks();
      ghost var v2 := history;
      ghost var stale := TakeStales(now);
      OrderlyLess(lost, {}, NumbersIn(old(link.incomingAck)));
      OrderlyLess(stale, {}, NumbersIn(old(link.incomingAck)));
      RanThen(mtu, old(history), log, v1, lost, v2, NumbersIn(old(link.incomingAck)));
      RanThen(mtu, old(history), log + lost, v2, stale, history, NumbersIn(old(link.incomingAck)));
      log := log + lost + stale;
    }

    method ProcessAcks() returns (ghost log: seq<Sender.Action>)
      requires Valid()
      modifies this`history, link`incomingAck, resend`reliable, resend`inflight, resend.estimator
      ensures Valid() && link.incomingAck == []
      ensures Ran(mtu, old(history), log, history) && Orderly(log, NumbersIn(old(link.incomingAck)))
              && SameRecord(old(history), history)
      ensures Moves(log)
    {
      hide Valid;
      hide Ran;
      hide Orderly;
      hide NumbersIn;
      NothingRan(mtu, history, NumbersIn(link.incomingAck));
      log := [];
      ghost var queue := link.incomingAck;
      ghost var taken: nat := 0;
      while link.incomingAck != []
        invariant Valid() && taken <= |queue| && link.incomingAck == queue[taken..]
        invariant Ran(mtu, old(history), log, history) && Orderly(log, NumbersIn(queue))
                  && SameRecord(old(history), history)
        invariant Moves(log)
        decreases |link.incomingAck|
      {
        ghost var before := history;
        var batch := PopAck();
        BatchConfirms(queue, taken);
        taken := taken + 1;
        ghost var more := TakeAck(batch.0, batch.1);
        RanThen(mtu, old(history), log, before, more, history, NumbersIn(queue));
        log := log + more;
      }
    }

    method PopAck() returns (batch: (seq<Ack.Record>, nat))
      requires Valid() && link.incomingAck != []
      modifies link`incomingAck
      ensures Valid() && old(link.incomingAck) == [batch] + link.incomingAck
    {
      hide InStep;
      batch := link.incomingAck[0];
      link.incomingAck := link.incomingAck[1..];
    }

    method PopNack() returns (records: seq<Ack.Record>)
      requires Valid() && link.incomingNack != []
      modifies link`incomingNack
      ensures Valid() && |link.incomingNack| < |old(link.incomingNack)|
    {
      hide InStep;
      records := link.incomingNack[0];
      link.incomingNack := link.incomingNack[1..];
    }

    method ProcessNacks() returns (ghost log: seq<Sender.Action>)
      requires Valid()
      modifies this`history, link`incomingNack, buf`resend, resend`reliable, resend`inflight
      ensures Valid() && link.incomingNack == []
      ensures Ran(mtu, old(history), log, history) && Orderly(log, {}) && Moves(log)
              && SameRecord(old(history), history)
    {
      hide Valid;
      hide Ran;
      hide Orderly;
      NothingRan(mtu, history, {});
      log := [];
      while link.incomingNack != []
        invariant Valid() && Ran(mtu, old(history), log, history) && Orderly(log, {}) && Moves(log)
                  && SameRecord(old(history), history)
        decreases |link.incomingNack|
      {
        ghost var before := history;
        var records := PopNack();
        ghost var more := TakeNack(records);
        RanThen(mtu, old(history), log, before, more, history, {});
        log := log + more;
      }
    }

    /** Pack one set off the buffer; the history still counts its frames as queued. */
    method NextSet() returns (frames: seq<Frame>, reliable: bool, penalty: Byte)
      requires Valid()
      modifies buf
      ensures Popped(old(buf.Contents()), buf.Contents(), frames, mtu)
      ensures reliable == Sender.AnyReliable(frames)
    {
      hide Buffer.Served;
      hide Sender.AnyReliable;
      hide Popped;
      hide Buffer.Tiers.Contents;
      ghost var before := buf.AsTiers();
      ghost var p;
      InStepFits(history, before.Contents(), Resend.FrameMap(resend.reliable), seqNumWriteIndex, mtu);
      hide InStep;
      frames, reliable, penalty, p := buf.Pop(mtu);
      ServedPops(before, buf.AsTiers(), p, mtu);
    }

    /** Account for a set that was sent, keeping it for resending when it holds a reliable frame. */
    method Transmitted(ghost queued: multiset<Frame>, frames: seq<Frame>, reliable: bool, penalty: Byte, now: nat)
      returns (ghost log: seq<Sender.Action>)
      requires Apart() && InStep(history, queued, Resend.FrameMap(resend.reliable), seqNumWriteIndex, mtu)
      requires Popped(queued, buf.Contents(), frames, mtu) && frames != [] && reliable == Sender.AnyReliable(frames)
      modifies this, resend
      ensures Valid() && resend.lastScan == old(resend.lastScan) && (old(resend.Fresh(now)) ==> resend.Fresh(now))
      ensures Ran(mtu, old(history), log, history) && Orderly(log, {})
      ensures history == old(history).Transmit(frames) && seqNumWriteIndex == old(seqNumWriteIndex) + 1
    {
      hide Resend.FreshAt;
      hide InStep;
      hide Ran;
      hide Orderly;
      hide Popped;
      hide Sender.AnyReliable;
      hide Resend.FrameMap;
      hide Resend.Inflight;
      InStepTransmit(history, queued, buf.Contents(), Resend.FrameMap(resend.reliable), seqNumWriteIndex, mtu, frames);
      if reliable {
        resend.Record(seqNumWriteIndex, penalty, frames, now);
      }
      seqNumWriteIndex := seqNumWriteIndex + 1;
      history := history.Transmit(frames);
      return [Sender.Transmitting(frames)];
    }

    /** Pack one set and send it. */
    method FlushFrames(now: nat) returns (ghost log: seq<Sender.Action>)
      requires Valid() && seqNumWriteIndex < U24_LIMIT
      modifies this, socket`sent, buf, resend
      ensures Valid() && resend.lastScan == old(resend.lastScan) && (old(resend.Fresh(now)) ==> resend.Fresh(now))
      ensures Ran(mtu, old(history), log, history) && Orderly(log, {})
      ensures history.accepted == old(history).accepted && Extends(old(history), history)
      ensures old(buf.Len()) == 0 ==>
                socket.sent == old(socket.sent) && seqNumWriteIndex == old(seqNumWriteIndex) && buf.Len() == 0
      ensures old(buf.Len()) > 0 ==>
                && |socket.sent| == |old(socket.sent)| + 1 && socket.sent[..|old(socket.sent)|] == old(socket.sent)
                && WithinMtu(mtu, socket.sent[|old(socket.sent)|]) && OnRecord(history, socket.sent[|old(socket.sent)|])
                && seqNumWriteIndex == old(seqNumWriteIndex) + 1 && buf.Len() < old(buf.Len())
    {
      hide Extends;
      hide OnRecord;
      hide OneSet;
      hide Sender.View.Transmit;
      hide Resend.ResendMap.Fresh;
      hide InStep;
      hide WithinMtu;
      hide Ran;
      hide Orderly;
      hide Sender.AnyReliable;
      hide Buffer.Tiers.Contents;
      hide Resend.FrameMap;
      ghost var queued := buf.Contents();
      InStepNext(history, queued, Resend.FrameMap(resend.reliable), seqNumWriteIndex, mtu);
      var frames, reliable, penalty := NextSet();
      if frames == [] {
        NothingRan(mtu, history, {});
        NothingSent(socket.sent, history, mtu);
        return [];
      }
      FrameSetFits(mtu, seqNumWriteIndex, frames);
      OnTheRecord(history, frames);
      socket.StartSend(Packet.Frames(Codec.FrameSet(seqNumWriteIndex, frames)));
      log := Transmitted(queued, frames, reliable, penalty, now);
    }

    /** Everything a strategy has to flush, counted. */
    function Work(strategy: FlushStrategy): (n: nat)
      reads link, buf
    {
      (if strategy.ack then |link.outgoingAck| else 0)
      + (if strategy.nack then |link.outgoingNack| else 0)
      + (if strategy.pack then |link.unconnected| + buf.Len() else 0)
    }

    predicate CheckFlushed(strategy: FlushStrategy)
      reads link, buf
      ensures CheckFlushed(strategy) <==> Work(strategy) == 0
    {
      && (strategy.ack ==> link.outgoingAck == [])
      && (strategy.nack ==> link.outgoingNack == [])
      && (strategy.pack ==> link.unconnected == [] && buf.Len() == 0)
    }

    /** One pending acknowledgement packet, if any. */
    method FlushAck()
      requires Valid()
      modifies socket`sent, link`outgoingAck, link`acked
      ensures Valid()
      ensures Sent(old(socket.sent), socket.sent, history, mtu)
      ensures |link.outgoingAck| <= |old(link.outgoingAck)|
              && (old(link.outgoingAck) != [] ==> |link.outgoingAck| < |old(link.outgoingAck)|)
      ensures socket.sent != old(socket.sent) ==>
                && |socket.sent| == |old(socket.sent)| + 1 && socket.sent[|old(socket.sent)|].Acks?
                && old(link.outgoingAck) == Ack.Expand(socket.sent[|old(socket.sent)|].acks) + link.outgoingAck
    {
      hide InStep;
      hide WithinMtu;
      hide Ack.WireSize;
      hide Ack.Expand;
      var ack := link.ProcessOutgoingAck(mtu);
      if ack.Some? {
        AcksFit(mtu, ack.value);
        socket.StartSend(Packet.Acks(ack.value));
      }
    }

    /** One pending negative acknowledgement packet, if any. */
    method FlushNack()
      requires Valid()
      modifies socket`sent, link`outgoingNack, link`nacked
      ensures Valid()
      ensures Sent(old(socket.sent), socket.sent, history, mtu)
      ensures |link.outgoingNack| <= |old(link.outgoingNack)|
              && (old(link.outgoingNack) != [] ==> |link.outgoingNack| < |old(link.outgoingNack)|)
      ensures socket.sent != old(socket.sent) ==>
                && |socket.sent| == |old(socket.sent)| + 1 && socket.sent[|old(socket.sent)|].Nacks?
                && old(link.outgoingNack) == Ack.Expand(socket.sent[|old(socket.sent)|].nacks) + link.outgoingNack
    {
      hide InStep;
      hide WithinMtu;
      hide Ack.WireSize;
      hide Ack.Expand;
      var nack := link.ProcessOutgoingNack(mtu);
      if nack.Some? {
        AcksFit(mtu, nack.value);
        socket.StartSend(Packet.Nacks(nack.value));
      }
    }

    /** One unconnected packet, if any. */
    method FlushUnconnected()
      requires Valid()
      modifies socket`sent, link`unconnected
      ensures Valid()
      ensures Sent(old(socket.sent), socket.sent, history, mtu)
      ensures |link.unconnected| <= |old(link.unconnected)|
              && (old(link.unconnected) != [] ==> |link.unconnected| < |old(link.unconnected)|)
    {
      hide InStep;
      if link.unconnected != [] {
        socket.StartSend(Packet.Unconnected);
        link.unconnected := link.unconnected[1..];
      }
    }

    /** The packet half of a flush round: one unconnected packet and one frame set. */
    method FlushPack(now: nat) returns (ready: bool, ghost log: seq<Sender.Action>)
      requires Valid() && seqNumWriteIndex < U24_LIMIT
      modifies this, socket, link`unconnected, buf, resend
      ensures Valid() && resend.lastScan == old(resend.lastScan) && (old(resend.Fresh(now)) ==> resend.Fresh(now))
      ensures Ran(mtu, old(history), log, history) && Orderly(log, {})
      ensures history.accepted == old(history).accepted && Extends(old(history), history)
      ensures Sent(old(socket.sent), socket.sent, history, mtu)
      ensures seqNumWriteIndex + buf.Len() <= old(seqNumWriteIndex) + old(buf.Len())
              && seqNumWriteIndex >= old(seqNumWriteIndex)
      ensures buf.Len() <= old(buf.Len()) && |link.unconnected| <= |old(link.unconnected)|
      ensures ready ==>
                (old(link.unconnected) != [] || old(buf.Len()) > 0 ==>
                  |link.unconnected| + buf.Len() < |old(link.unconnected)| + old(buf.Len()))
      ensures ready ==> socket.budget + 2 >= old(socket.budget)
      ensures !ready ==> socket.budget == 0 && old(socket.budget) < 2
    {
      hide Resend.ResendMap.Fresh;
      hide Valid;
      hide WithinMtu;
      hide Ran;
      hide Orderly;
      hide Extends;
      hide Sent;
      hide OnRecord;
      NothingRan(mtu, history, {});
      NothingSent(socket.sent, history, mtu);
      log := [];
      ready := socket.PollReady();
      if !ready {
        return;
      }
      FlushUnconnected();
      ready := socket.PollReady();
      if !ready {
        return;
      }
      ghost var before, wire := history, socket.sent;
      log := FlushFrames(now);
      SentOne(old(socket.sent), wire, socket.sent, before, history, mtu);
    }

    /** The acknowledgement half of a flush round. */
    method FlushReports(strategy: FlushStrategy) returns (ready: bool)
      requires Valid()
      modifies socket, link`outgoingAck, link`acked, link`outgoingNack, link`nacked
      ensures Valid()
      ensures Sent(old(socket.sent), socket.sent, history, mtu)
      ensures |link.outgoingAck| <= |old(link.outgoingAck)| && |link.outgoingNack| <= |old(link.outgoingNack)|
      ensures ready && strategy.ack && old(link.outgoingAck) != [] ==> |link.outgoingAck| < |old(link.outgoingAck)|
      ensures ready && strategy.nack && old(link.outgoingNack) != [] ==> |link.outgoingNack| < |old(link.outgoingNack)|
      ensures ready ==> socket.budget + 2 == old(socket.budget)
      ensures !ready ==> socket.budget == 0 && old(socket.budget) < 2
    {
      hide Valid;
      hide WithinMtu;
      ready := socket.PollReady();
      if !ready {
        return;
      }
      if strategy.ack {
        FlushAck();
      }
      ready := socket.PollReady();
      if !ready {
        return;
      }
      if strategy.nack {
        FlushNack();
      }
    }

    /** One round of the flush loop; each of up to four packets first asks the socket. */
    method FlushRound(strategy: FlushStrategy, now: nat) returns (ready: bool, ghost log: seq<Sender.Action>)
      requires Valid() && seqNumWriteIndex < U24_LIMIT && Work(strategy) > 0
      modifies this, socket, link`outgoingAck, link`acked, link`outgoingNack, link`nacked, link`unconnected, buf, resend
      ensures Valid() && resend.lastScan == old(resend.lastScan) && (old(resend.Fresh(now)) ==> resend.Fresh(now))
      ensures Ran(mtu, old(history), log, history) && Orderly(log, {})
      ensures history.accepted == old(history).accepted && Extends(old(history), history)
      ensures Sent(old(socket.sent), socket.sent, history, mtu)
      ensures seqNumWriteIndex + buf.Len() <= old(seqNumWriteIndex) + old(buf.Len())
              && seqNumWriteIndex >= old(seqNumWriteIndex)
      ensures ready ==> Work(strategy) < old(Work(strategy)) && socket.budget + 4 >= old(socket.budget)
      ensures !ready ==> socket.budget == 0 && old(socket.budget) < 4
    {
      hide Resend.ResendMap.Fresh;
      hide Valid;
      hide WithinMtu;
      hide Ran;
      hide Orderly;
      NothingRan(mtu, history, {});
      log := [];
      ready := FlushReports(strategy);
      if !ready || !strategy.pack {
        return;
      }
      ghost var wire := socket.sent;
      hide Sent;
      ready, log := FlushPack(now);
      SentThen(old(socket.sent), wire, socket.sent, old(history), history, mtu);
    }

    /**
     * Flush round after round. The loop ends for every strategy: each round shrinks the enabled queues, and
     * a socket that takes four packets per queued item always lets it finish.
     */
    method FlushRounds(strategy: FlushStrategy, now: nat) returns (ready: bool, ghost log: seq<Sender.Action>)
      requires Valid() && seqNumWriteIndex + buf.Len() < U24_LIMIT
      modifies this, socket, link`outgoingAck, link`acked, link`outgoingNack, link`nacked, link`unconnected, buf, resend
      ensures Valid() && resend.lastScan == old(resend.lastScan) && (old(resend.Fresh(now)) ==> resend.Fresh(now))
      ensures Ran(mtu, old(history), log, history) && Orderly(log, {})
      ensures history.accepted == old(history).accepted && Extends(old(history), history)
      ensures Sent(old(socket.sent), socket.sent, history, mtu)
      ensures seqNumWriteIndex + buf.Len() <= old(seqNumWriteIndex) + old(buf.Len())
      ensures ready ==> CheckFlushed(strategy)
      ensures !ready ==> socket.budget == 0 && old(socket.budget) < 4 * old(Work(strategy))
    {
      hide Resend.ResendMap.Fresh;
      hide Work;
      hide CheckFlushed;
      hide Valid;
      hide WithinMtu;
      hide Ran;
      hide Orderly;
      hide Extends;
      hide Sent;
      NothingRan(mtu, history, {});
      NothingSent(socket.sent, history, mtu);
      log := [];
      ready := true;
      ghost var work := Work(strategy);
      while !CheckFlushed(strategy)
        invariant ready && Valid() && resend.lastScan == old(resend.lastScan)
        invariant old(resend.Fresh(now)) ==> resend.Fresh(now)
        invariant Ran(mtu, old(history), log, history) && Orderly(log, {})
        invariant history.accepted == old(history).accepted && Extends(old(history), history)
        invariant Sent(old(socket.sent), socket.sent, history, mtu)
        invariant seqNumWriteIndex + buf.Len() <= old(seqNumWriteIndex) + old(buf.Len())
        invariant Work(strategy) <= work && old(socket.budget) <= socket.budget + 4 * (work - Work(strategy))
        decreases Work(strategy)
      {
        ghost var before, wire := history, socket.sent;
        ghost var more;
        ready, more := FlushRound(strategy, now);
        RanThen(mtu, old(history), log, before, more, history, {});
        SentThen(old(socket.sent), wire, socket.sent, before, history, mtu);
        ExtendsThen(old(history), before, history);
        log := log + more;
        if !ready {
          return;
        }
      }
    }

    /** Try to empty the outgoing buffers, after taking in what the peer reported and what timed out. */
    method TryEmpty(strategy: FlushStrategy, now: nat)
      returns (ready: bool, ghost log: seq<Sender.Action>, ghost work: nat)
      requires Valid() && now >= resend.lastScan && seqNumWriteIndex + Sender.Held(history) < U24_LIMIT
      modifies this, socket, link, buf, resend, resend.estimator
      ensures Valid() && resend.lastScan <= now && resend.Fresh(now)
      ensures Ran(mtu, old(history), log, history) && Orderly(log, NumbersIn(old(link.incomingAck)))
      ensures history.accepted == old(history).accepted && Extends(old(history), history)
      ensures Sent(old(socket.sent), socket.sent, history, mtu)
      ensures seqNumWriteIndex + buf.Len() <= old(seqNumWriteIndex) + old(Sender.Held(history))
              && Sender.Held(history) <= old(Sender.Held(history))
      ensures link.incomingAck == []
      ensures ready ==> CheckFlushed(strategy)
      ensures !ready ==> socket.budget == 0 && old(socket.budget) < 4 * work
      ensures work <= |old(link.outgoingAck)| + |old(link.outgoingNack)| + |old(link.unconnected)|
              + old(Sender.Held(history))
    {
      hide Resend.ResendMap.Fresh;
      hide Work;
      hide CheckFlushed;
      hide NumbersIn;
      hide Valid;
      hide WithinMtu;
      hide Ran;
      hide Orderly;
      hide Extends;
      hide Sent;
      hide Sender.Held;
      Balanced();
      log := ProcessInflight(now);
      ghost var mid, taken, nums := history, log, NumbersIn(old(link.incomingAck));
      SameExtends(old(history), mid);
      NothingSent(socket.sent, mid, mtu);
      RanHeld(mtu, old(history), taken, mid, nums);
      QueueBound();
      WorkBound(strategy);
      work := Work(strategy);
      ghost var more;
      ready, more := FlushRounds(strategy, now);
      OrderlyLess(more, {}, nums);
      RanThen(mtu, old(history), taken, mid, more, history, nums);
      ExtendsThen(old(history), mid, history);
      log := taken + more;
      RanHeld(mtu, old(history), log, history, nums);
    }

    lemma NextIsIndex()
      requires Valid()
      ensures history.next == seqNumWriteIndex
    {
    }

    lemma WorkBound(strategy: FlushStrategy)
      ensures Work(strategy) <= |link.outgoingAck| + |link.outgoingNack| + |link.unconnected| + buf.Len()
    {
    }

    lemma QueueBound()
      requires Valid()
      ensures buf.Len() <= Sender.Held(history)
    {
    }

    lemma Balanced()
      requires Valid()
      ensures Sender.Conserved(history) && Sender.Traced(history)
    {
    }

    /** The resend map holds an entry that has expired, so waiting ends at once. */
    predicate Expired(now: nat)
      reads resend
    {
      exists n :: n in resend.reliable && resend.reliable[n].expiredAt <= now
    }

    /**
     * Close: flush, and wait until nothing is left to be acknowledged. `clock` holds the readings of
     * the clock, one for each turn of the loop; the close is still pending when they run out. Only a
     * strategy that flushes packets makes a completed close mean that nothing is queued; the source
     * asserts as much in debug builds.
     */
    method PollClose(strategy: FlushStrategy, clock: seq<nat>) returns (closed: bool, ghost log: seq<Sender.Action>)
      requires Valid() && seqNumWriteIndex + Turns(Sender.Held(history), |clock| + 1) < U24_LIMIT
      requires forall i :: 0 <= i < |clock| ==> clock[i] >= resend.lastScan
      requires forall i, j :: 0 <= i < j < |clock| ==> clock[i] <= clock[j]
      modifies this, socket, link, buf, resend, resend.estimator
      ensures Valid()
      ensures Ran(mtu, old(history), log, history) && Orderly(log, NumbersIn(old(link.incomingAck)))
      ensures history.accepted == old(history).accepted && Extends(old(history), history)
      ensures Sent(old(socket.sent), socket.sent, history, mtu)
      ensures link.incomingAck == if clock == [] then old(link.incomingAck) else []
      ensures seqNumWriteIndex <= old(seqNumWriteIndex) + Turns(old(Sender.Held(history)), |clock|)
      ensures Sender.Held(history) <= old(Sender.Held(history))
      ensures if clock == [] then resend.lastScan == old(resend.lastScan) else resend.lastScan <= clock[|clock| - 1]
      ensures closed ==>
                history.recorded == map[] && CheckFlushed(strategy) && (strategy.pack ==> history.queued == multiset{})
      ensures !closed ==> clock == [] || socket.budget == 0 || history.recorded != map[]
    {
      hide Turns;
      hide CheckFlushed;
      hide Valid;
      hide WithinMtu;
      hide Ran;
      hide Orderly;
      hide NumbersIn;
      hide Sent;
      hide Extends;
      ghost var nums := NumbersIn(link.incomingAck);
      NothingRan(mtu, history, nums);
      NothingSent(socket.sent, history, mtu);
      hide Sender.Held;
      ghost var held := Sender.Held(history);
      TurnsBound(held, 0, |clock|);
      log := [];
      closed := false;
      for i := 0 to |clock|
        invariant !closed && Valid() && forall k :: i <= k < |clock| ==> clock[k] >= resend.lastScan
        invariant Ran(mtu, old(history), log, history) && Orderly(log, nums)
        invariant i == 0 ==> link.incomingAck == old(link.incomingAck)
        invariant i > 0 ==> link.incomingAck == []
        invariant history.accepted == old(history).accepted && Extends(old(history), history)
        invariant Sent(old(socket.sent), socket.sent, history, mtu)
        invariant seqNumWriteIndex <= old(seqNumWriteIndex) + Turns(held, i) && Sender.Held(history) <= held
        invariant i == 0 ==> resend.lastScan == old(resend.lastScan)
        invariant i > 0 ==> resend.lastScan <= clock[i - 1]
        invariant i > 0 ==> history.recorded != map[]
      {
        ghost var before, wire, acks := history, socket.sent, link.incomingAck;
        ghost var more;
        var turn;
        NoNumbers(acks, nums);
        TurnsBound(held, i, |clock|);
        turn, more := CloseTurn(strategy, clock[i]);
        OrderlyLess(more, NumbersIn(acks), nums);
        RanThen(mtu, old(history), log, before, more, history, nums);
        SentThen(old(socket.sent), wire, socket.sent, before, history, mtu);
        ExtendsThen(old(history), before, history);
        log := log + more;
        if turn != Again {
          closed := turn == Done;
          return;
        }
      }
    }

    /** One turn of a close: flush, and see whether anything is left to be acknowledged or to be resent at once. */
    method CloseTurn(strategy: FlushStrategy, now: nat) returns (turn: CloseTurnResult, ghost log: seq<Sender.Action>)
      requires Valid() && now >= resend.lastScan && seqNumWriteIndex + Sender.Held(history) < U24_LIMIT
      modifies this, socket, link, buf, resend, resend.estimator
      ensures Valid() && resend.lastScan <= now && link.incomingAck == []
      ensures Ran(mtu, old(history), log, history) && Orderly(log, NumbersIn(old(link.incomingAck)))
      ensures history.accepted == old(history).accepted && Extends(old(history), history)
      ensures Sent(old(socket.sent), socket.sent, history, mtu)
      ensures seqNumWriteIndex <= old(seqNumWriteIndex) + old(Sender.Held(history))
              && Sender.Held(history) <= old(Sender.Held(history))
      ensures turn == Done ==>
                history.recorded == map[] && CheckFlushed(strategy) && (strategy.pack ==> history.queued == multiset{})
      ensures turn == Again ==>
                && history.recorded != map[] && now < resend.lastScan + Resend.MAX_SKIP_SCAN_RTO
                && exists n :: n in resend.recent && n in resend.reliable && resend.reliable[n].expiredAt <= now
      ensures turn == Waits ==> socket.budget == 0 || history.recorded != map[]
    {
      hide Valid;
      hide WithinMtu;
      hide Ran;
      hide Orderly;
      hide NumbersIn;
      hide Sent;
      hide Extends;
      hide CheckFlushed;
      hide Sender.Held;
      ghost var work;
      var ready;
      ready, log, work := TryEmpty(strategy, now);
      if !ready {
        return Waits, log;
      }
      ready := socket.PollReady();
      if !ready {
        return Waits, log;
      }
      if resend.IsEmpty() {
        Drained(strategy);
        return Done, log;
      }
      NotDrained();
      turn := if Expired(now) then Again else Waits;
    }

    lemma NotDrained()
      requires Valid() && !resend.IsEmpty()
      ensures history.recorded != map[]
    {
      var n :| n in resend.reliable;
      assert n in Resend.FrameMap(resend.reliable);
    }

    lemma NothingQueued(strategy: FlushStrategy)
      requires Valid() && CheckFlushed(strategy)
      ensures strategy.pack ==> history.queued == multiset{}
      ensures mtu >= 7
    {
      assert strategy.pack ==> |buf.Contents()| == 0;
    }

    lemma Drained(strategy: FlushStrategy)
      requires Valid() && CheckFlushed(strategy) && resend.IsEmpty()
      ensures history.recorded == map[] && (strategy.pack ==> history.queued == multiset{})
    {
      NothingQueued(strategy);
      assert Resend.FrameMap(map[]) == map[];
    }
  }

  datatype CloseTurnResult = Done | Again | Waits

  /** Frames that so many turns of a close can transmit at most. */
  function Turns(accepted: nat, turns: nat): (n: nat) {
    accepted * turns
  }

  lemma TurnsBound(a: nat, i: nat, n: nat)
    ensures Turns(a, 0) == 0 && Turns(a, i + 1) == Turns(a, i) + a
    ensures i < n ==> Turns(a, i + 1) <= Turns(a, n)
    ensures Turns(a, n + 1) == Turns(a, n) + a
  {
  }

  lemma NoNumbers(acks: seq<(seq<Ack.Record>, nat)>, nums: set<nat>)
    ensures acks == [] ==> NumbersIn(acks) <= nums
  {
  }

  lemma RanHeld(mtu: nat, v: Sender.View, log: seq<Sender.Action>, v': Sender.View, nums: set<nat>)
    requires Sender.Conserved(v) && Sender.Traced(v) && Ran(mtu, v, log, v') && Orderly(log, nums)
    ensures Sender.Held(v') <= Sender.Held(v)
  {
    hide Sender.Conserved;
    hide Sender.Traced;
    hide Sender.Held;
    hide Packing;
    Sender.RunHeld(v, log);
  }

  lemma SameExtends(v: Sender.View, v': Sender.View)
    requires SameRecord(v, v')
    ensures Extends(v, v')
  {
  }

  lemma ExtendsThen(a: Sender.View, b: Sender.View, c: Sender.View)
    requires Extends(a, b) && Extends(b, c)
    ensures Extends(a, c)
  {
  }

  /** A transmission goes on record and leaves the earlier ones as they were. */
  lemma OnTheRecord(v: Sender.View, frames: seq<Frame>)
    requires v.next !in v.sent && v.next < U24_LIMIT
    ensures var v' := v.Transmit(frames);
            && v'.accepted == v.accepted && Extends(v, v')
            && OnRecord(v', Packet.Frames(Codec.FrameSet(v.next, frames)))
  {
  }

  lemma NothingSent(wire: seq<Packet.Packet>, v: Sender.View, mtu: nat)
    ensures Sent(wire, wire, v, mtu) && Extends(v, v)
  {
  }

  lemma SentOne(a: seq<Packet.Packet>, b: seq<Packet.Packet>, c: seq<Packet.Packet>, v: Sender.View, v': Sender.View,
                mtu: nat)
    requires Sent(a, b, v, mtu) && Extends(v, v')
    requires c == b || (|c| == |b| + 1 && c[..|b|] == b && WithinMtu(mtu, c[|b|]) && OnRecord(v', c[|b|]))
    ensures Sent(a, c, v', mtu)
  {
    hide WithinMtu;
    hide OnRecord;
    assert Sent(b, c, v', mtu);
    SentThen(a, b, c, v, v', mtu);
  }

  lemma SentThen(a: seq<Packet.Packet>, b: seq<Packet.Packet>, c: seq<Packet.Packet>, v: Sender.View, v': Sender.View,
                 mtu: nat)
    requires Sent(a, b, v, mtu) && Sent(b, c, v', mtu) && Extends(v, v')
    ensures Sent(a, c, v', mtu)
  {
    hide WithinMtu;
    forall i | |a| <= i < |c|
      ensures WithinMtu(mtu, c[i]) && OnRecord(v', c[i])
    {
      if i < |b| {
        assert c[i] == b[i];
      }
    }
  }

  /** What a step added to the wire is within the MTU and on record. */
  ghost predicate Sent(before: seq<Packet.Packet>, after: seq<Packet.Packet>, v: Sender.View, mtu: nat) {
    && before <= after
    && forall i :: |before| <= i < |after| ==> WithinMtu(mtu, after[i]) && OnRecord(v, after[i])
  }

  /** The history agrees with the fields, conserves every accepted frame, and all of those fit the MTU. */
  ghost predicate InStep(v: Sender.View, queued: multiset<Frame>, recorded: map<nat, seq<Frame>>, next: nat, mtu: nat) {
    && v.queued == queued && v.recorded == recorded && v.next == next
    && Sender.Conserved(v) && Sender.Traced(v)
    && AllFit(mtu, v.accepted)
  }

  /** A set packed off the waiting frames: empty only when none waits, within the MTU, announcing its fields. */
  ghost predicate Popped(before: multiset<Frame>, after: multiset<Frame>, frames: seq<Frame>, mtu: nat) {
    && multiset(frames) <= before && after == before - multiset(frames) && |after| + |frames| == |before|
    && (frames == [] ==> before == multiset{} && after == before)
    && Packs(mtu, before, frames)
    && (forall f :: f in frames ==> Codec.FieldsMatch(f))
  }

  lemma InStepNext(v: Sender.View, queued: multiset<Frame>, recorded: map<nat, seq<Frame>>, next: nat, mtu: nat)
    requires InStep(v, queued, recorded, next, mtu)
    ensures v.next == next && next !in v.sent && v.queued == queued && v.recorded == recorded
  {
  }

  lemma InStepFits(v: Sender.View, queued: multiset<Frame>, recorded: map<nat, seq<Frame>>, next: nat, mtu: nat)
    requires InStep(v, queued, recorded, next, mtu)
    ensures AllFit(mtu, queued) && |queued| <= |v.accepted|
  {
    assert queued <= v.accepted;
    assert v.accepted == queued + (v.accepted - queued);
  }

  lemma InStepAccept(v: Sender.View, queued: multiset<Frame>, recorded: map<nat, seq<Frame>>, next: nat, mtu: nat,
                     f: Frame)
    requires InStep(v, queued, recorded, next, mtu) && Fits(mtu, f)
    ensures InStep(v.Accept(f), queued + multiset{f}, recorded, next, mtu)
  {
    hide Sender.Conserved;
    hide Sender.Traced;
    Sender.AcceptConserves(v, f);
    Sender.StepTraced(v, Sender.Accepting(f));
  }

  lemma InStepAck(v: Sender.View, queued: multiset<Frame>, m: Resend.Entries, next: nat, mtu: nat,
                  e: Estimator.Estimate, nums: seq<nat>, at: nat)
    requires InStep(v, queued, Resend.FrameMap(m), next, mtu)
    ensures var log := Resend.Confirms(nums);
            && InStep(Sender.Replay(v, log), queued, Resend.FrameMap(Resend.AckAll(m, e, nums, at).0), next, mtu)
            && Ran(mtu, v, log, Sender.Replay(v, log)) && SameRecord(v, Sender.Replay(v, log))
  {
    hide Sender.Conserved;
    hide Sender.Traced;
    hide Sender.Replay;
    hide Sender.IsRun;
    hide Resend.AckAll;
    Resend.AckIsConfirm(v, m, e, nums, at);
    Sender.RunConserves(v, Resend.Confirms(nums));
    NothingPacked(mtu, v, Resend.Confirms(nums));
    MovesAcceptNothing(v, nums);
  }

  lemma InStepLose(v: Sender.View, t: Buffer.Tiers, m: Resend.Entries, next: nat, mtu: nat, nums: seq<nat>,
                   t': Buffer.Tiers, m': Resend.Entries)
    requires InStep(v, t.Contents(), Resend.FrameMap(m), next, mtu)
    requires Resend.Lost(m, t.resend, nums, m', t'.resend) && t' == t.(resend := t'.resend)
    ensures var log := Resend.Requeues(nums);
            && InStep(Sender.Replay(v, log), t'.Contents(), Resend.FrameMap(m'), next, mtu)
            && Ran(mtu, v, log, Sender.Replay(v, log)) && Orderly(log, {}) && SameRecord(v, Sender.Replay(v, log))
  {
    hide Sender.Conserved;
    hide Sender.Traced;
    hide Sender.Replay;
    hide Sender.IsRun;
    hide Resend.LoseAll;
    hide Buffer.FramesOf;
    Resend.LoseIsRequeue(v, m, nums);
    Sender.RunConserves(v, Resend.Requeues(nums));
    NothingPacked(mtu, v, Resend.Requeues(nums));
    MovesAcceptNothing(v, nums);
    Buffer.MoreToResend(t, t', Resend.LoseAll(m, nums).1);
  }

  lemma InStepTransmit(v: Sender.View, queued: multiset<Frame>, after: multiset<Frame>, recorded: map<nat, seq<Frame>>,
                       next: nat, mtu: nat, frames: seq<Frame>)
    requires InStep(v, queued, recorded, next, mtu) && Popped(queued, after, frames, mtu) && frames != []
    ensures var v', log := v.Transmit(frames), [Sender.Transmitting(frames)];
            && InStep(v', after, if Sender.AnyReliable(frames) then recorded[next := frames] else recorded,
                      next + 1, mtu)
            && Ran(mtu, v, log, v') && Orderly(log, {})
  {
    hide Sender.Conserved;
    hide Sender.Traced;
    hide Sender.AnyReliable;
    hide Ran;
    var a := Sender.Transmitting(frames);
    Sender.StepConserves(v, a);
    Sender.StepTraced(v, a);
    OneStep(mtu, v, a);
  }

  lemma OneStep(mtu: nat, v: Sender.View, a: Sender.Action)
    requires Sender.Enabled(v, a) && (a.Transmitting? ==> Packs(mtu, v.queued, a.frames))
    ensures Ran(mtu, v, [a], Sender.Apply(v, a))
  {
    hide Packs;
    hide Sender.Apply;
    assert [a][..|[a]| - 1] == [];
    assert Packing(mtu, v, []) && Sender.IsRun(v, []) && Sender.Replay(v, []) == v;
  }

  lemma ServedPops(before: Buffer.Tiers, after: Buffer.Tiers, p: Buffer.Packed, mtu: nat)
    requires mtu >= FRAME_SET_HEADER_SIZE && AllFit(mtu, before.Contents())
             && Buffer.Served(before, after, p, mtu - FRAME_SET_HEADER_SIZE)
    ensures Popped(before.Contents(), after.Contents(), p.Frames(), mtu)
  {
    hide Buffer.Served;
    hide Buffer.Tiers.Contents;
    hide Buffer.Packed.Frames;
    hide OneSet;
    Buffer.ServedFacts(before, after, p, mtu - FRAME_SET_HEADER_SIZE);
    if OneSet(mtu, before.Contents()) {
      AllServed(before, after, p, mtu);
    }
    PackedFit(mtu, before.Contents(), after, p.Frames());
    Taken(after.Contents(), p.Frames(), before.Contents());
  }

  lemma AllServed(before: Buffer.Tiers, after: Buffer.Tiers, p: Buffer.Packed, mtu: nat)
    requires mtu >= FRAME_SET_HEADER_SIZE && OneSet(mtu, before.Contents())
             && Buffer.Served(before, after, p, mtu - FRAME_SET_HEADER_SIZE)
    ensures multiset(p.Frames()) == before.Contents()
  {
    hide Buffer.Served;
    hide Buffer.Tiers.Contents;
    hide Buffer.Packed.Frames;
    var frames :| multiset(frames) == before.Contents() && Codec.SizeOf(frames) + FRAME_SET_HEADER_SIZE <= mtu;
    Buffer.ServedWhole(before, after, p, mtu - FRAME_SET_HEADER_SIZE, frames);
  }

  lemma Taken(after: multiset<Frame>, frames: seq<Frame>, before: multiset<Frame>)
    requires after + multiset(frames) == before
    ensures after == before - multiset(frames) && multiset(frames) <= before && |after| + |frames| == |before|
  {
    assert |after + multiset(frames)| == |after| + |multiset(frames)|;
  }

  /** Earlier transmissions stay what they were. */
  ghost predicate Extends(v: Sender.View, v': Sender.View) {
    forall n :: n in v.sent ==> n in v'.sent && v'.sent[n] == v.sent[n]
  }

  /** A set packed off frames that each fit: empty only when nothing waits, and every frame announces its fields. */
  lemma PackedFit(mtu: nat, before: multiset<Frame>, after: Buffer.Tiers, frames: seq<Frame>)
    requires mtu >= FRAME_SET_HEADER_SIZE && AllFit(mtu, before) && after.Contents() + multiset(frames) == before
    requires frames == [] ==> after.Blocked(mtu - FRAME_SET_HEADER_SIZE)
    ensures frames == [] <==> before == multiset{}
    ensures forall f :: f in frames ==> Codec.FieldsMatch(f)
  {
    if frames == [] {
      assert after.Contents() == before;
      Buffer.NeverBlocked(after, mtu - FRAME_SET_HEADER_SIZE);
    } else {
      assert frames[0] in multiset(frames);
    }
    forall f | f in frames
      ensures Codec.FieldsMatch(f)
    {
      assert f in multiset(frames);
      assert f in before;
    }
  }

  /** The log leads from one history to another. */
  ghost predicate Ran(mtu: nat, before: Sender.View, log: seq<Sender.Action>, after: Sender.View) {
    Sender.IsRun(before, log) && after == Sender.Replay(before, log) && Packing(mtu, before, log)
  }

  /** These frames can go out in one set. */
  ghost predicate OneSet(mtu: nat, queued: multiset<Frame>) {
    exists frames :: multiset(frames) == queued && Codec.SizeOf(frames) + FRAME_SET_HEADER_SIZE <= mtu
  }

  /** A set as the buffer packs it: within the MTU, and holding all that waits when that fits one set. */
  ghost predicate Packs(mtu: nat, queued: multiset<Frame>, frames: seq<Frame>) {
    && Codec.SizeOf(frames) + FRAME_SET_HEADER_SIZE <= mtu
    && (OneSet(mtu, queued) ==> multiset(frames) == queued)
  }

  /** Every transmission of the log is a set as the buffer packs it. */
  ghost predicate Packing(mtu: nat, v: Sender.View, log: seq<Sender.Action>) {
    log == [] || (Packing(mtu, v, log[..|log| - 1])
                  && (log[|log| - 1].Transmitting? ==>
                       Packs(mtu, Sender.Replay(v, log[..|log| - 1]).queued, log[|log| - 1].frames)))
  }

  lemma {:induction false} PackingAppend(mtu: nat, v: Sender.View, a: seq<Sender.Action>, b: seq<Sender.Action>)
    requires Sender.IsRun(v, a) && Sender.IsRun(Sender.Replay(v, a), b)
    requires Packing(mtu, v, a) && Packing(mtu, Sender.Replay(v, a), b)
    ensures Packing(mtu, v, a + b)
    decreases |b|
  {
    hide Packs;
    hide Sender.Replay;
    if b == [] {
      assert a + b == a;
    } else {
      var front := b[..|b| - 1];
      PackingAppend(mtu, v, a, front);
      Sender.RunAppend(v, a, front);
      assert (a + b)[..|a + b| - 1] == a + front;
    }
  }

  lemma {:induction false} NothingPacked(mtu: nat, v: Sender.View, log: seq<Sender.Action>)
    requires forall i :: 0 <= i < |log| ==> !log[i].Transmitting?
    ensures Packing(mtu, v, log)
  {
    if log != [] {
      NothingPacked(mtu, v, log[..|log| - 1]);
    }
  }

  lemma NothingRan(mtu: nat, v: Sender.View, nums: set<nat>)
    ensures Ran(mtu, v, [], v) && Orderly([], nums)
  {
  }

  lemma RanThen(mtu: nat, a: Sender.View, log: seq<Sender.Action>, b: Sender.View, more: seq<Sender.Action>,
                c: Sender.View, nums: set<nat>)
    requires Ran(mtu, a, log, b) && Ran(mtu, b, more, c) && Orderly(log, nums) && Orderly(more, nums)
    ensures Ran(mtu, a, log + more, c) && Orderly(log + more, nums)
  {
    hide Packing;
    hide Sender.Replay;
    Sender.RunAppend(a, log, more);
    PackingAppend(mtu, a, log, more);
  }

  lemma OrderlyLess(log: seq<Sender.Action>, less: set<nat>, nums: set<nat>)
    requires Orderly(log, less) && less <= nums
    ensures Orderly(log, nums)
  {
  }

  lemma BatchConfirms(queue: seq<(seq<Ack.Record>, nat)>, i: nat)
    requires i < |queue|
    ensures Orderly(Resend.Confirms(Ack.Expand(queue[i].0)), NumbersIn(queue))
  {
    var nums := Ack.Expand(queue[i].0);
    forall k | 0 <= k < |nums|
      ensures nums[k] in NumbersIn(queue)
    {
      assert nums[k] in Ack.Expand(queue[i].0);
    }
  }

  /** No frame was accepted and nothing was transmitted. */
  ghost predicate SameRecord(v: Sender.View, v': Sender.View) {
    v'.accepted == v.accepted && v'.sent == v.sent
  }

  lemma {:induction false} MovesAcceptNothing(v: Sender.View, nums: seq<nat>)
    ensures SameRecord(v, Sender.Replay(v, Resend.Confirms(nums)))
    ensures SameRecord(v, Sender.Replay(v, Resend.Requeues(nums)))
  {
    if nums != [] {
      var front := nums[..|nums| - 1];
      MovesAcceptNothing(v, front);
      assert Resend.Confirms(nums)[..|nums| - 1] == Resend.Confirms(front);
      assert Resend.Requeues(nums)[..|nums| - 1] == Resend.Requeues(front);
    }
  }
}
