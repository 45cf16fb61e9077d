/**
 * The sending end of a connection: the encoder on top of the reliable layer, with the run of the whole
 * system that its calls and the peer's doings make up.
 */
module Endpoint {
  import opened Types
  import opened Book
  import Ack
  import Codec
  import Delivery
  import Drain
  import Encoder
  import Link
  import Packet
  import Reliable
  import Sender
  import System

  /** Frame sets handed to the socket are on the network. */
  ghost predicate Wired(s: System.State, packets: seq<Packet.Packet>) {
    forall i :: 0 <= i < |packets| ==> WiredPacket(s, packets[i])
  }

  ghost predicate WiredPacket(s: System.State, p: Packet.Packet) {
    p.Frames? ==> System.OnWire(s, p.frameSet.seqNum, p.frameSet.frames)
  }

  /** The trace is a run of the system, and ends in the state the fields show. */
  ghost predicate Tied(mtu: nat, channels: nat, trace: seq<System.Step>, counters: Encoder.Counters, v: Sender.View,
                       heard: set<nat>, packets: seq<Packet.Packet>) {
    && mtu <= System.MAX_MTU && System.IsRun(mtu, System.Initial(channels), trace)
    && var s := System.Final(mtu, System.Initial(channels), trace);
       s.counters == counters && s.sender == v && heard <= s.heard && Wired(s, packets)
  }

  /** Every frame of every reliable message accepted so far has arrived at the peer's open route. */
  ghost predicate AllReceived(s: System.State) {
    && WellBook(s.book)
    && Delivery.AllArrived(s.book, s.arrived)
  }

  lemma TiedInitially(mtu: nat, channels: nat)
    requires mtu <= System.MAX_MTU
    ensures Tied(mtu, channels, [], Encoder.Initial(channels), Sender.INITIAL, {}, [])
  {
  }

  lemma WiredGrows(s: System.State, s': System.State, packets: seq<Packet.Packet>)
    requires Wired(s, packets) && s.wire <= s'.wire
    ensures Wired(s', packets)
  {
    hide Packet.Write;
    forall i | 0 <= i < |packets|
      ensures WiredPacket(s', packets[i])
    {
      assert WiredPacket(s, packets[i]);
    }
  }

  /** One step that leaves the sender and its counters alone. */
  lemma TiedStep(mtu: nat, channels: nat, trace: seq<System.Step>, counters: Encoder.Counters, v: Sender.View,
                 heard: set<nat>, packets: seq<Packet.Packet>,
                 step: System.Step, heard': set<nat>)
    requires Tied(mtu, channels, trace, counters, v, heard, packets)
    requires var s := System.Final(mtu, System.Initial(channels), trace);
             && System.Enabled(mtu, s, step)
             && (step.Receive? || step.ReportAcks? || step.ReportNacks? || step.Hear? || step.DropRoute?)
             && heard' <= System.Next(mtu, s, step).heard
    ensures Tied(mtu, channels, trace + [step], counters, v, heard', packets)
    ensures System.Final(mtu, System.Initial(channels), trace + [step])
            == System.Next(mtu, System.Final(mtu, System.Initial(channels), trace), step)
  {
    hide System.IsRun;
    hide System.Final;
    hide System.Packed;
    hide Wired;
    hide Packet.Write;
    hide Packet.Read;
    var s := System.Final(mtu, System.Initial(channels), trace);
    System.OneStep(mtu, s, step);
    System.RunAppend(mtu, System.Initial(channels), trace, [step]);
    WiredGrows(s, System.Next(mtu, s, step), packets);
  }

  lemma TiedSend(mtu: nat, channels: nat, trace: seq<System.Step>, counters: Encoder.Counters, v: Sender.View,
                 heard: set<nat>, packets: seq<Packet.Packet>,
                 msg: Message)
    requires Tied(mtu, channels, trace, counters, v, heard, packets)
    requires System.Enabled(mtu, System.Final(mtu, System.Initial(channels), trace), System.SendMessage(msg))
    ensures Tied(mtu, channels, trace + [System.SendMessage(msg)], Encoder.After(mtu, counters, msg),
                 Sender.Replay(v, System.Accepts(Encoder.Frames(mtu, counters, msg))), heard, packets)
    ensures System.Final(mtu, System.Initial(channels), trace + [System.SendMessage(msg)])
            == System.Next(mtu, System.Final(mtu, System.Initial(channels), trace), System.SendMessage(msg))
  {
    hide System.IsRun;
    hide System.Final;
    hide System.Packed;
    hide Wired;
    hide Encoder.After;
    hide Encoder.Frames;
    hide Sender.Replay;
    var s := System.Final(mtu, System.Initial(channels), trace);
    var step := System.SendMessage(msg);
    System.OneStep(mtu, s, step);
    System.RunAppend(mtu, System.Initial(channels), trace, [step]);
    WiredGrows(s, System.Next(mtu, s, step), packets);
  }

  /** What the reliable layer did, as steps of the system. */
  lemma TiedLayer(mtu: nat, channels: nat, trace: seq<System.Step>, counters: Encoder.Counters, v: Sender.View,
                  heard: set<nat>, packets: seq<Packet.Packet>,
                  log: seq<Sender.Action>, v': Sender.View, heard': set<nat>, packets': seq<Packet.Packet>)
    requires Tied(mtu, channels, trace, counters, v, heard, packets)
    requires Reliable.Ran(mtu, v, log, v') && Reliable.Orderly(log, heard) && v'.next < U24_LIMIT
    requires Reliable.Sent(packets, packets', v', mtu) && heard' <= heard
    ensures (forall i :: 0 <= i < |log| ==> !log[i].Accepting?)
    ensures Tied(mtu, channels, trace + System.StepsOf(log), counters, v', heard', packets')
    ensures var s, s' := System.Final(mtu, System.Initial(channels), trace),
            System.Final(mtu, System.Initial(channels), trace + System.StepsOf(log));
            s'.book == s.book && s'.arrived == s.arrived
    ensures v'.queued == multiset{} && v'.recorded == map[] ==>
              AllReceived(System.Final(mtu, System.Initial(channels), trace + System.StepsOf(log)))
  {
    hide System.IsRun;
    hide System.Final;
    hide System.Packed;
    hide System.Inv;
    hide Reliable.Ran;
    hide Reliable.Orderly;
    hide Reliable.Sent;
    hide Wired;
    var s := System.Final(mtu, System.Initial(channels), trace);
    Reliable.OrderlyLess(log, heard, s.heard);
    System.LayerRefinesSystem(mtu, s, log, v');
    System.RunAppend(mtu, System.Initial(channels), trace, System.StepsOf(log));
    var s' := System.Final(mtu, System.Initial(channels), trace + System.StepsOf(log));
    System.InitialInv(channels);
    System.RunInv(mtu, System.Initial(channels), trace + System.StepsOf(log));
    System.AllOnWire(s');
    WiredGrows(s, s', packets);
    WiredSent(s', packets, packets', mtu);
    if v'.queued == multiset{} && v'.recorded == map[] {
      System.CompletedClose(mtu, channels, trace, log, v');
    }
  }

  lemma WiredSent(s: System.State, packets: seq<Packet.Packet>, packets': seq<Packet.Packet>, mtu: nat)
    requires Wired(s, packets) && Reliable.Sent(packets, packets', s.sender, mtu)
    requires forall n :: n in s.sender.sent ==> System.OnWire(s, n, s.sender.sent[n])
    ensures Wired(s, packets')
  {
    hide System.OnWire;
    hide Reliable.WithinMtu;
    forall i | 0 <= i < |packets'|
      ensures WiredPacket(s, packets'[i])
    {
      if i < |packets| {
        assert WiredPacket(s, packets[i]);
      } else {
        assert Reliable.OnRecord(s.sender, packets'[i]);
      }
    }
  }

  lemma HeardNow(queue: seq<(seq<Ack.Record>, nat)>, queue': seq<(seq<Ack.Record>, nat)>, records: seq<Ack.Record>,
                 now: nat)
    requires exists from: nat :: from <= |queue| && queue' == queue[from..] + [(records, now)]
    ensures Reliable.NumbersIn(queue') <= Reliable.NumbersIn(queue) + Link.Elements(Ack.Expand(records))
  {
    hide Ack.Expand;
    var from: nat :| from <= |queue| && queue' == queue[from..] + [(records, now)];
    forall n | n in Reliable.NumbersIn(queue')
      ensures n in Reliable.NumbersIn(queue) + Link.Elements(Ack.Expand(records))
    {
      var i :| 0 <= i < |queue'| && n in Ack.Expand(queue'[i].0);
      if i < |queue| - from {
        assert queue'[i] == queue[from + i];
        assert n in Ack.Expand(queue[from + i].0);
      }
    }
  }

  class Endpoint {
    const encoder: Encoder.Fragmenter
    const layer: Reliable.ReliableLayer
    const channels: nat
    ghost var trace: seq<System.Step>

    ghost predicate Valid()
      reads this, encoder, layer, layer.socket, layer.link, layer.buf, layer.resend
    {
      && layer.Valid() && encoder.mtu == layer.mtu && encoder.buf == []
      && Tied(layer.mtu, channels, trace, encoder.State(), layer.history, Reliable.NumbersIn(layer.link.incomingAck),
           layer.socket.sent)
    }

    /** The state of the whole system. */
    ghost function Now(): (s: System.State)
      requires Valid()
      reads this, encoder, layer, layer.socket, layer.link, layer.buf, layer.resend
    {
      System.Final(layer.mtu, System.Initial(channels), trace)
    }

    /** The message can be accepted: channel, MTU and counters allow it. */
    ghost predicate Accepts(msg: Message)
      requires Valid()
      reads this, encoder, layer, layer.socket, layer.link, layer.buf, layer.resend
    {
      System.Enabled(layer.mtu, Now(), System.SendMessage(msg))
    }

    lemma IsRun()
      requires Valid()
      ensures layer.mtu <= System.MAX_MTU && System.IsRun(layer.mtu, System.Initial(channels), trace)
      ensures Now().sender == layer.history && Now().counters == encoder.State()
    {
    }

    constructor (socket: Reliable.Socket, link: Link.TransferLink, mtu: U16, channels: nat, now: nat)
      requires link.Valid() && link.incomingAck == [] && socket.sent == [] && 7 <= mtu <= System.MAX_MTU
      ensures Valid() && trace == [] && this.channels == channels && layer.socket == socket && layer.link == link
              && layer.mtu == mtu
      ensures fresh(encoder) && fresh(layer) && fresh(layer.buf) && fresh(layer.resend) && fresh(layer.resend.estimator)
      ensures layer.resend.lastScan == now
    {
      encoder := new Encoder.Fragmenter(mtu, channels);
      layer := new Reliable.ReliableLayer(socket, link, mtu, now);
      this.channels := channels;
      trace := [];
      new;
      TiedInitially(mtu, channels);
      assert Reliable.NumbersIn([]) == {};
    }

    /** The layer below is always ready; it first takes in what the peer reported and what timed out. */
    method PollReady(now: nat)
      requires Valid() && now >= layer.resend.lastScan
      modifies this`trace, layer`history, layer.link`incomingAck, layer.link`incomingNack, layer.buf`resend,
               layer.resend, layer.resend.estimator
      ensures Valid() && layer.resend.lastScan <= now && layer.link.incomingAck == [] && layer.resend.Fresh(now)
      ensures old(trace) <= trace && forall i :: |old(trace)| <= i < |trace| ==> trace[i].Confirm? || trace[i].Requeue?
      ensures Now().book == old(Now()).book && Now().arrived == old(Now()).arrived
              && Now().counters == old(Now()).counters
      ensures Sender.Held(layer.history) <= old(Sender.Held(layer.history))
    {
      hide Reliable.ReliableLayer.Valid;
      hide Tied;
      hide Reliable.Ran;
      hide Reliable.Orderly;
      hide Reliable.Sent;
      hide Reliable.NumbersIn;
      hide Sender.Held;
      hide Reliable.Moves;
      hide System.StepsOf;
      ghost var v, heard, packets := layer.history, Reliable.NumbersIn(layer.link.incomingAck), layer.socket.sent;
      layer.Balanced();
      ghost var log := layer.ProcessInflight(now);
      NoneHeard();
      TiedMoves(layer.mtu, channels, trace, encoder.State(), v, heard, packets, log, layer.history);
      trace := trace + System.StepsOf(log);
    }

    /**
     * Hand the encoder's frames to the layer below, which takes in what the peer reported and what
     * timed out before each of them. In the history, that comes to taking in all of it first.
     */
    method PollEmpty(now: nat) returns (ghost log: seq<Sender.Action>)
      requires layer.Valid() && forall i :: 0 <= i < |encoder.buf| ==> Reliable.Fits(layer.mtu, encoder.buf[i].1)
      requires now >= layer.resend.lastScan
      modifies encoder`buf, layer`history, layer.link`incomingAck, layer.link`incomingNack, layer.buf, layer.resend,
               layer.resend.estimator
      ensures layer.Valid() && encoder.buf == [] && layer.resend.lastScan <= now
      ensures layer.link.incomingAck == if old(encoder.buf) == [] then old(layer.link.incomingAck) else []
      ensures Reliable.Moves(log) && Reliable.Orderly(log, Reliable.NumbersIn(old(layer.link.incomingAck)))
      ensures layer.history == System.WithAccepted(Sender.Replay(old(layer.history), log), Untagged(old(encoder.buf)))
    {
      hide Reliable.ReliableLayer.Valid;
      hide Reliable.Fits;
      hide Reliable.Ran;
      hide Reliable.Orderly;
      hide Reliable.Moves;
      hide Reliable.NumbersIn;
      hide System.WithAccepted;
      hide Sender.Replay;
      ghost var all := Untagged(encoder.buf);
      ghost var nums := Reliable.NumbersIn(layer.link.incomingAck);
      ghost var i: nat := 0;
      log := [];
      HandNothing(layer.history, nums);
      assert all[..0] == [];
      while encoder.buf != []
        invariant layer.Valid() && i <= |old(encoder.buf)| && encoder.buf == old(encoder.buf)[i..]
                  && layer.resend.lastScan <= now
        invariant layer.link.incomingAck == if i == 0 then old(layer.link.incomingAck) else []
        invariant Reliable.Moves(log) && Reliable.Orderly(log, nums)
        invariant layer.history == System.WithAccepted(Sender.Replay(old(layer.history), log), all[..i])
        decreases |encoder.buf|
      {
        ghost var heard := Reliable.NumbersIn(layer.link.incomingAck);
        ghost var before := layer.history;
        Reliable.NoNumbers(layer.link.incomingAck, nums);
        ghost var more := layer.ProcessInflight(now);
        Reliable.OrderlyLess(more, heard, nums);
        HandNext(layer.mtu, old(layer.history), log, more, all, i, before, layer.history, nums);
        log := log + more;
        var item := encoder.buf[0];
        layer.StartSend(item.0, item.1);
        encoder.buf := encoder.buf[1..];
        i := i + 1;
      }
      assert all[..i] == all;
    }

    /** Accept a message and hand its frames down; `moves` is what was taken in meanwhile. */
    method Send(msg: Message, now: nat) returns (ghost moves: seq<System.Step>)
      requires Valid() && Accepts(msg) && now >= layer.resend.lastScan
      modifies this`trace, encoder, layer`history, layer.link`incomingAck, layer.link`incomingNack, layer.buf,
               layer.resend, layer.resend.estimator
      ensures Valid() && trace == old(trace) + moves + [System.SendMessage(msg)]
      ensures forall i :: 0 <= i < |moves| ==> moves[i].Confirm? || moves[i].Requeue?
      ensures Now().book == old(Now()).book + [Entry(layer.mtu, old(encoder.State()), msg)]
      ensures Now().counters == Encoder.After(layer.mtu, old(encoder.State()), msg)
              && Now().arrived == old(Now()).arrived
      ensures layer.seqNumWriteIndex == old(layer.seqNumWriteIndex) && layer.resend.lastScan <= now
      ensures Sender.Held(layer.history)
              <= old(Sender.Held(layer.history)) + |Encoder.Frames(layer.mtu, old(encoder.State()), msg)|
    {
      hide Reliable.ReliableLayer.Valid;
      hide Tied;
      hide Encoder.CanSend;
      hide Encoder.After;
      hide Encoder.Frames;
      hide Encoder.Tagged;
      hide System.Enabled;
      hide System.Next;
      hide Sender.Replay;
      hide Sender.Held;
      hide Reliable.NumbersIn;
      hide Reliable.Fits;
      hide Reliable.Moves;
      hide Reliable.Orderly;
      hide System.WithAccepted;
      hide Entry;
      ghost var st, v, heard, packets := encoder.State(), layer.history, Reliable.NumbersIn(layer.link.incomingAck),
          layer.socket.sent;
      SendNeeds(layer.mtu, Now(), msg);
      TiedState(layer.mtu, channels, trace, st, v, heard, packets);
      layer.Balanced();
      ghost var frames := Encoder.Frames(layer.mtu, st, msg);
      FramesHandDown(layer.mtu, st, msg);
      encoder.StartSend(msg);
      assert Untagged(encoder.buf) == frames;
      ghost var log := PollEmpty(now);
      NoneHeard();
      TiedMovesSend(layer.mtu, channels, trace, st, v, heard, packets, log, msg);
      moves := System.StepsOf(log);
      trace := trace + moves + [System.SendMessage(msg)];
    }

    /** Buffer a report by its kind; what cannot be read is dropped. */
    method Take(packet: Result<Packet.Packet>, now: nat)
      requires layer.Valid()
      modifies layer.link`incomingAck, layer.link`incomingNack
      ensures layer.Valid()
      ensures if packet.Ok? && packet.value.Acks?
              then Reliable.NumbersIn(layer.link.incomingAck)
                  <= Reliable.NumbersIn(old(layer.link.incomingAck)) + Link.Elements(Ack.Expand(packet.value.acks))
              else layer.link.incomingAck == old(layer.link.incomingAck)
    {
      hide Reliable.InStep;
      hide Reliable.NumbersIn;
      hide Ack.Expand;
      if packet.Ok? && packet.value.Acks? {
        layer.link.IncomingAck(packet.value.acks, now);
        Buffered(old(layer.link.incomingAck), layer.link.incomingAck, packet.value.acks, now);
        HeardNow(old(layer.link.incomingAck), layer.link.incomingAck, packet.value.acks, now);
      } else if packet.Ok? && packet.value.Nacks? {
        layer.link.IncomingNack(packet.value.nacks);
      }
    }

    /** A report of the peer comes in: acknowledgements are buffered for the next flush. */
    method Hear(report: Codec.Bytes, now: nat)
      requires Valid() && System.Enabled(layer.mtu, Now(), System.Hear(report))
      modifies this`trace, layer.link`incomingAck, layer.link`incomingNack
      ensures Valid() && trace == old(trace) + [System.Hear(report)]
    {
      hide Reliable.ReliableLayer.Valid;
      hide Tied;
      hide Packet.Read;
      hide Ack.Expand;
      hide System.Enabled;
      hide System.Next;
      hide Reliable.NumbersIn;
      ghost var heard := Reliable.NumbersIn(layer.link.incomingAck);
      TiedState(layer.mtu, channels, trace, encoder.State(), layer.history, heard, layer.socket.sent);
      HearAdds(layer.mtu, Now(), report);
      Take(Packet.Read(report), now);
      TiedStep(layer.mtu, channels, trace, encoder.State(), layer.history, heard, layer.socket.sent,
            System.Hear(report),
               Reliable.NumbersIn(layer.link.incomingAck));
      trace := trace + [System.Hear(report)];
    }

    /** Something happens at the peer or on the network. */
    ghost method Elsewhere(step: System.Step)
      requires Valid() && System.Enabled(layer.mtu, Now(), step)
      requires step.Receive? || step.ReportAcks? || step.ReportNacks? || step.DropRoute?
      modifies this`trace
      ensures Valid() && trace == old(trace) + [step]
    {
      hide Reliable.ReliableLayer.Valid;
      hide Tied;
      hide Packet.Read;
      hide Packet.Write;
      hide Ack.Expand;
      ghost var heard := Reliable.NumbersIn(layer.link.incomingAck);
      TiedState(layer.mtu, channels, trace, encoder.State(), layer.history, heard, layer.socket.sent);
      TiedStep(layer.mtu, channels, trace, encoder.State(), layer.history, heard, layer.socket.sent, step, heard);
      trace := trace + [step];
    }

    /** Flush by a strategy. */
    method Flush(strategy: Reliable.FlushStrategy, now: nat) returns (ready: bool)
      requires Valid() && now >= layer.resend.lastScan
               && layer.seqNumWriteIndex + Sender.Held(layer.history) < U24_LIMIT
      modifies this`trace, layer, layer.socket, layer.link, layer.buf, layer.resend, layer.resend.estimator
      ensures Valid() && layer.resend.lastScan <= now
      ensures old(trace) <= trace && forall i :: |old(trace)| <= i < |trace| ==> !trace[i].SendMessage?
      ensures Now().book == old(Now()).book && Now().arrived == old(Now()).arrived
      ensures ready ==> layer.CheckFlushed(strategy)
      ensures ready && strategy.pack && Now().open && Drain.AllData(Now().book) ==> Drain.Finishes(layer.mtu, Now())
    {
      hide Reliable.ReliableLayer.Valid;
      hide Tied;
      hide Reliable.Ran;
      hide Reliable.Orderly;
      hide Reliable.Sent;
      hide Reliable.NumbersIn;
      ghost var log, work;
      ghost var v, heard, packets := layer.history, Reliable.NumbersIn(layer.link.incomingAck), layer.socket.sent;
      ready, log, work := layer.TryEmpty(strategy, now);
      layer.NextIsIndex();
      NoneHeard();
      TiedLayer(layer.mtu, channels, trace, encoder.State(), v, heard, packets, log, layer.history,
            Reliable.NumbersIn(layer.link.incomingAck), layer.socket.sent);
      trace := trace + System.StepsOf(log);
      hide Drain.Finishes;
      hide Drain.AllData;
      hide Reliable.ReliableLayer.CheckFlushed;
      if ready && strategy.pack {
        CanFinish(strategy);
      }
    }

    /** After a flush of messages with data, the network and the peer alone can drain the sender. */
    lemma CanFinish(strategy: Reliable.FlushStrategy)
      requires Valid() && strategy.pack && layer.CheckFlushed(strategy)
      ensures Now().open && Drain.AllData(Now().book) ==> Drain.Finishes(layer.mtu, Now())
    {
      hide System.IsRun;
      hide System.Final;
      hide Drain.Finishes;
      hide Drain.AllData;
      layer.NothingQueued(strategy);
      if Now().open && Drain.AllData(Now().book) {
        Drain.DataFinishes(layer.mtu, channels, trace);
      }
    }

    /**
     * Close. When it completes under a strategy that flushes packets, every frame of every reliable
     * message accepted before has arrived at the peer's open route.
     */
    method Close(strategy: Reliable.FlushStrategy, clock: seq<nat>) returns (closed: bool)
      requires Valid() && layer.seqNumWriteIndex + Reliable.Turns(Sender.Held(layer.history), |clock| + 1) < U24_LIMIT
      requires forall i :: 0 <= i < |clock| ==> clock[i] >= layer.resend.lastScan
      requires forall i, j :: 0 <= i < j < |clock| ==> clock[i] <= clock[j]
      modifies this`trace, layer, layer.socket, layer.link, layer.buf, layer.resend, layer.resend.estimator
      ensures Valid() && old(trace) <= trace && forall i :: |old(trace)| <= i < |trace| ==> !trace[i].SendMessage?
      ensures Now().book == old(Now()).book && Now().arrived == old(Now()).arrived
      ensures layer.seqNumWriteIndex
              <= old(layer.seqNumWriteIndex) + Reliable.Turns(old(Sender.Held(layer.history)), |clock|)
      ensures Sender.Held(layer.history) <= old(Sender.Held(layer.history))
      ensures if clock == [] then layer.resend.lastScan == old(layer.resend.lastScan)
              else layer.resend.lastScan <= clock[|clock| - 1]
      ensures closed && strategy.pack ==> System.Drained(Now()) && AllReceived(Now())
      ensures !closed ==> clock == [] || layer.socket.budget == 0 || Now().sender.recorded != map[]
    {
      hide Reliable.ReliableLayer.Valid;
      hide Tied;
      hide Reliable.Ran;
      hide Reliable.Orderly;
      hide Reliable.Sent;
      hide Reliable.NumbersIn;
      hide AllReceived;
      ghost var log;
      ghost var v, heard, packets := layer.history, Reliable.NumbersIn(layer.link.incomingAck), layer.socket.sent;
      closed, log := layer.PollClose(strategy, clock);
      layer.NextIsIndex();
      NoneHeard();
      TiedLayer(layer.mtu, channels, trace, encoder.State(), v, heard, packets, log, layer.history,
            Reliable.NumbersIn(layer.link.incomingAck), layer.socket.sent);
      trace := trace + System.StepsOf(log);
      TiedState(layer.mtu, channels, trace, encoder.State(), layer.history, Reliable.NumbersIn(layer.link.incomingAck),
            layer.socket.sent);
    }
  }

  lemma SameNumber(mtu: nat, channels: nat, trace: seq<System.Step>, v: Sender.View)
    requires mtu <= System.MAX_MTU && System.IsRun(mtu, System.Initial(channels), trace)
    requires System.Final(mtu, System.Initial(channels), trace).sender == v
    ensures v.next < U24_LIMIT
  {
    hide System.Enabled;
    hide System.Next;
    System.NumbersFit(mtu, System.Initial(channels), trace);
  }

  lemma HandNothing(v: Sender.View, nums: set<nat>)
    ensures Reliable.Moves([]) && Reliable.Orderly([], nums) && System.WithAccepted(Sender.Replay(v, []), []) == v
  {
    System.WithNothing(v);
  }

  /** Confirming and queueing again do not depend on frames accepted meanwhile. */
  lemma {:induction false} AcceptedAside(v: Sender.View, frames: seq<Frame>, log: seq<Sender.Action>)
    requires Reliable.Moves(log)
    ensures Sender.Replay(System.WithAccepted(v, frames), log) == System.WithAccepted(Sender.Replay(v, log), frames)
  {
    if log != [] {
      var front := log[..|log| - 1];
      AcceptedAside(v, frames, front);
      hide Sender.Replay;
      MoveAside(Sender.Replay(v, front), frames, log[|log| - 1]);
    }
  }

  lemma MoveAside(v: Sender.View, frames: seq<Frame>, a: Sender.Action)
    requires a.Confirming? || a.Requeueing?
    ensures Sender.Apply(System.WithAccepted(v, frames), a) == System.WithAccepted(Sender.Apply(v, a), frames)
  {
    if a.Requeueing? && a.num in v.recorded {
      var q, f, r := v.queued, multiset(frames), multiset(v.recorded[a.num]);
      assert q + f + r == q + r + f;
    }
  }

  /** Moves are always possible. */
  lemma {:induction false} MovesRun(v: Sender.View, log: seq<Sender.Action>)
    requires Reliable.Moves(log)
    ensures Sender.IsRun(v, log)
  {
    if log != [] {
      MovesRun(v, log[..|log| - 1]);
    }
  }

  /** One more frame handed down, after one more time of taking in. */
  lemma HandNext(mtu: nat, v: Sender.View, log: seq<Sender.Action>, more: seq<Sender.Action>, all: seq<Frame>, i: nat,
                 before: Sender.View, after: Sender.View, nums: set<nat>)
    requires Reliable.Moves(log) && Reliable.Moves(more) && Reliable.Orderly(log, nums) && Reliable.Orderly(more, nums)
             && i < |all|
    requires before == System.WithAccepted(Sender.Replay(v, log), all[..i]) && Reliable.Ran(mtu, before, more, after)
    ensures Reliable.Moves(log + more) && Reliable.Orderly(log + more, nums)
    ensures after.Accept(all[i]) == System.WithAccepted(Sender.Replay(v, log + more), all[..i + 1])
  {
    hide Sender.Replay;
    hide System.WithAccepted;
    hide Reliable.Packing;
    var w := Sender.Replay(v, log);
    MovesRun(v, log);
    MovesRun(w, more);
    Sender.RunAppend(v, log, more);
    AcceptedAside(w, all[..i], more);
    System.WithAcceptedSnoc(Sender.Replay(w, more), all[..i], all[i]);
    assert all[..i] + [all[i]] == all[..i + 1];
  }

  /** What was taken in, as steps of the system. */
  lemma TiedMoves(mtu: nat, channels: nat, trace: seq<System.Step>, counters: Encoder.Counters, v: Sender.View,
                  heard: set<nat>, packets: seq<Packet.Packet>,
                  log: seq<Sender.Action>, v': Sender.View)
    requires Tied(mtu, channels, trace, counters, v, heard, packets) && Sender.Conserved(v) && Sender.Traced(v)
    requires Reliable.Moves(log) && Reliable.Orderly(log, heard) && Reliable.Ran(mtu, v, log, v')
    ensures (forall i :: 0 <= i < |log| ==> !log[i].Accepting?)
    ensures var steps := System.StepsOf(log);
            && Tied(mtu, channels, trace + steps, counters, v', {}, packets)
            && v'.next == v.next && Sender.Held(v') <= Sender.Held(v)
            && (forall i :: 0 <= i < |steps| ==> steps[i].Confirm? || steps[i].Requeue?)
            && System.IsRun(mtu, System.Initial(channels), trace)
               && System.IsRun(mtu, System.Initial(channels), trace + steps)
            && var s, s' := System.Final(mtu, System.Initial(channels), trace),
               System.Final(mtu, System.Initial(channels), trace + steps);
               s'.book == s.book && s'.arrived == s.arrived && s'.counters == s.counters
  {
    hide Tied;
    hide System.IsRun;
    hide System.Final;
    hide Sender.Conserved;
    hide Sender.Traced;
    hide Sender.Held;
    hide Reliable.Packing;
    MovesKeepNext(v, log);
    TiedState(mtu, channels, trace, counters, v, heard, packets);
    SameNumber(mtu, channels, trace, v);
    Reliable.NothingSent(packets, v', mtu);
    TiedLayer(mtu, channels, trace, counters, v, heard, packets, log, v', {}, packets);
    TiedState(mtu, channels, trace + System.StepsOf(log), counters, v', {}, packets);
    Reliable.RanHeld(mtu, v, log, v', heard);
  }

  /** What was taken in, then the message, as steps of the system. */
  lemma TiedMovesSend(mtu: nat, channels: nat, trace: seq<System.Step>, counters: Encoder.Counters, v: Sender.View,
                      heard: set<nat>, packets: seq<Packet.Packet>,
                      log: seq<Sender.Action>, msg: Message)
    requires Tied(mtu, channels, trace, counters, v, heard, packets) && Sender.Conserved(v) && Sender.Traced(v)
    requires Reliable.Moves(log) && Reliable.Orderly(log, heard)
    requires System.IsRun(mtu, System.Initial(channels), trace) && Encoder.CanSend(mtu, counters, msg)
    requires System.Enabled(mtu, System.Final(mtu, System.Initial(channels), trace), System.SendMessage(msg))
    ensures (forall i :: 0 <= i < |log| ==> !log[i].Accepting?)
    ensures var steps, v' := System.StepsOf(log),
            System.WithAccepted(Sender.Replay(v, log), Encoder.Frames(mtu, counters, msg));
            var trace' := trace + steps + [System.SendMessage(msg)];
            && Tied(mtu, channels, trace', Encoder.After(mtu, counters, msg), v', {}, packets)
            && v'.next == v.next && Sender.Held(v') <= Sender.Held(v) + |Encoder.Frames(mtu, counters, msg)|
            && (forall i :: 0 <= i < |steps| ==> steps[i].Confirm? || steps[i].Requeue?)
            && System.IsRun(mtu, System.Initial(channels), trace')
            && var s, s' := System.Final(mtu, System.Initial(channels), trace),
               System.Final(mtu, System.Initial(channels), trace');
               && s'.book == s.book + [Entry(mtu, counters, msg)] && s'.arrived == s.arrived
               && s'.counters == Encoder.After(mtu, counters, msg)
  {
    hide Tied;
    hide System.IsRun;
    hide System.Final;
    hide System.Enabled;
    hide System.Next;
    hide System.WithAccepted;
    hide Sender.Conserved;
    hide Sender.Traced;
    hide Sender.Held;
    hide Sender.Replay;
    hide Encoder.Frames;
    hide Encoder.After;
    hide Encoder.CanSend;
    hide Entry;
    hide Reliable.Ran;
    var w := Sender.Replay(v, log);
    MovesRan(mtu, v, log);
    TiedMoves(mtu, channels, trace, counters, v, heard, packets, log, w);
    var mid := trace + System.StepsOf(log);
    var s := System.Final(mtu, System.Initial(channels), mid);
    TiedState(mtu, channels, mid, counters, w, {}, packets);
    SameCounters(mtu, System.Final(mtu, System.Initial(channels), trace), s, msg);
    TiedSend(mtu, channels, mid, counters, w, {}, packets, msg);
    NextSent(mtu, s, msg);
    var frames := Encoder.Frames(mtu, counters, msg);
    System.AcceptAll(w, frames);
    HeldMore(w, frames);
    TiedState(mtu, channels, mid + [System.SendMessage(msg)], Encoder.After(mtu, counters, msg),
              System.WithAccepted(w, frames), {}, packets);
  }

  lemma NextSent(mtu: nat, s: System.State, msg: Message)
    requires System.Enabled(mtu, s, System.SendMessage(msg))
    ensures var s' := System.Next(mtu, s, System.SendMessage(msg));
            s'.book == s.book + [Entry(mtu, s.counters, msg)] && s'.arrived == s.arrived
                && s'.counters == Encoder.After(mtu, s.counters, msg)
  {
  }

  lemma SameCounters(mtu: nat, s: System.State, s': System.State, msg: Message)
    requires System.Enabled(mtu, s, System.SendMessage(msg)) && s'.counters == s.counters && s'.book == s.book
    ensures System.Enabled(mtu, s', System.SendMessage(msg))
  {
  }

  lemma MovesRan(mtu: nat, v: Sender.View, log: seq<Sender.Action>)
    requires Reliable.Moves(log)
    ensures Reliable.Ran(mtu, v, log, Sender.Replay(v, log))
  {
    MovesRun(v, log);
    Reliable.NothingPacked(mtu, v, log);
  }

  lemma {:induction false} MovesKeepNext(v: Sender.View, log: seq<Sender.Action>)
    requires Reliable.Moves(log)
    ensures Sender.Replay(v, log).next == v.next
  {
    if log != [] {
      MovesKeepNext(v, log[..|log| - 1]);
    }
  }

  lemma HeldMore(v: Sender.View, frames: seq<Frame>)
    ensures Sender.Held(System.WithAccepted(v, frames)) == Sender.Held(v) + |frames|
            && System.WithAccepted(v, frames).next == v.next
  {
    assert |v.queued + multiset(frames)| == |v.queued| + |multiset(frames)|;
  }

  lemma SendNeeds(mtu: nat, s: System.State, msg: Message)
    requires System.Enabled(mtu, s, System.SendMessage(msg))
    ensures Encoder.CanSend(mtu, s.counters, msg) && !msg.reliability.IsSequenced()
  {
  }

  /** What hearing a report adds to what was heard. */
  lemma HearAdds(mtu: nat, s: System.State, report: Codec.Bytes)
    ensures System.Next(mtu, s, System.Hear(report)).heard
            == s.heard + (match Packet.Read(report)
                          case Ok(Acks(records)) => Link.Elements(Ack.Expand(records))
                          case _ => {})
  {
    hide Packet.Read;
    hide Ack.Expand;
  }

  lemma NoneHeard()
    ensures Reliable.NumbersIn([]) == {}
  {
  }

  function Untagged(items: seq<(Priority, Frame)>): (frames: seq<Frame>)
    ensures |frames| == |items|
  {
    seq(|items|, i requires 0 <= i < |items| => items[i].1)
  }

  lemma FramesHandDown(mtu: nat, st: Encoder.Counters, msg: Message)
    requires Encoder.CanSend(mtu, st, msg) && !msg.reliability.IsSequenced() && mtu <= System.MAX_MTU
    ensures var frames, tagged := Encoder.Frames(mtu, st, msg),
            Encoder.Tagged(msg.priority, Encoder.Frames(mtu, st, msg));
            && [] + tagged == tagged != [] && Untagged(tagged) == frames
            && forall i :: 0 <= i < |tagged| ==> Reliable.Fits(mtu, tagged[i].1)
  {
    assert |Encoder.Frames(mtu, st, msg)| >= 1;
    hide Encoder.Frames;
    Encoder.FramesFit(mtu, st, msg);
    System.EncodedSendable(mtu, st, msg);
    var frames := Encoder.Frames(mtu, st, msg);
    forall i | 0 <= i < |frames|
      ensures Reliable.Fits(mtu, frames[i])
    {
      assert frames[i] in frames;
    }
  }

  lemma TiedState(mtu: nat, channels: nat, trace: seq<System.Step>, counters: Encoder.Counters, v: Sender.View,
                  heard: set<nat>, packets: seq<Packet.Packet>)
    requires Tied(mtu, channels, trace, counters, v, heard, packets)
    ensures mtu <= System.MAX_MTU && System.IsRun(mtu, System.Initial(channels), trace)
    ensures var s := System.Final(mtu, System.Initial(channels), trace);
            s.counters == counters && s.sender == v && heard <= s.heard
  {
  }

  lemma Buffered(queue: seq<(seq<Ack.Record>, nat)>, queue': seq<(seq<Ack.Record>, nat)>, records: seq<Ack.Record>,
                 now: nat)
    requires queue' == (if |queue| == Link.MAX_ACK_BUFFER then queue[1..] else queue) + [(records, now)]
             && Link.MAX_ACK_BUFFER > 0
    ensures exists from: nat :: from <= |queue| && queue' == queue[from..] + [(records, now)]
  {
    var from := if |queue| == Link.MAX_ACK_BUFFER then 1 else 0;
    assert queue' == queue[from..] + [(records, now)];
  }
}
