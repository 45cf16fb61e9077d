/** The outgoing state manager: a close in two waits around the goodbye, over the sending end of a connection. */
module Outgoing {
  import opened Types
  import opened Lifecycle
  import Codec
  import Delivery
  import Encoder
  import Endpoint
  import Reliable
  import Sender
  import System

  /** The layers below, whose socket may fail: `outcomes` are its answers to successive polls. */
  class Inner {
    const endpoint: Endpoint.Endpoint
    var outcomes: seq<Outcome>

    constructor (endpoint: Endpoint.Endpoint, outcomes: seq<Outcome>)
      ensures this.endpoint == endpoint && this.outcomes == outcomes
    {
      this.endpoint, this.outcomes := endpoint, outcomes;
    }

    method Poll() returns (r: Outcome)
      modifies this`outcomes
      ensures r == if old(outcomes) == [] then NotReady else old(outcomes)[0]
      ensures outcomes == if old(outcomes) == [] then [] else old(outcomes)[1..]
    {
      if outcomes == [] {
        return NotReady;
      }
      r := outcomes[0];
      outcomes := outcomes[1..];
    }
  }

  /** The remaining close polls the socket at most this often, and it is ready each time. */
  predicate Willing(state: OutgoingState, outcomes: seq<Outcome>) {
    && (forall i :: 0 <= i < |outcomes| ==> outcomes[i] == Ready)
    && |outcomes| >= (if state.Rank() >= 3 then 4 else if state == FinWait then 3
                                                       else if state == SecondCloseWait then 1 else 0)
  }

  /** A willing socket answers the polls of one turn, and stays willing for the next. */
  lemma WillingNext(state: OutgoingState, outcomes: seq<Outcome>)
    ensures Willing(state, outcomes) && state.Rank() == 3 ==>
              outcomes != [] && outcomes[0] == Ready && Willing(FinWait, outcomes[1..])
    ensures Willing(state, outcomes) && state == SecondCloseWait ==>
              outcomes != [] && outcomes[0] == Ready && Willing(Closed, outcomes[1..])
    ensures Willing(FinWait, outcomes) ==>
              |outcomes| >= 2 && outcomes[0] == Ready && outcomes[1..][0] == Ready
                  && Willing(SecondCloseWait, outcomes[1..][1..])
    ensures Willing(Connecting, outcomes) ==> Willing(FirstCloseWait, outcomes)
  {
  }

  /** Clock readings for one wait: none before `since`, and none before an earlier one. */
  predicate Timely(since: nat, clock: seq<nat>) {
    && (forall i :: 0 <= i < |clock| ==> since <= clock[i])
    && (forall i, j :: 0 <= i < j < |clock| ==> clock[i] <= clock[j])
  }

  /** The log of a manager in this state, over an endpoint with this trace. */
  ghost predicate Kept(mtu: nat, channels: nat, trace: seq<System.Step>, state: OutgoingState, log: seq<Event>) {
    trace == Steps(log) && Grounded(mtu, channels, log) && Orderly(state, log) && Layered(log)
  }

  /** Messages enter through the manager only. */
  ghost predicate Layered(log: seq<Event>) {
    forall i :: 0 <= i < |log| ==> !(log[i].Below? && log[i].step.SendMessage?)
  }

  lemma KeptMore(mtu: nat, channels: nat, trace: seq<System.Step>, state: OutgoingState, log: seq<Event>,
                 more: seq<Event>, trace': seq<System.Step>)
    requires Kept(mtu, channels, trace, state, log) && trace' == trace + Steps(more)
             && System.IsRun(mtu, System.Initial(channels), trace')
    requires forall i :: 0 <= i < |more| ==>
               more[i] != Goodbye && more[i] != InnerClosed && (more[i].Control? ==> state.BeforeFinish())
    requires Layered(more)
    ensures Kept(mtu, channels, trace', state, log + more)
  {
    hide Grounded;
    hide Orderly;
    GroundedMore(mtu, channels, log, more);
    OthersKeep(state, log, more);
  }

  lemma KeptBelow(mtu: nat, channels: nat, trace: seq<System.Step>, state: OutgoingState, log: seq<Event>,
                  trace': seq<System.Step>)
    requires Kept(mtu, channels, trace, state, log) && trace <= trace'
             && System.IsRun(mtu, System.Initial(channels), trace')
    requires forall i :: |trace| <= i < |trace'| ==> !trace'[i].SendMessage?
    ensures Kept(mtu, channels, trace', state, log + Belows(trace'[|trace|..]))
            && Marks(log + Belows(trace'[|trace|..])) == Marks(log)
  {
    hide Kept;
    var steps := trace'[|trace|..];
    StepsOfBelows(steps);
    assert trace' == trace + steps;
    KeptMore(mtu, channels, trace, state, log, Belows(steps), trace');
    MarksBelow(log, steps);
  }

  lemma KeptOne(mtu: nat, channels: nat, trace: seq<System.Step>, state: OutgoingState, log: seq<Event>, e: Event,
                trace': seq<System.Step>)
    requires Kept(mtu, channels, trace, state, log) && e != Goodbye && e != InnerClosed
             && (e.Control? ==> state.BeforeFinish())
    requires !(e.Below? && e.step.SendMessage?)
    requires trace' == trace + e.Steps() && System.IsRun(mtu, System.Initial(channels), trace')
    ensures Kept(mtu, channels, trace', state, log + [e]) && Marks(log + [e]) == Marks(log)
  {
    hide Kept;
    assert [e][..0] == [];
    assert Steps([e]) == [] + e.Steps() == e.Steps();
    KeptMore(mtu, channels, trace, state, log, [e], trace');
    MarksSnoc(log, e);
  }

  lemma KeptMoves(mtu: nat, channels: nat, trace: seq<System.Step>, state: OutgoingState, log: seq<Event>,
                  moves: seq<System.Step>)
    requires Kept(mtu, channels, trace, state, log) && System.IsRun(mtu, System.Initial(channels), trace + moves)
    requires forall i :: 0 <= i < |moves| ==> moves[i].Confirm? || moves[i].Requeue?
    ensures Kept(mtu, channels, trace + moves, state, log + Belows(moves)) && Marks(log + Belows(moves)) == Marks(log)
  {
    hide Kept;
    hide System.IsRun;
    assert (trace + moves)[|trace|..] == moves;
    KeptBelow(mtu, channels, trace, state, log, trace + moves);
  }

  lemma RunPrefix(mtu: nat, channels: nat, a: seq<System.Step>, b: seq<System.Step>)
    requires System.IsRun(mtu, System.Initial(channels), a + b)
    ensures System.IsRun(mtu, System.Initial(channels), a)
  {
    hide System.IsRun;
    hide System.Final;
    RunSplit(mtu, System.Initial(channels), a, b);
  }

  /** A completed close below. */
  lemma KeptClosed(mtu: nat, channels: nat, trace: seq<System.Step>, state: OutgoingState, log: seq<Event>)
    requires Kept(mtu, channels, trace, state, log) && (state == FirstCloseWait || state == SecondCloseWait)
    requires System.IsRun(mtu, System.Initial(channels), trace)
             && System.Drained(System.Final(mtu, System.Initial(channels), trace))
    ensures var next := if state == FirstCloseWait then FinWait else Closed;
            Kept(mtu, channels, trace, next, log + [InnerClosed])
                && Marks(log + [InnerClosed]) + next.ToDo() == Marks(log) + state.ToDo()
  {
    hide Grounded;
    hide Orderly;
    hide System.IsRun;
    hide System.Final;
    hide System.Drained;
    hide Steps;
    hide Marks;
    GroundedClose(mtu, channels, log);
    if state == FirstCloseWait {
      FirstAdvances(log);
    } else {
      CloseAdvances(log);
    }
    MarksSnoc(log, InnerClosed);
    var next := if state == FirstCloseWait then FinWait else Closed;
    assert Marks(log) + [InnerClosed] + next.ToDo() == Marks(log) + ([InnerClosed] + next.ToDo());
  }

  lemma KeptGoodbye(mtu: nat, channels: nat, trace: seq<System.Step>, log: seq<Event>)
    requires Kept(mtu, channels, trace, FinWait, log)
             && System.IsRun(mtu, System.Initial(channels), trace + [System.SendMessage(GOODBYE)])
    ensures Kept(mtu, channels, trace + [System.SendMessage(GOODBYE)], SecondCloseWait, log + [Goodbye])
    ensures Marks(log + [Goodbye]) + SecondCloseWait.ToDo() == Marks(log) + FinWait.ToDo()
  {
    hide Grounded;
    hide Orderly;
    hide System.IsRun;
    hide Steps;
    hide Marks;
    OneGoodbye();
    GroundedMore(mtu, channels, log, [Goodbye]);
    GoodbyeAdvances(log);
    MarksSnoc(log, Goodbye);
    assert Marks(log) + [Goodbye] + SecondCloseWait.ToDo() == Marks(log) + ([Goodbye] + SecondCloseWait.ToDo());
  }

  lemma OneGoodbye()
    ensures Steps([Goodbye]) == [System.SendMessage(GOODBYE)]
  {
    assert [Goodbye][..0] == [];
  }

  lemma KeptStart(mtu: nat, channels: nat, trace: seq<System.Step>, log: seq<Event>)
    requires Kept(mtu, channels, trace, Connecting, log)
    ensures Kept(mtu, channels, trace, FirstCloseWait, log)
  {
    hide Grounded;
    FirstAdvances(log);
  }

  /** The goodbye is one frame. */
  lemma GoodbyeFrame(mtu: nat, st: Encoder.Counters)
    requires Encoder.CanSend(mtu, st, GOODBYE)
    ensures |Encoder.Frames(mtu, st, GOODBYE)| == 1
  {
    Encoder.UpgradeIffSplit(mtu, GOODBYE);
  }

  lemma SameRoom(mtu: nat, s: System.State, s': System.State, msg: Message)
    requires System.Enabled(mtu, s, System.SendMessage(msg)) && s'.counters == s.counters && s'.book == s.book
    ensures System.Enabled(mtu, s', System.SendMessage(msg))
  {
  }

  /** What a close starts from: the next number, the number of frames queued or recorded, the time of the last scan. */
  datatype Start = Start(next: nat, held: nat, lastScan: nat)

  /** The clock readings of both waits, and `at` between them, are in order, and numbers suffice for both. */
  ghost predicate Enough(start: Start, first: seq<nat>, at: nat, second: seq<nat>) {
    && Timely(start.lastScan, first) && Latest(start.lastScan, first) <= at && Timely(at, second)
    && start.next + Reliable.Turns(start.held + 1, |first| + |second| + 2) < U24_LIMIT
  }

  /** What a close in this state may have used up. */
  ghost predicate Spent(state: OutgoingState, start: Start, first: seq<nat>, at: nat, now: Start) {
    match state
    case FinWait => now.next <= start.next + Reliable.Turns(start.held, |first|) && now.held <= start.held
        && now.lastScan <= Latest(start.lastScan, first)
    case SecondCloseWait => now.next <= start.next + Reliable.Turns(start.held, |first|) && now.held <= start.held + 1
        && now.lastScan <= at
    case Closed => true
    case _ => now == start
  }

  lemma SpentEnough(state: OutgoingState, start: Start, first: seq<nat>, at: nat, second: seq<nat>, now: Start)
    requires Enough(start, first, at, second) && Spent(state, start, first, at, now)
    ensures state.Rank() >= 3 ==>
              Timely(now.lastScan, first) && now.next + Reliable.Turns(now.held, |first| + 1) < U24_LIMIT
    ensures state == FinWait ==> now.lastScan <= at
    ensures state == SecondCloseWait ==>
              Timely(now.lastScan, second) && now.next + Reliable.Turns(now.held, |second| + 1) < U24_LIMIT
  {
    hide Timely;
    Products(start.held, |first|, |second|);
    if state == SecondCloseWait {
      Sooner(at, now.lastScan, second);
      Scaled(now.held, start.held + 1, |second| + 1);
    }
  }

  lemma Products(a: nat, f: nat, s: nat)
    ensures (a + 1) * (f + s + 2) == (a + 1) * (f + 1) + (a + 1) * (s + 1)
    ensures a * f <= a * (f + 1) <= (a + 1) * (f + 1)
  {
  }

  lemma Scaled(a: nat, b: nat, n: nat)
    requires a <= b
    ensures a * n <= b * n
  {
  }

  lemma Sooner(since: nat, before: nat, clock: seq<nat>)
    requires Timely(since, clock) && before <= since
    ensures Timely(before, clock)
  {
  }

  class OutgoingManager {
    const inner: Inner
    var state: OutgoingState
    var guard: CloseOnDrop?
    ghost var log: seq<Event>

    /** Everything the manager stands on. */
    ghost function Below(): (s: set<object>)
      reads this, inner
    {
      var e := inner.endpoint;
      {inner, e, e.encoder, e.layer, e.layer.socket, e.layer.link, e.layer.buf, e.layer.resend,
            e.layer.resend.estimator}
    }

    ghost predicate Valid()
      reads this, Below()
    {
      inner.endpoint.Valid() && Kept(inner.endpoint.layer.mtu, inner.endpoint.channels, inner.endpoint.trace, state,
            log)
    }

    constructor (inner: Inner, guard: CloseOnDrop?)
      requires inner.endpoint.Valid() && inner.endpoint.trace == []
      ensures Valid() && state == Connecting && log == [] && this.inner == inner && this.guard == guard
    {
      this.inner, this.guard := inner, guard;
      state, log := Connecting, [];
      new;
      assert Steps([]) == [];
    }

    /**
     * Goodbye comes last, for every reachable manager: unless a user sends something that looks like a
     * goodbye, the stream at the peer yields all that was delivered, or a goodbye was handed down after
     * completed closes and the stream yields first what was delivered by any of them.
     */
    lemma GoodbyeLast(cfg: Delivery.Config, readable: seq<Byte> -> bool)
      requires Valid() && forall i :: 0 <= i < |log| ==>
                 (log[i].Data? || log[i].Control? ==> !IsGoodbye(log[i].msg.data))
      ensures var bodies := Bodies(readable, Delivery.Delivered(cfg, inner.endpoint.Now().arrived));
              var mtu, channels := inner.endpoint.layer.mtu, inner.endpoint.channels;
              || UntilGoodbye(bodies) == bodies
              || exists g: nat :: GoodbyeAt(log, g) && forall k: nat :: k < g && log[k] == InnerClosed ==>
                   ComesFirst(mtu, channels, Steps(log[..k]), Steps(log), cfg, readable)
    {
      hide Endpoint.Endpoint.Valid;
      hide Grounded;
      hide Orderly;
      hide ComesFirst;
      hide Delivery.Delivered;
      inner.endpoint.IsRun();
      Lifecycle.GoodbyeComesLast(inner.endpoint.layer.mtu, inner.endpoint.channels, state, log, cfg, readable);
    }

    /** Refused once the goodbye was handed down; when ready, the layers below take in what the peer reported. */
    method PollReady(now: nat) returns (r: Outcome)
      requires Valid() && now >= inner.endpoint.layer.resend.lastScan
      modifies this`log, Below()
      ensures Valid() && Marks(log) == old(Marks(log)) && old(log) <= log && (r != Ready ==> log == old(log))
      ensures r == if !state.BeforeFinish() then Failed else if old(inner.outcomes) == [] then NotReady
                                                             else old(inner.outcomes)[0]
    {
      hide Kept;
      hide Endpoint.Endpoint.Valid;
      hide System.Enabled;
      hide System.Next;
      hide System.IsRun;
      if !state.BeforeFinish() {
        return Failed;
      }
      r := inner.Poll();
      if r == Ready {
        ghost var before := inner.endpoint.trace;
        inner.endpoint.PollReady(now);
        inner.endpoint.IsRun();
        KeptBelow(inner.endpoint.layer.mtu, inner.endpoint.channels, before, state, log, inner.endpoint.trace);
        log := log + Belows(inner.endpoint.trace[|before|..]);
      }
    }

    /** Hand one message down, as what `e` says it is. */
    method HandDown(msg: Message, now: nat, ghost e: Event) returns (ok: bool, ghost moves: seq<System.Step>)
      requires now >= inner.endpoint.layer.resend.lastScan
      requires Valid() && inner.endpoint.Accepts(msg) && e.Steps() == [System.SendMessage(msg)]
      requires !e.Below? && e != Goodbye && (e.Control? ==> state.BeforeFinish())
      modifies this`log, Below()
      ensures Valid() && log == if ok then old(log) + Belows(moves) + [e] else old(log)
      ensures forall i :: 0 <= i < |moves| ==> moves[i].Confirm? || moves[i].Requeue?
      ensures ok <==> old(inner.outcomes) == [] || old(inner.outcomes)[0] != Failed
    {
      hide Kept;
      hide Endpoint.Endpoint.Valid;
      hide System.Enabled;
      hide System.Next;
      hide System.IsRun;
      var r := inner.Poll();
      ok, moves := r != Failed, [];
      if ok {
        ghost var mtu, channels := inner.endpoint.layer.mtu, inner.endpoint.channels;
        ghost var before := inner.endpoint.trace;
        moves := inner.endpoint.Send(msg, now);
        inner.endpoint.IsRun();
        RunPrefix(mtu, channels, before + moves, [System.SendMessage(msg)]);
        KeptMoves(mtu, channels, before, state, log, moves);
        log := log + Belows(moves);
        KeptOne(mtu, channels, before + moves, state, log, e, inner.endpoint.trace);
        log := log + [e];
      }
    }

    /** Internal frame bodies are refused once the goodbye was handed down. */
    method StartSendBody(msg: Message, now: nat) returns (ok: bool, ghost moves: seq<System.Step>)
      requires Valid() && inner.endpoint.Accepts(msg) && now >= inner.endpoint.layer.resend.lastScan
      modifies this`log, Below()
      ensures Valid() && log == if ok then old(log) + Belows(moves) + [Control(msg)] else old(log)
      ensures forall i :: 0 <= i < |moves| ==> moves[i].Confirm? || moves[i].Requeue?
      ensures ok <==> state.BeforeFinish() && (old(inner.outcomes) == [] || old(inner.outcomes)[0] != Failed)
    {
      hide Kept;
      hide Endpoint.Endpoint.Valid;
      hide System.Enabled;
      hide System.Next;
      hide System.IsRun;
      if !state.BeforeFinish() {
        return false, [];
      }
      ok, moves := HandDown(msg, now, Control(msg));
    }

    /** Messages are passed on without looking at the state; only `PollReady` stands in their way. */
    method StartSendMessage(msg: Message, now: nat) returns (ok: bool, ghost moves: seq<System.Step>)
      requires Valid() && inner.endpoint.Accepts(msg) && now >= inner.endpoint.layer.resend.lastScan
      modifies this`log, Below()
      ensures Valid() && log == if ok then old(log) + Belows(moves) + [Data(msg)] else old(log)
      ensures forall i :: 0 <= i < |moves| ==> moves[i].Confirm? || moves[i].Requeue?
      ensures ok <==> old(inner.outcomes) == [] || old(inner.outcomes)[0] != Failed
    {
      hide Kept;
      hide Endpoint.Endpoint.Valid;
      hide System.Enabled;
      hide System.Next;
      hide System.IsRun;
      ok, moves := HandDown(msg, now, Data(msg));
    }

    /** A report of the peer comes in. */
    method Hear(report: Codec.Bytes, now: nat)
      requires Valid() && System.Enabled(inner.endpoint.layer.mtu, inner.endpoint.Now(), System.Hear(report))
      modifies this`log, Below()
      ensures Valid() && log == old(log) + [Event.Below(System.Hear(report))]
    {
      hide Kept;
      hide Endpoint.Endpoint.Valid;
      hide System.Enabled;
      hide System.Next;
      hide System.IsRun;
      ghost var before := inner.endpoint.trace;
      inner.endpoint.Hear(report, now);
      inner.endpoint.IsRun();
      KeptOne(inner.endpoint.layer.mtu, inner.endpoint.channels, before, state, log, Event.Below(System.Hear(report)),
            inner.endpoint.trace);
      log := log + [Event.Below(System.Hear(report))];
    }

    /** Something happens at the peer or on the network. */
    ghost method Elsewhere(step: System.Step)
      requires Valid() && System.Enabled(inner.endpoint.layer.mtu, inner.endpoint.Now(), step)
      requires step.Receive? || step.ReportAcks? || step.ReportNacks? || step.DropRoute?
      modifies this`log, inner.endpoint`trace
      ensures Valid() && log == old(log) + [Event.Below(step)]
    {
      hide Kept;
      hide Endpoint.Endpoint.Valid;
      hide System.Enabled;
      hide System.Next;
      hide System.IsRun;
      ghost var before := inner.endpoint.trace;
      inner.endpoint.Elsewhere(step);
      inner.endpoint.IsRun();
      KeptOne(inner.endpoint.layer.mtu, inner.endpoint.channels, before, state, log, Event.Below(step),
            inner.endpoint.trace);
      log := log + [Event.Below(step)];
    }

    /** Flushing is allowed in every state. */
    method PollFlush(strategy: Reliable.FlushStrategy, now: nat) returns (ready: bool)
      requires Valid() && now >= inner.endpoint.layer.resend.lastScan
      requires inner.endpoint.layer.seqNumWriteIndex + Sender.Held(inner.endpoint.layer.history) < U24_LIMIT
      modifies this`log, Below()
      ensures Valid() && old(log) <= log && Marks(log) == old(Marks(log))
    {
      hide Kept;
      hide Endpoint.Endpoint.Valid;
      hide System.Enabled;
      hide System.Next;
      hide System.IsRun;
      ghost var before := inner.endpoint.trace;
      ready := inner.endpoint.Flush(strategy, now);
      inner.endpoint.IsRun();
      KeptBelow(inner.endpoint.layer.mtu, inner.endpoint.channels, before, state, log, inner.endpoint.trace);
      log := log + Belows(inner.endpoint.trace[|before|..]);
    }

    /** Numbers, time and counters suffice for what this state may still do below. */
    ghost predicate Ample(clock: seq<nat>)
      requires Valid()
      reads this, Below()
    {
      var layer := inner.endpoint.layer;
      && (state.BeforeFinish() ==> inner.endpoint.Accepts(GOODBYE))
      && (state != FinWait ==>
           Timely(layer.resend.lastScan, clock)
           && layer.seqNumWriteIndex + Reliable.Turns(Sender.Held(layer.history), |clock| + 1) < U24_LIMIT)
    }

    /** Close the layers below, and log what that took. */
    method CloseBelow(strategy: Reliable.FlushStrategy, clock: seq<nat>) returns (closed: bool)
      requires Valid() && strategy.pack && Ample(clock) && state != FinWait
      modifies this`log, Below() - {inner}
      ensures Valid() && Marks(log) == old(Marks(log))
      ensures Sender.Held(inner.endpoint.layer.history) <= old(Sender.Held(inner.endpoint.layer.history))
      ensures inner.endpoint.Now().book == old(inner.endpoint.Now().book)
              && inner.endpoint.Now().counters == old(inner.endpoint.Now().counters)
      ensures inner.endpoint.layer.seqNumWriteIndex
              <= old(inner.endpoint.layer.seqNumWriteIndex)
              + Reliable.Turns(old(Sender.Held(inner.endpoint.layer.history)), |clock|)
      ensures if clock == [] then inner.endpoint.layer.resend.lastScan == old(inner.endpoint.layer.resend.lastScan)
              else inner.endpoint.layer.resend.lastScan <= clock[|clock| - 1]
      ensures if closed then System.Drained(inner.endpoint.Now()) else Stuck(NotReady, clock)
    {
      hide Kept;
      hide Endpoint.Endpoint.Valid;
      hide System.Enabled;
      hide System.Next;
      hide System.IsRun;
      hide System.Drained;
      hide Endpoint.AllReceived;
      ghost var before := inner.endpoint.trace;
      inner.endpoint.IsRun();
      closed := inner.endpoint.Close(strategy, clock);
      inner.endpoint.IsRun();
      KeptBelow(inner.endpoint.layer.mtu, inner.endpoint.channels, before, state, log, inner.endpoint.trace);
      log := log + Belows(inner.endpoint.trace[|before|..]);
    }

    /** Wait for the layers below: done only when they are drained. */
    method WaitBelow(strategy: Reliable.FlushStrategy, clock: seq<nat>) returns (r: Outcome)
      requires Valid() && strategy.pack && Ample(clock) && (state == FirstCloseWait || state == SecondCloseWait)
      modifies this`state, this`log, Below()
      ensures Valid() && Sender.Held(inner.endpoint.layer.history) <= old(Sender.Held(inner.endpoint.layer.history))
      ensures inner.endpoint.Now().book == old(inner.endpoint.Now().book)
              && inner.endpoint.Now().counters == old(inner.endpoint.Now().counters)
      ensures state == if r != Ready then old(state) else if old(state) == FirstCloseWait then FinWait else Closed
      ensures Marks(log) + state.ToDo() == old(Marks(log) + state.ToDo())
      ensures inner.endpoint.layer.seqNumWriteIndex
              <= old(inner.endpoint.layer.seqNumWriteIndex)
              + Reliable.Turns(old(Sender.Held(inner.endpoint.layer.history)), |clock|)
      ensures inner.endpoint.layer.resend.lastScan
              <= Max(old(inner.endpoint.layer.resend.lastScan), if clock == [] then 0 else clock[|clock| - 1])
      ensures old(Willing(state, inner.outcomes)) ==>
                if r == Ready then Willing(state, inner.outcomes) else Stuck(r, clock)
    {
      hide Stuck;
      hide Willing;
      hide Timely;
      hide Kept;
      hide Endpoint.Endpoint.Valid;
      hide System.Enabled;
      hide System.Next;
      hide System.IsRun;
      hide System.Drained;
      hide Marks;
      WillingNext(state, inner.outcomes);
      r := inner.Poll();
      if r != Ready {
        return;
      }
      var closed := CloseBelow(strategy, clock);
      if !closed {
        return NotReady;
      }
      inner.endpoint.IsRun();
      KeptClosed(inner.endpoint.layer.mtu, inner.endpoint.channels, inner.endpoint.trace, state, log);
      log := log + [InnerClosed];
      state := if state == FirstCloseWait then FinWait else Closed;
    }

    /** Say goodbye, once the socket is ready. */
    method SayGoodbye(now: nat) returns (r: Outcome)
      requires Valid() && state == FinWait && inner.endpoint.Accepts(GOODBYE)
               && now >= inner.endpoint.layer.resend.lastScan
      modifies this`state, this`log, Below()
      ensures Valid() && state == if r == Ready then SecondCloseWait else FinWait
      ensures Marks(log) + state.ToDo() == old(Marks(log) + state.ToDo())
      ensures Sender.Held(inner.endpoint.layer.history) <= old(Sender.Held(inner.endpoint.layer.history)) + if r
              == Ready then 1 else 0
      ensures inner.endpoint.layer.seqNumWriteIndex == old(inner.endpoint.layer.seqNumWriteIndex)
      ensures inner.endpoint.layer.resend.lastScan <= now
      ensures r != Ready ==> inner.endpoint.Now() == old(inner.endpoint.Now())
      ensures old(Willing(FinWait, inner.outcomes)) ==> r == Ready && Willing(SecondCloseWait, inner.outcomes)
    {
      hide Willing;
      hide Kept;
      hide Endpoint.Endpoint.Valid;
      hide System.Enabled;
      hide System.Next;
      hide System.IsRun;
      hide Marks;
      WillingNext(FinWait, inner.outcomes);
      r := inner.Poll();
      if r != Ready {
        return;
      }
      r := inner.Poll();
      if r == Failed {
        return;
      }
      r := Ready;
      inner.endpoint.IsRun();
      ghost var mtu, channels := inner.endpoint.layer.mtu, inner.endpoint.channels;
      Endpoint.SendNeeds(mtu, inner.endpoint.Now(), GOODBYE);
      GoodbyeFrame(mtu, inner.endpoint.encoder.State());
      ghost var before := inner.endpoint.trace;
      ghost var moves := inner.endpoint.Send(GOODBYE, now);
      inner.endpoint.IsRun();
      RunPrefix(mtu, channels, before + moves, [System.SendMessage(GOODBYE)]);
      KeptMoves(mtu, channels, before, state, log, moves);
      log := log + Belows(moves);
      KeptGoodbye(mtu, channels, before + moves, log);
      log := log + [Goodbye];
      state := SecondCloseWait;
    }

    /** The layers below are waiting: for the clock, for the socket, or for an acknowledgement. */
    ghost predicate Stuck(r: Outcome, clock: seq<nat>)
      requires Valid()
      reads this, Below()
    {
      r == NotReady && (clock == [] || inner.endpoint.layer.socket.budget == 0
            || inner.endpoint.Now().sender.recorded != map[])
    }

    /** Numbers, time and counters suffice for the rest of a close that started with these. */
    ghost predicate Provided(start: Start, first: seq<nat>, at: nat, second: seq<nat>)
      requires Valid()
      reads this, Below()
    {
      var layer := inner.endpoint.layer;
      && (state.BeforeFinish() ==> inner.endpoint.Accepts(GOODBYE))
      && Enough(start, first, at, second)
      && Spent(state, start, first, at,
           Start(layer.seqNumWriteIndex, Sender.Held(layer.history), layer.resend.lastScan))
    }

    /** One turn of the close. */
    method Advance(strategy: Reliable.FlushStrategy, first: seq<nat>, at: nat, second: seq<nat>, ghost start: Start)
      returns (r: Outcome)
      requires Valid() && strategy.pack && state != Closed && Provided(start, first, at, second)
      modifies this`state, this`log, Below()
      ensures Valid() && (r == Ready ==> Provided(start, first, at, second))
      ensures if r == Ready then state.Rank() < old(state.Rank()) else state == old(state)
      ensures Marks(log) + state.ToDo() == old(Marks(log) + state.ToDo())
      ensures old(Willing(state, inner.outcomes)) ==>
                if r == Ready then Willing(state, inner.outcomes) else Stuck(r, first) || Stuck(r, second)
    {
      hide Willing;
      hide Stuck;
      hide Kept;
      hide Endpoint.Endpoint.Valid;
      hide System.Enabled;
      hide System.Next;
      hide System.IsRun;
      hide Marks;
      hide Timely;
      ghost var layer := inner.endpoint.layer;
      SpentEnough(state, start, first, at, second,
            Start(layer.seqNumWriteIndex, Sender.Held(layer.history), layer.resend.lastScan));
      match state
      case Connecting =>
        WillingNext(state, inner.outcomes);
        KeptStart(layer.mtu, inner.endpoint.channels, inner.endpoint.trace, log);
        state := FirstCloseWait;
        return Ready;
      case FirstCloseWait =>
        ghost var s := inner.endpoint.Now();
        r := WaitBelow(strategy, first);
        SameRoom(layer.mtu, s, inner.endpoint.Now(), GOODBYE);
      case FinWait =>
        r := SayGoodbye(at);
      case SecondCloseWait =>
        r := WaitBelow(strategy, second);
    }

    /**
     * Close in two waits around the goodbye: wait for the peer, say goodbye, wait again, then send
     * the close event. A failure or a wait leaves the state where it is, to be resumed. The clock reads
     * `first` in the first wait, `at` when the goodbye is handed down, and `second` in the last wait.
     */
    method PollClose(strategy: Reliable.FlushStrategy, first: seq<nat>, at: nat, second: seq<nat>) returns (r: Outcome)
      requires Valid() && strategy.pack && Provided(Here(), first, at, second)
      modifies this, Below(), if guard == null then {} else {guard, guard.events}
      ensures Valid() && state.Rank() <= old(state.Rank())
      ensures Marks(log) + state.ToDo() == old(Marks(log) + state.ToDo())
      ensures old(state) == Closed ==> r == Failed && log == old(log)
      ensures r == Ready ==> state == Closed && guard == null
      ensures r != Ready ==> guard == old(guard)
      ensures old(guard) != null ==>
                if r == Ready then !old(guard).live
                    && old(guard).events.queue == old(if guard.live then guard.events.queue + [guard.addr]
                                                      else guard.events.queue)
                else unchanged(old(guard)) && unchanged(old(guard).events)
      ensures old(state != Closed && Willing(state, inner.outcomes)) ==>
                r == Ready || Stuck(r, first) || Stuck(r, second)
    {
      hide Willing;
      hide Stuck;
      hide Provided;
      hide OutgoingState.ToDo;
      hide Kept;
      hide Endpoint.Endpoint.Valid;
      hide System.Enabled;
      hide System.Next;
      hide System.IsRun;
      hide Marks;
      if state == Closed {
        return Failed;
      }
      ghost var start := Here();
      while state != Closed
        invariant Valid() && Provided(start, first, at, second) && state.Rank() <= old(state.Rank())
        invariant Marks(log) + state.ToDo() == old(Marks(log) + state.ToDo())
        invariant old(Willing(state, inner.outcomes)) ==> Willing(state, inner.outcomes)
        invariant guard == old(guard) && (guard != null ==> unchanged(guard) && unchanged(guard.events))
        decreases state.Rank()
      {
        r := Advance(strategy, first, at, second, start);
        if r != Ready {
          return;
        }
      }
      if guard != null {
        guard.Drop();
      }
      guard := null;
      return Ready;
    }

    ghost function Here(): (start: Start)
      reads this, Below()
    {
      Start(inner.endpoint.layer.seqNumWriteIndex, Sender.Held(inner.endpoint.layer.history),
            inner.endpoint.layer.resend.lastScan)
    }
  }

  function Max(a: nat, b: nat): nat {
    if a >= b then a else b
  }

  function Latest(since: nat, clock: seq<nat>): nat {
    if clock == [] then since else Max(since, clock[|clock| - 1])
  }
}
