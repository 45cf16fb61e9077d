/** The end of a connection: what the goodbye may follow, and where the receiving stream stops. */
module Lifecycle {
  import opened Types
  import opened Book
  import Delivery
  import Endpoint
  import Streams
  import System

  type Addr = nat

  datatype Outcome = Ready | NotReady | Failed

  /** The queue of addresses whose connections were closed. */
  class CloseEvents {
    var queue: seq<Addr>

    constructor ()
      ensures queue == []
    {
      queue := [];
    }
  }

  /** Sends a close event when dropped, once. */
  class CloseOnDrop {
    const addr: Addr
    const events: CloseEvents
    var live: bool

    constructor (addr: Addr, events: CloseEvents)
      ensures this.addr == addr && this.events == events && live
    {
      this.addr, this.events, live := addr, events, true;
    }

    method Drop()
      modifies this`live, events
      ensures !live && events.queue == if old(live) then old(events.queue) + [addr] else old(events.queue)
    {
      if live {
        events.queue := events.queue + [addr];
      }
      live := false;
    }
  }

  /** A body is taken for a goodbye by its first byte alone. */
  const DISCONNECT_NOTIFICATION: Byte := 0x15

  predicate IsGoodbye(body: seq<Byte>) {
    body != [] && body[0] == DISCONNECT_NOTIFICATION
  }

  /** The bodies a receiving stream yields before it ends. */
  function UntilGoodbye(bodies: seq<seq<Byte>>): (r: seq<seq<Byte>>) {
    if bodies == [] || IsGoodbye(bodies[0]) then [] else [bodies[0]] + UntilGoodbye(bodies[1..])
  }

  class IncomingManager {
    const frame: Streams.Source<seq<Byte>>
    var closed: bool

    constructor (inner: Streams.Source<seq<Byte>>)
      ensures frame == inner && !closed
    {
      frame, closed := inner, false;
    }

    /** What the stream will still yield. */
    ghost function Remaining(): (r: seq<seq<Byte>>)
      reads this, frame
    {
      if closed then [] else UntilGoodbye(frame.queue)
    }

    /** Ends for good with the goodbye, or when the router is gone. */
    method PollNext() returns (r: Poll<seq<Byte>>)
      modifies this, frame`queue
      ensures match r
              case Item(body) => !closed && old(Remaining()) == [body] + Remaining() && !IsGoodbye(body)
              case Finished => closed && old(Remaining()) == []
              case Pending => !closed && old(Remaining()) == [] && !frame.closed
    {
      if closed {
        return Finished;
      }
      var next := frame.PollNext();
      match next
      case Pending =>
        return Pending;
      case Finished =>
        closed := true;
        return Finished;
      case Item(body) =>
        if IsGoodbye(body) {
          closed := true;
          return Finished;
        }
        return Poll.Item(body);
    }
  }

  /** The bodies of delivered frames as far as they can be read; errors are logged and skipped. */
  function Bodies(readable: seq<Byte> -> bool, items: seq<Result<Frame>>): (r: seq<seq<Byte>>) {
    if items == [] then [] else Body(readable, items[0]) + Bodies(readable, items[1..])
  }

  function Body(readable: seq<Byte> -> bool, item: Result<Frame>): (r: seq<seq<Byte>>) {
    if item.Ok? && readable(item.value.body) then [item.value.body] else []
  }

  /** A stream yields all there is exactly when nothing in it looks like a goodbye. */
  lemma {:induction false} YieldsAll(bodies: seq<seq<Byte>>)
    ensures UntilGoodbye(bodies) == bodies <==> forall i :: 0 <= i < |bodies| ==> !IsGoodbye(bodies[i])
    ensures UntilGoodbye(bodies) <= bodies
  {
    if bodies != [] {
      YieldsAll(bodies[1..]);
      if forall i :: 0 <= i < |bodies| ==> !IsGoodbye(bodies[i]) {
        assert forall i :: 0 <= i < |bodies[1..]| ==> bodies[1..][i] == bodies[i + 1];
      }
      if UntilGoodbye(bodies) == bodies {
        assert UntilGoodbye(bodies)[1..] == bodies[1..];
        forall i | 0 <= i < |bodies|
          ensures !IsGoodbye(bodies[i])
        {
          assert i > 0 ==> bodies[1..][i - 1] == bodies[i];
        }
      }
    }
  }

  lemma {:induction false} YieldsPrefix(a: seq<seq<Byte>>, b: seq<seq<Byte>>)
    requires forall i :: 0 <= i < |a| ==> !IsGoodbye(a[i])
    ensures UntilGoodbye(a + b) == a + UntilGoodbye(b)
  {
    if a == [] {
      assert a + b == b;
    } else {
      YieldsPrefix(a[1..], b);
      assert (a + b)[1..] == a[1..] + b;
    }
  }

  lemma {:induction false} BodiesAppend(readable: seq<Byte> -> bool, a: seq<Result<Frame>>, b: seq<Result<Frame>>)
    ensures Bodies(readable, a + b) == Bodies(readable, a) + Bodies(readable, b)
  {
    hide Body;
    if a == [] {
      assert a + b == b;
    } else {
      BodiesAppend(readable, a[1..], b);
      assert (a + b)[1..] == a[1..] + b;
      Associate(Body(readable, a[0]), Bodies(readable, a[1..]), Bodies(readable, b));
    }
  }

  /** No message of the book starts with the goodbye byte. */
  ghost predicate NoLookalike(book: seq<Sent>) {
    forall m :: 0 <= m < |book| ==> !IsGoodbye(book[m].msg.data)
  }

  lemma {:induction false} NoGoodbyeInside(readable: seq<Byte> -> bool, book: seq<Sent>, items: seq<Result<Frame>>)
    requires NoLookalike(book) && Delivery.Whole(book, items)
    ensures forall i :: 0 <= i < |Bodies(readable, items)| ==> !IsGoodbye(Bodies(readable, items)[i])
  {
    if items != [] {
      NoGoodbyeInside(readable, book, items[1..]);
    }
  }

  lemma {:induction false} ArrivedGrows(mtu: nat, s: System.State, steps: seq<System.Step>)
    requires System.IsRun(mtu, s, steps)
    ensures s.arrived <= System.Final(mtu, s, steps).arrived
    decreases |steps|
  {
    if steps != [] {
      StepArrived(mtu, s, steps[0]);
      ArrivedGrows(mtu, System.Next(mtu, s, steps[0]), steps[1..]);
    }
  }

  lemma StepArrived(mtu: nat, s: System.State, step: System.Step)
    requires System.Enabled(mtu, s, step)
    ensures s.arrived <= System.Next(mtu, s, step).arrived
  {
  }

  /**
   * Once the sender was drained, whatever happens afterwards: if no message accepted before looks
   * like a goodbye, the receiving stream yields every readable body delivered by then before it ends.
   */
  lemma DrainedComesFirst(mtu: nat, channels: nat, before: seq<System.Step>, after: seq<System.Step>,
                          cfg: Delivery.Config,
                          readable: seq<Byte> -> bool)
    requires mtu <= System.MAX_MTU && System.IsRun(mtu, System.Initial(channels), before)
    requires var s := System.Final(mtu, System.Initial(channels), before);
             && System.Drained(s) && System.IsRun(mtu, s, after)
             && NoLookalike(s.book)
    ensures var s := System.Final(mtu, System.Initial(channels), before);
            var s' := System.Final(mtu, s, after);
            var delivered := Delivery.Delivered(cfg, s.arrived);
            && Bodies(readable, delivered) <= UntilGoodbye(Bodies(readable, Delivery.Delivered(cfg, s'.arrived)))
            && WellBook(s.book)
            && Delivery.Accounted(s.book, cfg, s.arrived)
  {
    hide System.Inv;
    hide System.IsRun;
    hide System.Final;
    hide Delivery.Accounted;
    hide System.Drained;
    var s := System.Final(mtu, System.Initial(channels), before);
    System.CloseMeansReceived(mtu, channels, before);
    System.CloseMeansDelivered(mtu, channels, before, cfg);
    System.InitialInv(channels);
    System.RunInv(mtu, System.Initial(channels), before);
    System.ArrivedInBook(s);
    ArrivedGrows(mtu, s, after);
    StreamKeeps(readable, s.book, cfg, s.arrived, System.Final(mtu, s, after).arrived);
  }

  lemma StreamKeeps(readable: seq<Byte> -> bool, book: seq<Sent>, cfg: Delivery.Config, sets: seq<seq<Frame>>,
                    more: seq<seq<Frame>>)
    requires WellBook(book) && Delivery.AllInBook(book, sets) && NoLookalike(book) && sets <= more
    ensures Bodies(readable, Delivery.Delivered(cfg, sets))
            <= UntilGoodbye(Bodies(readable, Delivery.Delivered(cfg, more)))
  {
    hide WellBook;
    hide Delivery.AllInBook;
    hide Delivery.Delivered;
    var rest := more[|sets|..];
    assert more == sets + rest;
    Delivery.DeliveredGrows(cfg, sets, rest);
    Delivery.DeliveredWhole(book, cfg, sets);
    var a, all := Delivery.Delivered(cfg, sets), Delivery.Delivered(cfg, more);
    var b := all[|a|..];
    assert all == a + b;
    BodiesAppend(readable, a, b);
    NoGoodbyeInside(readable, book, a);
    YieldsPrefix(Bodies(readable, a), Bodies(readable, b));
  }

  /** A user message that starts with the goodbye byte does end the stream early. */
  lemma LookalikeEndsStream(body: seq<Byte>, rest: seq<seq<Byte>>)
    requires IsGoodbye(body)
    ensures UntilGoodbye([body] + rest) == []
  {
  }

  /** The notification a close sends. */
  const GOODBYE: Message := Message(Reliable, 0, Medium, [DISCONNECT_NOTIFICATION])

  /**
   * What the outgoing state manager sees: messages and internal bodies handed down, the goodbye, a
   * completed close of the layers below, and all that goes on below it or at the peer.
   */
  datatype Event =
    | Data(msg: Message)
    | Control(msg: Message)
    | Goodbye
    | InnerClosed
    | Below(step: System.Step)
  {
    function Steps(): (steps: seq<System.Step>) {
      match this
      case Data(msg) => [System.SendMessage(msg)]
      case Control(msg) => [System.SendMessage(msg)]
      case Goodbye => [System.SendMessage(GOODBYE)]
      case InnerClosed => []
      case Below(step) => [step]
    }

    /** Only the goodbye looks like one. */
    predicate Honest() {
      match this
      case Data(msg) => !IsGoodbye(msg.data)
      case Control(msg) => !IsGoodbye(msg.data)
      case Below(step) => step.SendMessage? ==> !IsGoodbye(step.msg.data)
      case _ => true
    }
  }

  function Steps(log: seq<Event>): (steps: seq<System.Step>) {
    if log == [] then [] else Steps(log[..|log| - 1]) + log[|log| - 1].Steps()
  }

  lemma {:induction false} StepsAppend(a: seq<Event>, b: seq<Event>)
    ensures Steps(a + b) == Steps(a) + Steps(b)
    decreases |b|
  {
    hide Event.Steps;
    if b == [] {
      assert a + b == a;
    } else {
      var front, last := b[..|b| - 1], b[|b| - 1];
      StepsAppend(a, front);
      assert (a + b)[..|a + b| - 1] == a + front;
      assert Steps(a) + Steps(front) + last.Steps() == Steps(a) + (Steps(front) + last.Steps());
    }
  }

  function Belows(steps: seq<System.Step>): (log: seq<Event>)
    ensures |log| == |steps|
  {
    seq(|steps|, i requires 0 <= i < |steps| => Below(steps[i]))
  }

  lemma {:induction false} StepsOfBelows(steps: seq<System.Step>)
    ensures Steps(Belows(steps)) == steps
  {
    if steps != [] {
      var front := steps[..|steps| - 1];
      StepsOfBelows(front);
      assert Belows(steps)[..|steps| - 1] == Belows(front);
    }
  }

  /** The layers below are drained after these steps. */
  ghost predicate DrainedAfter(mtu: nat, channels: nat, steps: seq<System.Step>) {
    System.IsRun(mtu, System.Initial(channels), steps)
        && System.Drained(System.Final(mtu, System.Initial(channels), steps))
  }

  /** The log is a run of the system in which a close of the layers below completed only when they were drained. */
  ghost predicate Grounded(mtu: nat, channels: nat, log: seq<Event>) {
    && System.IsRun(mtu, System.Initial(channels), Steps(log))
    && forall k :: 0 <= k < |log| && log[k] == InnerClosed ==> DrainedAfter(mtu, channels, Steps(log[..k]))
  }

  lemma GroundedMore(mtu: nat, channels: nat, log: seq<Event>, more: seq<Event>)
    requires Grounded(mtu, channels, log) && System.IsRun(mtu, System.Initial(channels), Steps(log) + Steps(more))
    requires forall i :: 0 <= i < |more| ==> more[i] != InnerClosed
    ensures Grounded(mtu, channels, log + more) && Steps(log + more) == Steps(log) + Steps(more)
  {
    hide DrainedAfter;
    StepsAppend(log, more);
    forall k | 0 <= k < |log + more| && (log + more)[k] == InnerClosed
      ensures DrainedAfter(mtu, channels, Steps((log + more)[..k]))
    {
      assert (log + more)[..k] == log[..k];
    }
  }

  lemma GroundedClose(mtu: nat, channels: nat, log: seq<Event>)
    requires Grounded(mtu, channels, log) && System.Drained(System.Final(mtu, System.Initial(channels), Steps(log)))
    ensures Grounded(mtu, channels, log + [InnerClosed]) && Steps(log + [InnerClosed]) == Steps(log)
  {
    hide System.IsRun;
    hide System.Final;
    assert (log + [InnerClosed])[..|log|] == log;
    assert Steps(log) + [] == Steps(log);
    forall k | 0 <= k < |log + [InnerClosed]| && (log + [InnerClosed])[k] == InnerClosed
      ensures DrainedAfter(mtu, channels, Steps((log + [InnerClosed])[..k]))
    {
      assert k < |log| ==> (log + [InnerClosed])[..k] == log[..k];
    }
  }

  datatype OutgoingState = Connecting | FirstCloseWait | FinWait | SecondCloseWait | Closed
  {
    predicate BeforeFinish() {
      Connecting? || FirstCloseWait? || FinWait?
    }

    /** What a close still has to bring about from here. */
    function ToDo(): (events: seq<Event>) {
      match this
      case Connecting => [InnerClosed, Goodbye, InnerClosed]
      case FirstCloseWait => [InnerClosed, Goodbye, InnerClosed]
      case FinWait => [Goodbye, InnerClosed]
      case SecondCloseWait => [InnerClosed]
      case Closed => []
    }

    function Rank(): nat {
      match this
      case Connecting => 4
      case FirstCloseWait => 3
      case FinWait => 2
      case SecondCloseWait => 1
      case Closed => 0
    }
  }

  /** The goodbyes and completed closes of a log. */
  function Marks(log: seq<Event>): (marks: seq<Event>) {
    if log == [] then []
    else
      var last := log[|log| - 1];
      Marks(log[..|log| - 1]) + if last == Goodbye || last == InnerClosed then [last] else []
  }

  lemma MarksSnoc(log: seq<Event>, e: Event)
    ensures Marks(log + [e]) == Marks(log) + if e == Goodbye || e == InnerClosed then [e] else []
  {
    assert (log + [e])[..|log|] == log;
  }

  lemma {:induction false} MarksBelow(log: seq<Event>, steps: seq<System.Step>)
    ensures Marks(log + Belows(steps)) == Marks(log)
    decreases |steps|
  {
    if steps == [] {
      assert log + Belows(steps) == log;
    } else {
      var front := steps[..|steps| - 1];
      MarksBelow(log, front);
      assert (log + Belows(steps))[..|log| + |front|] == log + Belows(front);
    }
  }

  /** The goodbye stands at `g` and nowhere else, after a completed close below, with no control body behind it. */
  ghost predicate GoodbyeAt(log: seq<Event>, g: nat) {
    && g < |log| && log[g] == Goodbye
    && (forall i :: 0 <= i < |log| && log[i] == Goodbye ==> i == g)
    && (forall i :: g < i < |log| ==> !log[i].Control?)
    && (exists k :: 0 <= k < g && log[k] == InnerClosed)
  }

  /** The goodbye is handed down at most once, only after a completed close, and the state says how far things are. */
  ghost predicate Orderly(state: OutgoingState, log: seq<Event>) {
    match state
    case Connecting => Goodbye !in log
    case FirstCloseWait => Goodbye !in log
    case FinWait => Goodbye !in log && InnerClosed in log
    case SecondCloseWait => exists g: nat :: GoodbyeAt(log, g)
    case Closed => exists g: nat :: GoodbyeAt(log, g) && InnerClosed in log[g..]
  }

  /** Whatever else happens leaves the place of the goodbye alone. */
  lemma OthersKeep(state: OutgoingState, log: seq<Event>, more: seq<Event>)
    requires Orderly(state, log) && forall i :: 0 <= i < |more| ==> more[i] != Goodbye && more[i] != InnerClosed
    requires forall i :: 0 <= i < |more| && more[i].Control? ==> state.BeforeFinish()
    ensures Orderly(state, log + more)
  {
    var log' := log + more;
    if !state.BeforeFinish() {
      var g: nat :| GoodbyeAt(log, g) && (state == Closed ==> InnerClosed in log[g..]);
      GoodbyeStays(log, g, more);
      assert log'[g..] == log[g..] + more;
    }
  }

  lemma GoodbyeStays(log: seq<Event>, g: nat, more: seq<Event>)
    requires GoodbyeAt(log, g) && forall i :: 0 <= i < |more| ==> more[i] != Goodbye && !more[i].Control?
    ensures GoodbyeAt(log + more, g)
  {
    var k :| 0 <= k < g && log[k] == InnerClosed;
    assert (log + more)[k] == InnerClosed;
  }

  lemma FirstAdvances(log: seq<Event>)
    ensures Orderly(Connecting, log) ==> Orderly(FirstCloseWait, log)
    ensures Orderly(FirstCloseWait, log) ==> Orderly(FinWait, log + [InnerClosed])
  {
    assert (log + [InnerClosed])[|log|] == InnerClosed;
  }

  lemma GoodbyeAdvances(log: seq<Event>)
    requires Orderly(FinWait, log)
    ensures Orderly(SecondCloseWait, log + [Goodbye])
  {
    var k :| 0 <= k < |log| && log[k] == InnerClosed;
    assert (log + [Goodbye])[k] == InnerClosed;
    assert GoodbyeAt(log + [Goodbye], |log|);
  }

  lemma CloseAdvances(log: seq<Event>)
    requires Orderly(SecondCloseWait, log)
    ensures Orderly(Closed, log + [InnerClosed])
  {
    var g: nat :| GoodbyeAt(log, g);
    GoodbyeStays(log, g, [InnerClosed]);
    assert (log + [InnerClosed])[g..][|log| - g] == InnerClosed;
  }

  ghost predicate AllHonest(log: seq<Event>) {
    forall i :: 0 <= i < |log| ==> log[i].Honest()
  }

  lemma {:induction false} RunSplit(mtu: nat, s: System.State, a: seq<System.Step>, b: seq<System.Step>)
    requires System.IsRun(mtu, s, a + b)
    ensures System.IsRun(mtu, s, a) && System.IsRun(mtu, System.Final(mtu, s, a), b)
    ensures System.Final(mtu, s, a + b) == System.Final(mtu, System.Final(mtu, s, a), b)
    decreases |a|
  {
    hide System.Next;
    if a == [] {
      assert a + b == b;
    } else {
      assert (a + b)[1..] == a[1..] + b;
      RunSplit(mtu, System.Next(mtu, s, a[0]), a[1..], b);
    }
  }

  /** A run that sends nothing that looks like a goodbye has no such message in its book. */
  lemma {:induction false} HonestBook(mtu: nat, s: System.State, steps: seq<System.Step>)
    requires System.IsRun(mtu, s, steps) && NoLookalike(s.book)
    requires forall i :: 0 <= i < |steps| && steps[i].SendMessage? ==> !IsGoodbye(steps[i].msg.data)
    ensures NoLookalike(System.Final(mtu, s, steps).book)
    decreases |steps|
  {
    hide System.Next;
    if steps != [] {
      HonestStep(mtu, s, steps[0]);
      HonestBook(mtu, System.Next(mtu, s, steps[0]), steps[1..]);
    }
  }

  lemma HonestStep(mtu: nat, s: System.State, step: System.Step)
    requires System.Enabled(mtu, s, step) && NoLookalike(s.book) && (step.SendMessage? ==> !IsGoodbye(step.msg.data))
    ensures NoLookalike(System.Next(mtu, s, step).book)
  {
  }

  lemma {:induction false} HonestSteps(log: seq<Event>)
    requires AllHonest(log) && Goodbye !in log
    ensures forall i :: 0 <= i < |Steps(log)| && Steps(log)[i].SendMessage? ==> !IsGoodbye(Steps(log)[i].msg.data)
  {
    if log != [] {
      HonestSteps(log[..|log| - 1]);
      assert log[|log| - 1].Honest();
    }
  }

  /**
   * What a completed close before the goodbye means for the receiver: everything delivered by then is
   * yielded first, every frame of every reliable message had arrived, and every delivery of these messages
   * is accounted for: all once, when the decoder's cache had room and none was over a limit.
   */
  ghost predicate ComesFirst(mtu: nat, channels: nat, steps: seq<System.Step>, all: seq<System.Step>,
                             cfg: Delivery.Config, readable: seq<Byte> -> bool) {
    && System.IsRun(mtu, System.Initial(channels), steps) && System.IsRun(mtu, System.Initial(channels), all)
    && var s, s' := System.Final(mtu, System.Initial(channels), steps),
       System.Final(mtu, System.Initial(channels), all);
       var delivered := Delivery.Delivered(cfg, s.arrived);
       && Bodies(readable, delivered) <= UntilGoodbye(Bodies(readable, Delivery.Delivered(cfg, s'.arrived)))
       && Endpoint.AllReceived(s)
       && Delivery.Accounted(s.book, cfg, s.arrived)
  }

  lemma ClosedBeforeGoodbye(mtu: nat, channels: nat, log: seq<Event>, g: nat, k: nat, cfg: Delivery.Config,
                            readable: seq<Byte> -> bool)
    requires mtu <= System.MAX_MTU && Grounded(mtu, channels, log) && AllHonest(log) && GoodbyeAt(log, g) && k < g
             && log[k] == InnerClosed
    ensures ComesFirst(mtu, channels, Steps(log[..k]), Steps(log), cfg, readable)
  {
    hide System.IsRun;
    hide System.Final;
    hide System.Drained;
    hide Steps;
    hide Bodies;
    hide UntilGoodbye;
    hide WellBook;
    hide Delivery.Accounted;
    hide Delivery.Delivered;
    assert DrainedAfter(mtu, channels, Steps(log[..k]));
    assert log == log[..k] + log[k..];
    StepsAppend(log[..k], log[k..]);
    RunSplit(mtu, System.Initial(channels), Steps(log[..k]), Steps(log[k..]));
    HonestBefore(mtu, channels, log, g, k);
    DrainedComesFirst(mtu, channels, Steps(log[..k]), Steps(log[k..]), cfg, readable);
    System.CloseMeansReceived(mtu, channels, Steps(log[..k]));
  }

  lemma HonestBefore(mtu: nat, channels: nat, log: seq<Event>, g: nat, k: nat)
    requires AllHonest(log) && GoodbyeAt(log, g) && k < g
             && System.IsRun(mtu, System.Initial(channels), Steps(log[..k]))
    ensures NoLookalike(System.Final(mtu, System.Initial(channels), Steps(log[..k])).book)
  {
    hide System.IsRun;
    hide System.Final;
    hide Event.Honest;
    HonestSteps(log[..k]);
    HonestBook(mtu, System.Initial(channels), Steps(log[..k]));
  }

  /**
   * Goodbye comes last. In every state of an outgoing manager whose users send nothing that looks like
   * a goodbye: either no goodbye is among the delivered bodies, and the receiving stream yields all of
   * them, or the goodbye was handed down after completed closes of the layers below, and before it ends
   * the stream yields everything delivered by any of these closes.
   */
  lemma GoodbyeComesLast(mtu: nat, channels: nat, state: OutgoingState, log: seq<Event>, cfg: Delivery.Config,
                         readable: seq<Byte> -> bool)
    requires mtu <= System.MAX_MTU && Grounded(mtu, channels, log) && Orderly(state, log) && AllHonest(log)
    ensures var bodies := Bodies(readable,
              Delivery.Delivered(cfg, System.Final(mtu, System.Initial(channels), Steps(log)).arrived));
            || UntilGoodbye(bodies) == bodies
            || exists g: nat :: GoodbyeAt(log, g) && forall k: nat :: k < g && log[k] == InnerClosed ==>
                 ComesFirst(mtu, channels, Steps(log[..k]), Steps(log), cfg, readable)
  {
    hide System.IsRun;
    hide System.Final;
    hide System.Inv;
    hide ComesFirst;
    hide Event.Honest;
    hide AllHonest;
    hide Grounded;
    if Goodbye !in log {
      NothingEnds(mtu, channels, log, cfg, readable);
    } else {
      var g: nat :| GoodbyeAt(log, g);
      forall k: nat | k < g && log[k] == InnerClosed
        ensures ComesFirst(mtu, channels, Steps(log[..k]), Steps(log), cfg, readable)
      {
        ClosedBeforeGoodbye(mtu, channels, log, g, k, cfg, readable);
      }
    }
  }

  lemma NothingEnds(mtu: nat, channels: nat, log: seq<Event>, cfg: Delivery.Config, readable: seq<Byte> -> bool)
    requires mtu <= System.MAX_MTU && Grounded(mtu, channels, log) && AllHonest(log) && Goodbye !in log
    ensures var bodies := Bodies(readable,
              Delivery.Delivered(cfg, System.Final(mtu, System.Initial(channels), Steps(log)).arrived));
            UntilGoodbye(bodies) == bodies
  {
    hide System.IsRun;
    hide System.Final;
    hide System.Inv;
    hide WellBook;
    hide Delivery.AllInBook;
    hide Delivery.Delivered;
    var s := System.Final(mtu, System.Initial(channels), Steps(log));
    HonestSteps(log);
    HonestBook(mtu, System.Initial(channels), Steps(log));
    System.InitialInv(channels);
    System.RunInv(mtu, System.Initial(channels), Steps(log));
    System.ArrivedInBook(s);
    Delivery.DeliveredWhole(s.book, cfg, s.arrived);
    NoGoodbyeInside(readable, s.book, Delivery.Delivered(cfg, s.arrived));
    YieldsAll(Bodies(readable, Delivery.Delivered(cfg, s.arrived)));
  }
}
