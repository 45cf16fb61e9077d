/** The server's front door: the offline handler, and the router that hands packets to connections. */
module Server {
  import opened Types
  import opened Lifecycle
  import opened Handshake
  import Outgoing
  import Packet
  import Reliable

  predicate NoFailure(outcomes: seq<Outcome>) {
    forall i :: 0 <= i < |outcomes| ==> outcomes[i] != Failed
  }

  /** The next `n` polls are answered with ready. */
  predicate Willing(outcomes: seq<Outcome>, n: nat) {
    n <= |outcomes| && forall i :: 0 <= i < |outcomes| ==> outcomes[i] == Ready
  }

  /** The datagram socket: packets in, replies out. `outcomes` answers successive sink polls. */
  class Socket {
    var queue: seq<Inbound>
    var closed: bool
    var outcomes: seq<Outcome>
    var sent: seq<Letter>

    method PollNext() returns (r: Poll<Inbound>)
      modifies this`queue
      ensures match r
              case Item(p) => old(queue) == [p] + queue
              case Finished => old(queue) == queue == [] && closed
              case Pending => old(queue) == queue == [] && !closed
    {
      if queue == [] {
        return if closed then Finished else Pending;
      }
      r := Item(queue[0]);
      queue := queue[1..];
    }

    method Poll() returns (r: Outcome)
      modifies this`outcomes
      ensures r == if old(outcomes) == [] then NotReady else old(outcomes)[0]
      ensures outcomes == if old(outcomes) == [] then [] else old(outcomes)[1..]
    {
      if outcomes == [] {
        return NotReady;
      }
      r := outcomes[0];
      outcomes := outcomes[1..];
    }

    method StartSend(letter: Letter) returns (ok: bool)
      modifies this`outcomes, this`sent
      ensures sent == if ok then old(sent) + [letter] else old(sent)
      ensures !ok ==> old(outcomes) != [] && old(outcomes)[0] == Failed
      ensures outcomes == if old(outcomes) == [] then [] else old(outcomes)[1..]
    {
      var r := Poll();
      ok := r != Failed;
      if ok {
        sent := sent + [letter];
      }
    }
  }

  /** What the handler yields for packets still to be read, whatever becomes of the replies. */
  function Yields(cfg: Config, h: Handshakes, queue: seq<Inbound>): (r: seq<Yield>)
    requires cfg.Well()
    decreases |queue|
  {
    if queue == [] then []
    else
      var t := Handle(cfg, h, queue[0]);
      t.out + Yields(cfg, t.after, queue[1..])
  }

  /** All replies a history calls for, in order. */
  function Replies(cfg: Config, history: seq<Happening>): (r: seq<Letter>)
    requires cfg.Well()
  {
    if history == [] then []
    else
      var before, e := history[..|history| - 1], history[|history| - 1];
      var reply := Apply(cfg, Replay(cfg, before), e).reply;
      Replies(cfg, before) + if e.Got? && reply.Some? then [(reply.value, e.p.addr)] else []
  }

  function Gots(queue: seq<Inbound>): (r: seq<Happening>) {
    seq(|queue|, i requires 0 <= i < |queue| => Got(queue[i]))
  }

  lemma ReplaySnoc(cfg: Config, history: seq<Happening>, e: Happening)
    requires cfg.Well()
    ensures var t := Apply(cfg, Replay(cfg, history), e);
            && Replay(cfg, history + [e]) == t.after
            && Replies(cfg, history + [e]) == Replies(cfg, history) + if e.Got? && t.reply.Some?
                 then [(t.reply.value, e.p.addr)] else []
  {
    assert (history + [e])[..|history|] == history;
  }

  datatype OfflineState = Listening | SendingPrepare(letter: Letter) | SendingFlush
  {
    function InHand(): (m: multiset<Letter>) {
      if SendingPrepare? then multiset{letter} else multiset{}
    }

    /** Polls until the reply is out. */
    function Polls(): nat {
      if Listening? then 0 else if SendingFlush? then 1 else 3
    }

    function Rank(): nat {
      if Listening? then 0 else if SendingFlush? then 1 else 2
    }
  }

  function Sending(t: Turn, addr: Addr): (s: OfflineState) {
    if t.reply.Some? then SendingPrepare((t.reply.value, addr)) else Listening
  }

  /** The handshakes are those of the history, and every reply called for was sent, is in hand or was refused. */
  ghost predicate InStep(cfg: Config, h: Handshakes, state: OfflineState, sent: seq<Letter>, lost: multiset<Letter>,
                         history: seq<Happening>)
    requires cfg.Well()
  {
    && h == Replay(cfg, history)
    && multiset(sent) + state.InHand() + lost == multiset(Replies(cfg, history))
  }

  lemma HandledInStep(cfg: Config, h: Handshakes, sent: seq<Letter>, lost: multiset<Letter>, history: seq<Happening>,
                      p: Inbound)
    requires cfg.Well() && InStep(cfg, h, Listening, sent, lost, history)
    ensures InStep(cfg, Handle(cfg, h, p).after, Sending(Handle(cfg, h, p), p.addr), sent, lost, history + [Got(p)])
  {
    hide Handle;
    ReplaySnoc(cfg, history, Got(p));
  }

  lemma GoneInStep(cfg: Config, h: Handshakes, state: OfflineState, sent: seq<Letter>, lost: multiset<Letter>,
                   history: seq<Happening>, addr: Addr)
    requires cfg.Well() && InStep(cfg, h, state, sent, lost, history)
    ensures InStep(cfg, Handshakes(Dropped(h.pending, addr), h.connected - {addr}), state, sent, lost, history
              + [Gone(addr)])
  {
    ReplaySnoc(cfg, history, Gone(addr));
    assert Replies(cfg, history) + [] == Replies(cfg, history);
  }

  /** A reply leaves the hand: sent, or refused. */
  lemma SentInStep(cfg: Config, h: Handshakes, letter: Letter, sent: seq<Letter>, lost: multiset<Letter>,
                   history: seq<Happening>)
    requires cfg.Well() && InStep(cfg, h, SendingPrepare(letter), sent, lost, history)
    ensures InStep(cfg, h, SendingFlush, sent + [letter], lost, history)
    ensures InStep(cfg, h, Listening, sent, lost + multiset{letter}, history)
  {
  }

  lemma FlushedInStep(cfg: Config, h: Handshakes, sent: seq<Letter>, lost: multiset<Letter>, history: seq<Happening>)
    requires cfg.Well() && InStep(cfg, h, SendingFlush, sent, lost, history)
    ensures InStep(cfg, h, Listening, sent, lost, history)
  {
  }

  /** A peer is filed under its own address. */
  lemma Named(cfg: Config, h: Handshakes, state: OfflineState, sent: seq<Letter>, lost: multiset<Letter>,
              history: seq<Happening>, addr: Addr)
    requires cfg.Well() && InStep(cfg, h, state, sent, lost, history) && addr in h.connected
    ensures h.connected[addr].addr == addr
  {
    HandshakeSafety(cfg, history);
    assert Earned(cfg, history, addr, h.connected[addr]);
  }

  /** Whoever is connected stays so, unchanged, until gone. */
  lemma HandleKeeps(cfg: Config, h: Handshakes, p: Inbound, a: Addr)
    requires cfg.Well() && a in h.connected
    ensures var h' := Handle(cfg, h, p).after; a in h'.connected && h'.connected[a] == h.connected[a]
  {
  }

  lemma GotsStep(history: seq<Happening>, p: Inbound, queue: seq<Inbound>)
    ensures history + Gots([p] + queue) == history + [Got(p)] + Gots(queue)
  {
  }

  class OfflineHandler {
    const frame: Socket
    const cfg: Config
    var pending: seq<(Addr, Byte)>
    var connected: map<Addr, Peer>
    var state: OfflineState
    ghost var history: seq<Happening>
    /** Replies the socket refused. */
    ghost var lost: multiset<Letter>

    ghost function View(): (h: Handshakes)
      reads this
    {
      Handshakes(pending, connected)
    }

    ghost predicate Valid()
      reads this, frame
    {
      cfg.Well() && InStep(cfg, View(), state, frame.sent, lost, history)
    }

    ghost function Remaining(): (r: seq<Yield>)
      requires cfg.Well()
      reads this, frame
    {
      Yields(cfg, View(), frame.queue)
    }

    constructor (frame: Socket, cfg: Config)
      requires cfg.Well() && frame.sent == []
      ensures Valid() && this.frame == frame && this.cfg == cfg
      ensures pending == [] && connected == map[] && history == [] && lost == multiset{}
    {
      this.frame, this.cfg := frame, cfg;
      pending, connected, state := [], map[], Listening;
      history, lost := [], multiset{};
    }

    method Disconnect(addr: Addr)
      requires Valid()
      modifies this`pending, this`connected, this`history
      ensures Valid() && history == old(history) + [Gone(addr)]
      ensures connected == old(connected) - {addr}
    {
      hide InStep;
      GoneInStep(cfg, View(), state, frame.sent, lost, history, addr);
      pending := Dropped(pending, addr);
      connected := connected - {addr};
      history := history + [Gone(addr)];
    }

    /** One turn of the reply that is on its way out; a socket willing to take it leaves `spare` polls. */
    method Send(ghost spare: nat) returns (wait: bool)
      requires Valid() && state != Listening
      modifies this`state, this`lost, frame`outcomes, frame`sent
      ensures Valid()
      ensures wait ==> state == old(state)
      ensures Willing(old(frame.outcomes), spare + old(state.Polls())) ==>
                !wait && Willing(frame.outcomes, spare + state.Polls())
      ensures NoFailure(old(frame.outcomes)) ==> NoFailure(frame.outcomes) && lost == old(lost)
      ensures !wait ==> state.Rank() < old(state.Rank())
    {
      hide InStep;
      var r := frame.Poll();
      wait := r == NotReady;
      if wait {
        return;
      }
      match state
      case SendingPrepare(letter) =>
        SentInStep(cfg, View(), letter, frame.sent, lost, history);
        var ok := false;
        if r != Failed {
          ok := frame.StartSend(letter);
        }
        if ok {
          state := SendingFlush;
        } else {
          state, lost := Listening, lost + multiset{letter};
        }
      case SendingFlush =>
        FlushedInStep(cfg, View(), frame.sent, lost, history);
        state := Listening;
    }

    /** One packet off the socket. */
    method Take(p: Inbound) returns (y: Option<Yield>)
      requires Valid() && state == Listening
      modifies this`pending, this`connected, this`state, this`history
      ensures Valid() && history == old(history) + [Got(p)]
      ensures var t := Handle(cfg, old(View()), p);
              && View() == t.after
              && t.out == (if y.Some? then [y.value] else [])
              && state == Sending(t, p.addr)
      ensures y.Some? ==> p.addr in connected && y.value.1 == connected[p.addr]
    {
      hide InStep;
      hide Dropped;
      hide Put;
      hide Clamp;
      y := None;
      HandledInStep(cfg, View(), frame.sent, lost, history, p);
      history := history + [Got(p)];
      match p
      case Connected(addr, pack) =>
        if addr in connected {
          return Some((pack, connected[addr]));
        }
        state := SendingPrepare((RequestFailed, addr));
      case Ping(addr, timestamp) =>
        state := SendingPrepare((Pong(timestamp), addr));
      case Request1(addr, version, mtu) =>
        if version !in cfg.support {
          state := SendingPrepare((Incompatible(cfg.support[|cfg.support| - 1]), addr));
          return;
        }
        pending := Put(cfg.maxPending, pending, addr, version);
        state := SendingPrepare((Reply1(Clamp(cfg, mtu)), addr));
      case Request2(addr, mtu, guid) =>
        if !IsPending(pending, addr) {
          state := SendingPrepare((Incompatible(cfg.support[|cfg.support| - 1]), addr));
          return;
        }
        pending := Dropped(pending, addr);
        if !cfg.Fits(mtu) || addr in connected {
          state := SendingPrepare((AlreadyConnected, addr));
          return;
        }
        connected := connected[addr := Peer(addr, mtu, guid)];
        state := SendingPrepare((Reply2(addr, mtu), addr));
      case Other(_) =>
    }

    /** Read the socket once; stop unless a packet came in that yields nothing. */
    method Read() returns (stop: bool, r: Poll<Yield>)
      requires Valid() && state == Listening
      modifies this`pending, this`connected, this`state, this`history, frame`queue
      ensures Valid()
      ensures history + Gots(frame.queue) == old(history + Gots(frame.queue))
      ensures stop || |frame.queue| < |old(frame.queue)|
      ensures stop && r.Pending? ==> state == Listening && frame.queue == [] && !frame.closed
      ensures !stop && Willing(frame.outcomes, 3 * |old(frame.queue)|) ==>
                Willing(frame.outcomes, 3 * |frame.queue| + state.Polls())
      ensures stop && r.Finished? ==> Remaining() == [] && frame.closed
      ensures old(Remaining()) == (if stop && r.Item? then [r.item] else []) + Remaining()
      ensures stop && r.Item? ==>
                r.item.1.addr in connected && r.item.1 == connected[r.item.1.addr] && |frame.queue| < |old(frame.queue)|
      ensures |frame.queue| <= |old(frame.queue)|
      ensures forall a :: a in old(connected) ==> a in connected && connected[a] == old(connected)[a]
    {
      hide InStep;
      hide Handle;
      hide Gots;
      var next := frame.PollNext();
      match next
      case Pending =>
        return true, Pending;
      case Finished =>
        return true, Finished;
      case Item(p) =>
        GotsStep(history, p, frame.queue);
        forall a | a in connected
          ensures var h := Handle(cfg, View(), p).after; a in h.connected && h.connected[a] == connected[a]
        {
          HandleKeeps(cfg, View(), p, a);
        }
        var y := Take(p);
        if y.None? {
          return false, Pending;
        }
        Named(cfg, View(), state, frame.sent, lost, history, p.addr);
        return true, Item(y.value);
    }

    /**
     * The stream of packets from connected peers: what it yields depends on the packets alone, and no packet is
     * lost or read twice, whatever the socket does to the replies.
     */
    method PollNext() returns (r: Poll<Yield>)
      requires Valid()
      modifies this, frame
      ensures Valid()
      ensures history + Gots(frame.queue) == old(history + Gots(frame.queue))
      ensures match r
              case Item(y) =>
                old(Remaining()) == [y] + Remaining() && y.1.addr in connected && y.1 == connected[y.1.addr]
              case Finished => old(Remaining()) == Remaining() == [] && frame.closed
              case Pending =>
                old(Remaining()) == Remaining() && (state == Listening ==> frame.queue == [] && !frame.closed)
      ensures Willing(old(frame.outcomes), 3 * |old(frame.queue)| + old(state.Polls())) && r.Pending? ==>
                state == Listening
      ensures |frame.queue| <= |old(frame.queue)| && (r.Item? ==> |frame.queue| < |old(frame.queue)|)
      ensures frame.closed == old(frame.closed)
      ensures NoFailure(old(frame.outcomes)) ==> NoFailure(frame.outcomes) && lost == old(lost)
      ensures forall a :: a in old(connected) ==> a in connected && connected[a] == old(connected)[a]
    {
      hide InStep;
      hide NoFailure;
      hide Willing;
      hide Gots;
      hide Yields;
      while true
        invariant Valid() && Remaining() == old(Remaining())
        invariant history + Gots(frame.queue) == old(history + Gots(frame.queue))
        invariant |frame.queue| <= |old(frame.queue)| && frame.closed == old(frame.closed)
        invariant NoFailure(old(frame.outcomes)) ==> NoFailure(frame.outcomes) && lost == old(lost)
        invariant Willing(old(frame.outcomes), 3 * |old(frame.queue)| + old(state.Polls())) ==>
                    Willing(frame.outcomes, 3 * |frame.queue| + state.Polls())
        invariant forall a :: a in old(connected) ==> a in connected && connected[a] == old(connected)[a]
        decreases |frame.queue|, state.Rank()
      {
        if state != Listening {
          var flushing := state == SendingFlush;
          var wait := Send(3 * |frame.queue|);
          if wait {
            return Pending;
          }
          if !flushing {
            continue;
          }
        }
        var stop;
        stop, r := Read();
        if stop {
          return;
        }
      }
    }
  }

  /** A connection's place in the router: its peer, and the packets handed to its route so far. */
  datatype Session = Session(peer: Peer, delivered: seq<Packet.Packet>)

  function Deliver(router: map<Addr, Session>, y: Yield): (r: map<Addr, Session>) {
    var a := y.1.addr;
    router[a := if a in router then router[a].(delivered := router[a].delivered + [y.0]) else Session(y.1, [y.0])]
  }

  function DeliverAll(router: map<Addr, Session>, ys: seq<Yield>): (r: map<Addr, Session>) {
    if ys == [] then router else Deliver(DeliverAll(router, ys[..|ys| - 1]), ys[|ys| - 1])
  }

  function PacksFrom(ys: seq<Yield>, a: Addr): (r: seq<Packet.Packet>) {
    if ys == [] then []
    else
      var last := ys[|ys| - 1];
      PacksFrom(ys[..|ys| - 1], a) + if last.1.addr == a then [last.0] else []
  }

  /** Routing neither mixes peers up nor loses, repeats or reorders a packet. */
  lemma {:induction false} RoutesByAddress(router: map<Addr, Session>, ys: seq<Yield>, a: Addr)
    ensures var r := DeliverAll(router, ys);
            && (a in r <==> a in router || PacksFrom(ys, a) != [])
            && (a in r ==> r[a].delivered == (if a in router then router[a].delivered else []) + PacksFrom(ys, a))
            && (a in router ==> r[a].peer == router[a].peer)
  {
    if ys != [] {
      RoutesByAddress(router, ys[..|ys| - 1], a);
    }
  }

  lemma DeliverSnoc(router: map<Addr, Session>, ys: seq<Yield>, y: Yield)
    ensures DeliverAll(router, ys + [y]) == Deliver(DeliverAll(router, ys), y)
  {
    assert (ys + [y])[..|ys|] == ys;
  }

  lemma Filed(router: map<Addr, Session>, y: Yield)
    ensures var r := Deliver(router, y);
            && r.Keys == router.Keys + {y.1.addr}
            && (y.1.addr !in router ==> r[y.1.addr].peer == y.1)
  {
  }

  /** Every routed address is due exactly one close event: still guarded, or already queued. */
  ghost predicate Balanced(router: map<Addr, Session>, live: set<Addr>, queue: seq<Addr>) {
    forall a: Addr :: (if a in live then 1 else 0) + multiset(queue)[a] == if a in router then 1 else 0
  }

  /** Every routed peer is one that completed the handshake, unchanged since. */
  ghost predicate Admitted(router: map<Addr, Session>, connected: map<Addr, Peer>) {
    forall a :: a in router ==> a in connected && router[a].peer == connected[a]
  }

  lemma Dropping(router: map<Addr, Session>, live: set<Addr>, queue: seq<Addr>, a: Addr)
    requires Balanced(router, live, queue) && a in live
    ensures Balanced(router, live - {a}, queue + [a])
  {
    assert multiset(queue + [a]) == multiset(queue) + multiset{a};
  }

  /** The event at the head of the queue names a routed connection, and is the last one due for it. */
  lemma Draining(router: map<Addr, Session>, live: set<Addr>, queue: seq<Addr>)
    requires Balanced(router, live, queue) && queue != []
    ensures queue[0] in router && queue[0] !in live && Balanced(router - {queue[0]}, live, queue[1..])
  {
    assert queue == [queue[0]] + queue[1..];
    assert multiset(queue) == multiset{queue[0]} + multiset(queue[1..]);
    assert (if queue[0] in live then 1 else 0) + multiset(queue)[queue[0]] == 1;
  }

  lemma Delivering(router: map<Addr, Session>, live: set<Addr>, queue: seq<Addr>, y: Yield)
    requires Balanced(router, live, queue)
    ensures Balanced(Deliver(router, y), if y.1.addr in router then live else live + {y.1.addr}, queue)
  {
  }

  lemma Admitting(router: map<Addr, Session>, connected: map<Addr, Peer>, y: Yield)
    requires Admitted(router, connected) && y.1.addr in connected && connected[y.1.addr] == y.1
    ensures Admitted(Deliver(router, y), connected)
  {
  }

  function AsSet(queue: seq<Addr>): (s: set<Addr>) {
    set a | a in queue
  }

  /** The server's stream of new connections. */
  class Incoming {
    const offline: OfflineHandler
    const closeEvents: CloseEvents
    var router: map<Addr, Session>
    /** The guard handed out with each routed connection. */
    ghost var guards: map<Addr, CloseOnDrop>

    /** The routed addresses whose guard is still held. */
    ghost function Live(): (s: set<Addr>)
      reads this`guards, guards.Values
    {
      set a | a in guards && guards[a].live
    }

    /** Each routed connection was given a guard of its own, tied to this server's events. */
    ghost predicate Guarded()
      reads this, guards.Values
    {
      guards.Keys == router.Keys && forall a :: a in guards ==> guards[a].addr == a && guards[a].events == closeEvents
    }

    ghost predicate Valid()
      reads this, offline, offline.frame, closeEvents, guards.Values
    {
      && offline.cfg.Well() && offline.Valid() && Guarded()
      && Balanced(router, Live(), closeEvents.queue) && Admitted(router, offline.connected)
    }

    constructor (offline: OfflineHandler, closeEvents: CloseEvents)
      requires offline.Valid() && closeEvents.queue == []
      ensures Valid() && this.offline == offline && this.closeEvents == closeEvents
      ensures router == map[] && guards == map[]
    {
      this.offline, this.closeEvents := offline, closeEvents;
      router, guards := map[], map[];
    }

    /** A connection's guard is dropped with its sink: the close event is queued, unless that happened before. */
    method DropGuard(guard: CloseOnDrop)
      requires Valid() && guard.addr in guards && guards[guard.addr] == guard
      modifies guard, closeEvents
      ensures Valid() && Live() == old(Live()) - {guard.addr}
      ensures closeEvents.queue == if guard.addr in old(Live()) then old(closeEvents.queue) + [guard.addr]
                                   else old(closeEvents.queue)
    {
      hide Valid;
      RoutedGuard(guard);
      guard.Drop();
      GuardDropped(guard);
    }

    /**
     * A connection of this server polls its close: the books stay balanced, and when the close completes
     * its close event is queued.
     */
    method PollClose(manager: Outgoing.OutgoingManager, strategy: Reliable.FlushStrategy, first: seq<nat>, at: nat,
                     second: seq<nat>) returns (r: Outcome)
      requires Valid() && manager.Valid() && strategy.pack && manager.Provided(manager.Here(), first, at, second)
      requires manager.guard != null && manager.guard.addr in guards && guards[manager.guard.addr] == manager.guard
      modifies manager, manager.Below(), manager.guard, closeEvents
      ensures Valid() && manager.Valid()
      ensures r != Ready ==> Live() == old(Live()) && closeEvents.queue == old(closeEvents.queue)
      ensures r == Ready ==> Live() == old(Live()) - {old(manager.guard).addr} && old(manager.guard).addr in router
      ensures r == Ready && old(manager.guard.live) ==>
                closeEvents.queue == old(closeEvents.queue) + [old(manager.guard).addr]
    {
      hide Valid;
      hide Live;
      hide Marks;
      hide Outgoing.Willing;
      hide Outgoing.OutgoingManager.Valid;
      hide Outgoing.OutgoingManager.Provided;
      hide Outgoing.OutgoingManager.Stuck;
      hide OutgoingState.ToDo;
      var guard := manager.guard;
      RoutedGuard(guard);
      r := manager.PollClose(strategy, first, at, second);
      if r == Ready {
        GuardDropped(guard);
      } else {
        Untouched();
      }
    }

    lemma RoutedGuard(guard: CloseOnDrop)
      requires Valid() && guard.addr in guards && guards[guard.addr] == guard
      ensures guard.events == closeEvents && guard.addr in router
      ensures forall a :: a in guards && a != guard.addr ==> guards[a] != guard
    {
    }

    twostate lemma Untouched()
      requires old(Valid()) && unchanged(this) && unchanged(offline) && unchanged(offline.frame)
               && unchanged(closeEvents)
      requires forall a :: a in guards ==> guards[a].live == old(guards[a].live)
      ensures Valid() && Live() == old(Live())
    {
      hide InStep;
      hide Balanced;
      assert Live() == old(Live());
    }

    /** The server's books after one of its guards was dropped. */
    twostate lemma GuardDropped(guard: CloseOnDrop)
      requires old(Valid()) && guard.addr in guards && guards[guard.addr] == guard
      requires unchanged(this) && unchanged(offline) && unchanged(offline.frame)
      requires forall a :: a in guards && a != guard.addr ==> guards[a].live == old(guards[a].live)
      requires !guard.live && closeEvents.queue
               == old(if guard.live then closeEvents.queue + [guard.addr] else closeEvents.queue)
      ensures Valid() && Live() == old(Live()) - {guard.addr}
    {
      hide InStep;
      hide Balanced;
      assert Live() == old(Live()) - {guard.addr};
      if old(guard.live) {
        Dropping(router, old(Live()), old(closeEvents.queue), guard.addr);
      } else {
        assert Live() == old(Live());
      }
    }

    /** Forget every closed connection. That each one is still routed is what the source expects. */
    method DrainEvents()
      requires Valid()
      modifies this`router, this`guards, offline`pending, offline`connected, offline`history, closeEvents
      ensures Valid() && closeEvents.queue == [] && AsSet(old(closeEvents.queue)) <= old(router).Keys
      ensures router == old(router) - AsSet(old(closeEvents.queue))
              && guards == old(guards) - AsSet(old(closeEvents.queue))
      ensures offline.connected == old(offline.connected) - AsSet(old(closeEvents.queue))
    {
      hide Valid;
      var events := closeEvents.queue;
      ghost var i := 0;
      while closeEvents.queue != []
        invariant Valid() && i <= |events| && closeEvents.queue == events[i..]
        invariant AsSet(events[..i]) <= old(router).Keys
        invariant router == old(router) - AsSet(events[..i]) && guards == old(guards) - AsSet(events[..i])
        invariant offline.connected == old(offline.connected) - AsSet(events[..i])
        decreases |closeEvents.queue|
      {
        var ev := DrainOne();
        assert events[i] == events[i..][0] == ev && events[..i + 1] == events[..i] + [ev];
        assert AsSet(events[..i + 1]) == AsSet(events[..i]) + {ev};
        i := i + 1;
      }
      assert events[..i] == events;
    }

    /** Take one close event. */
    method DrainOne() returns (ev: Addr)
      requires Valid() && closeEvents.queue != []
      modifies this`router, this`guards, offline`pending, offline`connected, offline`history, closeEvents
      ensures Valid() && [ev] + closeEvents.queue == old(closeEvents.queue) && ev in old(router)
      ensures router == old(router) - {ev} && guards == old(guards) - {ev}
              && offline.connected == old(offline.connected) - {ev}
    {
      hide InStep;
      hide Balanced;
      ghost var live := Live();
      Draining(router, live, closeEvents.queue);
      ev := closeEvents.queue[0];
      closeEvents.queue := closeEvents.queue[1..];
      assert ev in router;
      router, guards := router - {ev}, guards - {ev};
      offline.Disconnect(ev);
      assert Live() == live;
    }

    /** Hand the next packet to its connection, or open one for it, with a guard of its own. */
    method RouteOne() returns (r: Poll<Yield>, guard: CloseOnDrop?)
      requires Valid()
      modifies this, offline, offline.frame
      ensures Valid() && |offline.frame.queue| <= |old(offline.frame.queue)|
      ensures match r
              case Item(y) =>
                && (guard == null <==> y.1.addr in old(router)) && router == Deliver(old(router), y)
                && guards == (if guard == null then old(guards) else old(guards)[y.1.addr := guard])
                && (guard != null ==> fresh(guard) && guard.live)
                && old(offline.Remaining()) == [y] + offline.Remaining()
                   && |offline.frame.queue| < |old(offline.frame.queue)|
              case Finished =>
                && router == old(router) && guards == old(guards)
                && old(offline.Remaining()) == offline.Remaining() == []
              case Pending =>
                router == old(router) && guards == old(guards) && old(offline.Remaining()) == offline.Remaining()
      ensures r.Pending? && offline.state == Listening ==> offline.frame.queue == [] && !offline.frame.closed
    {
      hide InStep;
      hide Balanced;
      hide Yields;
      guard := null;
      ghost var live := Live();
      r := offline.PollNext();
      assert Live() == live;
      if r.Item? {
        guard := Place(r.item);
      }
    }

    /** File a packet under its connection, which may be a new one. */
    method Place(y: Yield) returns (guard: CloseOnDrop?)
      requires Valid() && y.1.addr in offline.connected && offline.connected[y.1.addr] == y.1
      modifies this`router, this`guards
      ensures Valid() && router == Deliver(old(router), y)
      ensures guard == null <==> y.1.addr in old(router)
      ensures guards == (if guard == null then old(guards) else old(guards)[y.1.addr := guard])
      ensures guard != null ==> fresh(guard) && guard.live
    {
      hide OfflineHandler.Valid;
      hide Balanced;
      hide Admitted;
      hide Deliver;
      guard := null;
      ghost var live := Live();
      Admitting(router, offline.connected, y);
      Delivering(router, live, closeEvents.queue, y);
      Filed(router, y);
      if y.1.addr !in router {
        guard := new CloseOnDrop(y.1.addr, closeEvents);
        guards := guards[y.1.addr := guard];
      }
      router := Deliver(router, y);
      assert Live() == if guard == null then live else live + {y.1.addr};
    }

    /**
     * Route packets until one comes from a peer that has no connection yet: that one is new. `ys` are the packets
     * routed, in order; a new connection is the last of them and comes with a guard of its own.
     */
    method Accept() returns (r: Poll<Peer>, guard: CloseOnDrop?, ghost ys: seq<Yield>)
      requires Valid()
      modifies this, offline, offline.frame
      ensures Valid() && old(offline.Remaining()) == ys + offline.Remaining()
      ensures router == DeliverAll(old(router), ys)
      ensures forall i :: 0 <= i < |ys| ==> (ys[i].1.addr in old(router) <==> !(r.Item? && i == |ys| - 1))
      ensures r.Item? ==> r.item.addr !in old(router) && r.item.addr in router && router[r.item.addr].peer == r.item
      ensures r.Item? ==>
                ys != [] && ys[|ys| - 1].1 == r.item && guard != null && guard.live
                && guards == old(guards)[r.item.addr := guard]
      ensures !r.Item? ==> guards == old(guards)
      ensures r.Finished? ==> offline.Remaining() == []
      ensures r.Pending? && offline.state == Listening ==> offline.frame.queue == [] && !offline.frame.closed
    {
      hide OfflineHandler.Valid;
      hide Balanced;
      hide Yields;
      hide Admitted;
      hide Deliver;
      hide Guarded;
      ys := [];
      while true
        invariant Valid() && old(offline.Remaining()) == ys + offline.Remaining()
        invariant router == DeliverAll(old(router), ys) && router.Keys == old(router).Keys && guards == old(guards)
        invariant forall i :: 0 <= i < |ys| ==> ys[i].1.addr in old(router)
        decreases |offline.frame.queue|
      {
        ghost var before := router;
        var next;
        next, guard := RouteOne();
        match next
        case Pending =>
          return Pending, guard, ys;
        case Finished =>
          return Finished, guard, ys;
        case Item(y) =>
          DeliverSnoc(old(router), ys, y);
          Filed(before, y);
          ys := ys + [y];
          if guard != null {
            return Item(y.1), guard, ys;
          }
      }
    }

    method PollNext() returns (r: Poll<Peer>, guard: CloseOnDrop?)
      requires Valid()
      modifies this, offline, offline.frame, closeEvents
      ensures Valid() && closeEvents.queue == []
      ensures r.Item? ==> r.item.addr in router && router[r.item.addr].peer == r.item
      ensures r.Item? ==> guard != null && guard.live && r.item.addr in guards && guards[r.item.addr] == guard
      ensures r.Item? ==> r.item.addr !in old(router) || r.item.addr in old(closeEvents.queue)
      ensures r.Pending? && offline.state == Listening ==> offline.frame.queue == [] && !offline.frame.closed
    {
      hide InStep;
      hide Balanced;
      hide Yields;
      hide DeliverAll;
      DrainEvents();
      ghost var ys;
      r, guard, ys := Accept();
    }
  }
}
