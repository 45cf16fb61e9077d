/** The offline handshake of a server, over the history of what it received and which connections are gone. */
module Handshake {
  import opened Types
  import opened Lifecycle
  import Packet

  datatype Peer = Peer(addr: Addr, mtu: U16, guid: nat)

  /** `support` holds the supported versions in increasing order. */
  datatype Config = Config(minMtu: U16, maxMtu: U16, support: seq<Byte>, maxPending: nat) {
    ghost predicate Well() {
      && minMtu <= maxMtu && support != [] && maxPending > 0
      && forall i, j :: 0 <= i < j < |support| ==> support[i] <= support[j]
    }

    predicate Fits(mtu: U16) {
      minMtu <= mtu <= maxMtu
    }
  }

  /** What the socket yields; `Other` stands for the packets no server should receive. */
  datatype Inbound =
    | Connected(addr: Addr, pack: Packet.Packet)
    | Ping(addr: Addr, timestamp: nat)
    | Request1(addr: Addr, version: Byte, mtu: U16)
    | Request2(addr: Addr, mtu: U16, guid: nat)
    | Other(addr: Addr)

  datatype Reply =
    | Pong(timestamp: nat)
    | Reply1(mtu: U16)
    | Reply2(client: Addr, mtu: U16)
    | Incompatible(version: Byte)
    | AlreadyConnected
    | RequestFailed

  type Letter = (Reply, Addr)
  type Yield = (Packet.Packet, Peer)

  /** Half-open addresses, least recently used first, and the peers that completed the handshake. */
  datatype Handshakes = Handshakes(pending: seq<(Addr, Byte)>, connected: map<Addr, Peer>)

  function Dropped(pending: seq<(Addr, Byte)>, addr: Addr): (r: seq<(Addr, Byte)>) {
    if pending == [] then []
    else if pending[0].0 == addr then Dropped(pending[1..], addr)
    else [pending[0]] + Dropped(pending[1..], addr)
  }

  predicate IsPending(pending: seq<(Addr, Byte)>, addr: Addr) {
    exists i :: 0 <= i < |pending| && pending[i].0 == addr
  }

  /** Put an address last; when that is one too many, the least recently used one goes. */
  function Put(max: nat, pending: seq<(Addr, Byte)>, addr: Addr, version: Byte): (r: seq<(Addr, Byte)>) {
    var r := Dropped(pending, addr) + [(addr, version)];
    if |r| > max then r[1..] else r
  }

  function Clamp(cfg: Config, mtu: U16): (r: U16)
    requires cfg.Well()
    ensures cfg.Fits(r) && (cfg.Fits(mtu) ==> r == mtu)
  {
    if mtu < cfg.minMtu then cfg.minMtu else if mtu > cfg.maxMtu then cfg.maxMtu else mtu
  }

  datatype Turn = Turn(after: Handshakes, out: seq<Yield>, reply: Option<Reply>)

  /** One inbound packet: what it does to the handshakes, what it yields, and what is answered. */
  function Handle(cfg: Config, h: Handshakes, p: Inbound): (t: Turn)
    requires cfg.Well()
  {
    match p
    case Connected(addr, pack) =>
      if addr in h.connected then Turn(h, [(pack, h.connected[addr])], None)
      else Turn(h, [], Some(RequestFailed))
    case Ping(_, timestamp) => Turn(h, [], Some(Pong(timestamp)))
    case Request1(addr, version, mtu) =>
      if version !in cfg.support then Turn(h, [], Some(Incompatible(cfg.support[|cfg.support| - 1])))
      else Turn(h.(pending := Put(cfg.maxPending, h.pending, addr, version)), [], Some(Reply1(Clamp(cfg, mtu))))
    case Request2(addr, mtu, guid) =>
      if !IsPending(h.pending, addr) then Turn(h, [], Some(Incompatible(cfg.support[|cfg.support| - 1])))
      else
        var h' := h.(pending := Dropped(h.pending, addr));
        if !cfg.Fits(mtu) || addr in h.connected then Turn(h', [], Some(AlreadyConnected))
        else Turn(h'.(connected := h.connected[addr := Peer(addr, mtu, guid)]), [], Some(Reply2(addr, mtu)))
    case Other(_) => Turn(h, [], None)
  }

  /** What happens to a server's handshakes over time: a packet arrives, or a connection is gone. */
  datatype Happening = Got(p: Inbound) | Gone(addr: Addr)

  function Apply(cfg: Config, h: Handshakes, e: Happening): (t: Turn)
    requires cfg.Well()
  {
    match e
    case Got(p) => Handle(cfg, h, p)
    case Gone(addr) => Turn(Handshakes(Dropped(h.pending, addr), h.connected - {addr}), [], None)
  }

  function Replay(cfg: Config, history: seq<Happening>): (h: Handshakes)
    requires cfg.Well()
  {
    if history == [] then Handshakes([], map[])
    else Apply(cfg, Replay(cfg, history[..|history| - 1]), history[|history| - 1]).after
  }

  /** The supported first request at `i` is still open: nothing since then used it up. */
  ghost predicate OpenSince(cfg: Config, history: seq<Happening>, addr: Addr, i: nat) {
    && i < |history| && history[i].Got? && history[i].p.Request1? && history[i].p.addr == addr
    && history[i].p.version in cfg.support
    && forall k :: i < k < |history| ==>
         history[k] != Gone(addr) && !(history[k].Got? && history[k].p.Request2? && history[k].p.addr == addr)
  }

  ghost predicate Waiting(cfg: Config, history: seq<Happening>, addr: Addr) {
    exists i: nat :: OpenSince(cfg, history, addr, i)
  }

  /** The second request at `j` met an open first request, asked for this peer, and the connection is not gone since. */
  ghost predicate EarnedAt(cfg: Config, history: seq<Happening>, peer: Peer, j: nat) {
    && j < |history| && history[j] == Got(Request2(peer.addr, peer.mtu, peer.guid))
    && cfg.Fits(peer.mtu) && Waiting(cfg, history[..j], peer.addr)
    && Gone(peer.addr) !in history[j..]
  }

  ghost predicate Earned(cfg: Config, history: seq<Happening>, addr: Addr, peer: Peer) {
    peer.addr == addr && exists j: nat :: EarnedAt(cfg, history, peer, j)
  }

  ghost predicate Sound(cfg: Config, history: seq<Happening>, h: Handshakes) {
    && |h.pending| <= cfg.maxPending
    && (forall a, b :: 0 <= a < b < |h.pending| ==> h.pending[a].0 != h.pending[b].0)
    && (forall i :: 0 <= i < |h.pending| ==> Waiting(cfg, history, h.pending[i].0))
    && (forall addr :: addr in h.connected ==> Earned(cfg, history, addr, h.connected[addr]))
  }

  lemma {:induction false} DroppedFacts(pending: seq<(Addr, Byte)>, addr: Addr)
    ensures var r := Dropped(pending, addr);
            && |r| <= |pending| && !IsPending(r, addr)
            && (forall x :: x in r <==> x in pending && x.0 != addr)
            && ((forall a, b :: 0 <= a < b < |pending| ==> pending[a].0 != pending[b].0) ==>
                  forall a, b :: 0 <= a < b < |r| ==> r[a].0 != r[b].0)
  {
    if pending != [] {
      DroppedFacts(pending[1..], addr);
      var rest := Dropped(pending[1..], addr);
      assert forall i :: 0 <= i < |rest| ==> rest[i] in pending[1..];
      assert pending == [pending[0]] + pending[1..];
    }
  }

  lemma WaitingStays(cfg: Config, history: seq<Happening>, e: Happening, addr: Addr)
    requires Waiting(cfg, history, addr) && e != Gone(addr) && !(e.Got? && e.p.Request2? && e.p.addr == addr)
    ensures Waiting(cfg, history + [e], addr)
  {
    var i: nat :| OpenSince(cfg, history, addr, i);
    assert OpenSince(cfg, history + [e], addr, i);
  }

  lemma EarnedStays(cfg: Config, history: seq<Happening>, e: Happening, addr: Addr, peer: Peer)
    requires Earned(cfg, history, addr, peer) && e != Gone(addr)
    ensures Earned(cfg, history + [e], addr, peer)
  {
    var j: nat :| EarnedAt(cfg, history, peer, j);
    assert (history + [e])[..j] == history[..j] && (history + [e])[j..] == history[j..] + [e];
    assert EarnedAt(cfg, history + [e], peer, j);
  }

  lemma EarnedNow(cfg: Config, history: seq<Happening>, peer: Peer)
    requires Waiting(cfg, history, peer.addr) && cfg.Fits(peer.mtu)
    ensures Earned(cfg, history + [Got(Request2(peer.addr, peer.mtu, peer.guid))], peer.addr, peer)
  {
    var all := history + [Got(Request2(peer.addr, peer.mtu, peer.guid))];
    assert all[..|history|] == history;
    assert EarnedAt(cfg, all, peer, |history|);
  }

  lemma PutSound(cfg: Config, history: seq<Happening>, h: Handshakes, addr: Addr, version: Byte, mtu: U16)
    requires cfg.Well() && Sound(cfg, history, h) && version in cfg.support
    ensures Sound(cfg, history + [Got(Request1(addr, version, mtu))],
              h.(pending := Put(cfg.maxPending, h.pending, addr, version)))
  {
    hide Earned;
    var e := Got(Request1(addr, version, mtu));
    var kept := Dropped(h.pending, addr);
    DroppedFacts(h.pending, addr);
    var put := Put(cfg.maxPending, h.pending, addr, version);
    assert OpenSince(cfg, history + [e], addr, |history|);
    forall x | x in put
      ensures Waiting(cfg, history + [e], x.0)
    {
      if x.0 != addr {
        assert x in kept && x in h.pending;
        WaitingStays(cfg, history, e, x.0);
      }
    }
    forall a | a in h.connected
      ensures Earned(cfg, history + [e], a, h.connected[a])
    {
      EarnedStays(cfg, history, e, a, h.connected[a]);
    }
  }

  /** Taking an address out of the half-open ones, for whatever reason. */
  lemma DropSound(cfg: Config, history: seq<Happening>, h: Handshakes, e: Happening, addr: Addr)
    requires Sound(cfg, history, h)
    requires e == Gone(addr) || (e.Got? && e.p.Request2? && e.p.addr == addr)
    ensures Sound(cfg, history + [e], Handshakes(Dropped(h.pending, addr), h.connected - {addr}))
    ensures e.Got? ==> Sound(cfg, history + [e], h.(pending := Dropped(h.pending, addr)))
  {
    hide Earned;
    var kept := Dropped(h.pending, addr);
    DroppedFacts(h.pending, addr);
    forall x | x in kept
      ensures Waiting(cfg, history + [e], x.0)
    {
      assert x in h.pending;
      WaitingStays(cfg, history, e, x.0);
    }
    forall a | a in h.connected && e != Gone(a)
      ensures Earned(cfg, history + [e], a, h.connected[a])
    {
      EarnedStays(cfg, history, e, a, h.connected[a]);
    }
  }

  lemma SameSound(cfg: Config, history: seq<Happening>, h: Handshakes, e: Happening)
    requires Sound(cfg, history, h) && e.Got?
    requires e.p.Request2? ==> !IsPending(h.pending, e.p.addr)
    ensures Sound(cfg, history + [e], h)
  {
    hide Earned;
    hide Waiting;
    forall i | 0 <= i < |h.pending|
      ensures Waiting(cfg, history + [e], h.pending[i].0)
    {
      WaitingStays(cfg, history, e, h.pending[i].0);
    }
    forall a | a in h.connected
      ensures Earned(cfg, history + [e], a, h.connected[a])
    {
      EarnedStays(cfg, history, e, a, h.connected[a]);
    }
  }

  lemma ApplySound(cfg: Config, history: seq<Happening>, h: Handshakes, e: Happening)
    requires cfg.Well() && Sound(cfg, history, h)
    ensures Sound(cfg, history + [e], Apply(cfg, h, e).after)
  {
    hide Earned;
    hide Waiting;
    match e
    case Gone(addr) => DropSound(cfg, history, h, e, addr);
    case Got(p) =>
      match p
      case Request1(addr, version, mtu) =>
        if version in cfg.support {
          PutSound(cfg, history, h, addr, version, mtu);
        } else {
          SameSound(cfg, history, h, e);
        }
      case Request2(addr, mtu, guid) =>
        if IsPending(h.pending, addr) {
          DropSound(cfg, history, h, e, addr);
          if cfg.Fits(mtu) {
            EarnedNow(cfg, history, Peer(addr, mtu, guid));
          }
        } else {
          SameSound(cfg, history, h, e);
        }
      case Connected(_, _) => SameSound(cfg, history, h, e);
      case Ping(_, _) => SameSound(cfg, history, h, e);
      case Other(_) => SameSound(cfg, history, h, e);
  }

  /**
   * Handshake safety, over every history: the half-open addresses stay within their limit and each is owed to an
   * open first request, and a peer counts as connected only after a supported first request followed by a second
   * one that named its mtu and guid, with an mtu in range, and no disconnection since.
   */
  lemma {:induction false} HandshakeSafety(cfg: Config, history: seq<Happening>)
    requires cfg.Well()
    ensures Sound(cfg, history, Replay(cfg, history))
    decreases |history|
  {
    hide Sound;
    if history == [] {
      NothingSound(cfg);
    } else {
      var n := |history| - 1;
      HandshakeSafety(cfg, history[..n]);
      ApplySound(cfg, history[..n], Replay(cfg, history[..n]), history[n]);
      assert history == history[..n] + [history[n]];
    }
  }

  lemma NothingSound(cfg: Config)
    ensures Sound(cfg, [], Handshakes([], map[]))
  {
  }

  /** How many half-open addresses were used more recently than this one. */
  function After(pending: seq<(Addr, Byte)>, addr: Addr): (n: nat)
    ensures n <= |pending|
  {
    if pending == [] then 0 else if pending[0].0 == addr then |pending| - 1 else After(pending[1..], addr)
  }

  lemma {:induction false} DropAfter(pending: seq<(Addr, Byte)>, addr: Addr, other: Addr)
    requires IsPending(pending, addr) && addr != other
    ensures var r := Dropped(pending, other);
            IsPending(r, addr) && After(r, addr) <= After(pending, addr)
  {
    DroppedFacts(pending, other);
    if pending[0].0 != addr {
      DropAfter(pending[1..], addr, other);
      var rest := Dropped(pending[1..], other);
      assert ([pending[0]] + rest)[1..] == rest;
      var i :| 0 <= i < |rest| && rest[i].0 == addr;
      assert ([pending[0]] + rest)[i + 1].0 == addr;
    } else {
      assert Dropped(pending, other)[0] == pending[0];
    }
  }

  lemma {:induction false} AppendAfter(pending: seq<(Addr, Byte)>, addr: Addr, last: (Addr, Byte))
    requires IsPending(pending, addr)
    ensures IsPending(pending + [last], addr) && After(pending + [last], addr) == After(pending, addr) + 1
  {
    var i :| 0 <= i < |pending| && pending[i].0 == addr;
    assert (pending + [last])[i].0 == addr;
    if pending[0].0 != addr {
      assert pending[1..][i - 1].0 == addr;
      AppendAfter(pending[1..], addr, last);
      assert (pending + [last])[1..] == pending[1..] + [last];
    }
  }

  lemma PutAfter(max: nat, pending: seq<(Addr, Byte)>, addr: Addr, other: Addr, version: Byte)
    requires IsPending(pending, addr) && addr != other && After(pending, addr) + 1 < max
    ensures var r := Put(max, pending, other, version);
            IsPending(r, addr) && After(r, addr) <= After(pending, addr) + 1
  {
    DropAfter(pending, addr, other);
    var kept := Dropped(pending, other);
    AppendAfter(kept, addr, (other, version));
    var r := kept + [(other, version)];
    if |r| > max {
      var i :| 0 <= i < |r| && r[i].0 == addr;
      assert r[0].0 != addr;
      assert r[1..][i - 1].0 == addr;
    }
  }

  lemma FreshPut(max: nat, pending: seq<(Addr, Byte)>, addr: Addr, version: Byte)
    requires max > 0
    ensures var r := Put(max, pending, addr, version);
            |pending| <= max ==> IsPending(r, addr) && After(r, addr) == 0
  {
    DroppedFacts(pending, addr);
    var kept := Dropped(pending, addr);
    FreshAppend(kept, addr, version);
    var r := kept + [(addr, version)];
    if |r| > max && |pending| <= max {
      assert r[1..] == kept[1..] + [(addr, version)];
      FreshAppend(kept[1..], addr, version);
    }
  }

  lemma {:induction false} FreshAppend(kept: seq<(Addr, Byte)>, addr: Addr, version: Byte)
    requires !IsPending(kept, addr)
    ensures var r := kept + [(addr, version)];
            IsPending(r, addr) && After(r, addr) == 0
  {
    var r := kept + [(addr, version)];
    assert r[|kept|].0 == addr;
    if kept != [] {
      assert r[1..] == kept[1..] + [(addr, version)];
      assert forall i :: 0 <= i < |kept[1..]| ==> kept[1..][i] == kept[i + 1];
      FreshAppend(kept[1..], addr, version);
    }
  }

  /** Supported first requests among these. */
  function Requests(cfg: Config, mid: seq<Happening>): (n: nat) {
    if mid == [] then 0
    else
      var e := mid[|mid| - 1];
      Requests(cfg, mid[..|mid| - 1]) + if e.Got? && e.p.Request1? && e.p.version in cfg.support then 1 else 0
  }

  /** Nothing about this address' handshake. */
  ghost predicate Elsewhere(mid: seq<Happening>, addr: Addr) {
    forall k :: 0 <= k < |mid| ==>
      if mid[k].Gone? then mid[k].addr != addr else (mid[k].p.Request1? || mid[k].p.Request2?) ==> mid[k].p.addr != addr
  }

  ghost predicate HalfOpen(h: Handshakes, addr: Addr, behind: nat) {
    IsPending(h.pending, addr) && After(h.pending, addr) <= behind && addr !in h.connected
  }

  lemma StaysHalfOpen(cfg: Config, h: Handshakes, e: Happening, addr: Addr, behind: nat)
    requires cfg.Well() && HalfOpen(h, addr, behind) && Elsewhere([e], addr)
    requires behind + Requests(cfg, [e]) < cfg.maxPending
    ensures HalfOpen(Apply(cfg, h, e).after, addr, behind + Requests(cfg, [e]))
  {
    assert [e][0] == e;
    match e
    case Gone(other) => DropAfter(h.pending, addr, other);
    case Got(p) =>
      match p
      case Request1(other, version, _) =>
        if version in cfg.support {
          assert Requests(cfg, [e]) == 1;
          PutAfter(cfg.maxPending, h.pending, addr, other, version);
        }
      case Request2(other, _, _) => DropAfter(h.pending, addr, other);
      case Connected(_, _) =>
      case Ping(_, _) =>
      case Other(_) =>
  }

  lemma {:induction false} StaysOpen(cfg: Config, history: seq<Happening>, mid: seq<Happening>, addr: Addr)
    requires cfg.Well() && HalfOpen(Replay(cfg, history), addr, 0) && Elsewhere(mid, addr)
    requires Requests(cfg, mid) < cfg.maxPending
    ensures HalfOpen(Replay(cfg, history + mid), addr, Requests(cfg, mid))
    decreases |mid|
  {
    hide HalfOpen;
    hide Apply;
    hide Requests;
    if mid == [] {
      assert history + mid == history;
      NoRequests(cfg);
    } else {
      var n := |mid| - 1;
      OneMore(cfg, mid);
      StaysOpen(cfg, history, mid[..n], addr);
      assert (history + mid)[..|history| + n] == history + mid[..n];
      StaysHalfOpen(cfg, Replay(cfg, history + mid[..n]), mid[n], addr, Requests(cfg, mid[..n]));
    }
  }

  lemma NoRequests(cfg: Config)
    ensures Requests(cfg, []) == 0
  {
  }

  lemma OneMore(cfg: Config, mid: seq<Happening>)
    requires mid != []
    ensures Requests(cfg, mid) == Requests(cfg, mid[..|mid| - 1]) + Requests(cfg, [mid[|mid| - 1]])
  {
    assert [mid[|mid| - 1]][..0] == [];
  }

  /**
   * A handshake completes: a supported first request is answered with an mtu in range, and whatever others do in
   * between, a second request with an mtu in range is granted and connects the peer, as long as fewer first requests
   * came in between than may be pending.
   */
  lemma HandshakeCompletes(cfg: Config, history: seq<Happening>, version: Byte, mtu: U16, mid: seq<Happening>,
                           peer: Peer)
    requires cfg.Well() && version in cfg.support && cfg.Fits(peer.mtu)
    requires peer.addr !in Replay(cfg, history).connected && Elsewhere(mid, peer.addr)
             && Requests(cfg, mid) < cfg.maxPending
    ensures var reply := Handle(cfg, Replay(cfg, history), Request1(peer.addr, version, mtu)).reply;
            reply.Some? && reply.value.Reply1? && cfg.Fits(reply.value.mtu)
    ensures var t := Handle(cfg, Replay(cfg, history + [Got(Request1(peer.addr, version, mtu))] + mid),
              Request2(peer.addr, peer.mtu, peer.guid));
            t.reply == Some(Reply2(peer.addr, peer.mtu)) && peer.addr in t.after.connected
                && t.after.connected[peer.addr] == peer
  {
    hide Sound;
    hide Put;
    hide After;
    hide Requests;
    var first := history + [Got(Request1(peer.addr, version, mtu))];
    HandshakeSafety(cfg, history);
    PendingBounded(cfg, history, Replay(cfg, history));
    FreshPut(cfg.maxPending, Replay(cfg, history).pending, peer.addr, version);
    assert first[..|history|] == history;
    StaysOpen(cfg, first, mid, peer.addr);
  }

  lemma PendingBounded(cfg: Config, history: seq<Happening>, h: Handshakes)
    requires Sound(cfg, history, h)
    ensures |h.pending| <= cfg.maxPending
  {
  }
}
