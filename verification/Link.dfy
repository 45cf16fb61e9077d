/** The shared link and the route: what is owed to the peer as ACK and NACK, and gap tracking on arrival. */
module Link {
  import opened Types
  import Ack
  import Codec
  import Packet
  import Streams

  predicate Ascending(s: seq<nat>) {
    forall i, j :: 0 <= i < j < |s| ==> s[i] <= s[j]
  }

  /** Heaps and ordered sets of numbers are represented by their contents in ascending order. */
  function Insert(s: seq<U24>, n: U24): (r: seq<U24>)
  {
    if s == [] || n <= s[0] then [n] + s else [s[0]] + Insert(s[1..], n)
  }

  function Remove(s: seq<U24>, n: U24): (r: seq<U24>) {
    if s == [] then [] else (if s[0] == n then [] else [s[0]]) + Remove(s[1..], n)
  }

  lemma {:induction false} InsertContents(s: seq<U24>, n: U24)
    ensures multiset(Insert(s, n)) == multiset(s) + multiset{n}
    ensures forall x :: x in Insert(s, n) <==> x == n || x in s
  {
    if s != [] && n > s[0] {
      InsertContents(s[1..], n);
      assert s == [s[0]] + s[1..];
    } else {
      assert Insert(s, n) == [n] + s;
    }
  }

  lemma {:induction false} InsertAscending(s: seq<U24>, n: U24)
    requires Ascending(s)
    ensures Ascending(Insert(s, n))
  {
    if s != [] && n > s[0] {
      InsertAscending(s[1..], n);
      InsertContents(s[1..], n);
      var rest := Insert(s[1..], n);
      forall k | 0 <= k < |rest|
        ensures s[0] <= rest[k]
      {
        assert rest[k] in rest;
      }
    }
  }

  lemma {:induction false} RemoveContents(s: seq<U24>, n: U24)
    ensures forall x :: x in Remove(s, n) <==> x in s && x != n
  {
    if s != [] {
      RemoveContents(s[1..], n);
      assert s == [s[0]] + s[1..];
    }
  }

  lemma {:induction false} RemoveStrict(s: seq<U24>, n: U24)
    requires StrictlyAscending(s)
    ensures StrictlyAscending(Remove(s, n))
  {
    if s != [] {
      RemoveStrict(s[1..], n);
      RemoveContents(s[1..], n);
      var rest := Remove(s[1..], n);
      forall k | 0 <= k < |rest|
        ensures s[0] < rest[k]
      {
        assert rest[k] in rest;
      }
    }
  }

  /** Numbers whose successor is still a 24-bit number. */
  predicate Bounded(s: seq<nat>) {
    forall n :: n in s ==> n < U24_LIMIT - 1
  }

  predicate StrictlyAscending(s: seq<nat>) {
    forall i, j :: 0 <= i < j < |s| ==> s[i] < s[j]
  }

  lemma {:induction false} InsertStrict(s: seq<U24>, n: U24)
    requires StrictlyAscending(s) && n !in s
    ensures StrictlyAscending(Insert(s, n))
  {
    if s != [] && n > s[0] {
      InsertStrict(s[1..], n);
      InsertContents(s[1..], n);
      var rest := Insert(s[1..], n);
      forall k | 0 <= k < |rest|
        ensures s[0] < rest[k]
      {
        assert rest[k] in rest;
      }
    }
  }

  lemma Cut(s: seq<nat>, i: nat)
    requires i <= |s|
    ensures s == s[..i] + s[i..]
    ensures Ascending(s) ==> Ascending(s[i..])
    ensures StrictlyAscending(s) ==> StrictlyAscending(s[i..])
    ensures Bounded(s) ==> Bounded(s[i..])
  {
    assert forall n :: n in s[i..] ==> n in s;
  }

  function Elements(s: seq<nat>): (r: set<nat>) {
    set x | x in s
  }

  predicate Within(k: nat, from: nat, to: nat) {
    from <= k < to
  }

  function Span(from: nat, to: nat): (r: set<nat>) {
    set k: nat | k < to && Within(k, from, to)
  }

  /** A route as its history shows it. */
  datatype View = View(
    seqRead: nat,
    acks: multiset<nat>,      // arrivals not yet acknowledged
    nacks: set<nat>,          // gaps not yet reported
    arrivals: multiset<nat>,  // every frame set that was delivered
    acked: multiset<nat>,     // numbers put into ACK packets
    nacked: multiset<nat>)    // numbers put into NACK packets
  {
    function Deliver(n: nat): View {
      View(
        if seqRead <= n then n + 1 else seqRead,
        acks + multiset{n},
        (nacks - {n}) + Span(seqRead, n),
        arrivals + multiset{n}, acked, nacked)
    }

    function TakeAcks(nums: seq<nat>): View {
      this.(acks := acks - multiset(nums), acked := acked + multiset(nums))
    }

    function TakeNacks(nums: seq<nat>): View {
      this.(nacks := nacks - Elements(nums), nacked := nacked + multiset(nums))
    }
  }

  const INITIAL: View := View(0, multiset{}, {}, multiset{}, multiset{}, multiset{})

  datatype Action = Arrive(num: nat) | SendAcks(nums: seq<nat>) | SendNacks(nums: seq<nat>)

  /** An action the route can take: only pending numbers are sent, each at most as often as it is pending. */
  ghost predicate Enabled(v: View, a: Action) {
    match a
    case Arrive(_) => true
    case SendAcks(nums) => multiset(nums) <= v.acks
    case SendNacks(nums) => multiset(nums) <= multiset(v.nacks)
  }

  function Apply(v: View, a: Action): View {
    match a
    case Arrive(n) => v.Deliver(n)
    case SendAcks(nums) => v.TakeAcks(nums)
    case SendNacks(nums) => v.TakeNacks(nums)
  }

  ghost predicate IsRun(actions: seq<Action>, v: View)
    decreases |actions|
  {
    actions == [] || (Enabled(v, actions[0]) && IsRun(actions[1..], Apply(v, actions[0])))
  }

  function Final(v: View, actions: seq<Action>): View
    decreases |actions|
  {
    if actions == [] then v else Final(Apply(v, actions[0]), actions[1..])
  }

  /**
   * `seqRead` is one past the highest arrival; every number below it arrived, waits to be reported
   * or was reported; gaps waiting to be reported have not arrived; no gap is reported twice; and
   * every arrival is acknowledged at most once, and only arrivals are.
   */
  ghost predicate Sound(v: View) {
    SoundGaps(v) && v.acks + v.acked == v.arrivals
  }

  ghost predicate SoundGaps(v: View) {
    && (forall n :: n in v.arrivals ==> n < v.seqRead)
    && (v.seqRead > 0 ==> v.seqRead - 1 in v.arrivals)
    && (forall n: nat :: n < v.seqRead ==> n in v.arrivals || n in v.nacks || n in v.nacked)
    && (forall n :: n in v.nacks ==> n < v.seqRead && n !in v.arrivals && n !in v.nacked)
    && (forall n :: n in v.nacked ==> n < v.seqRead && v.nacked[n] == 1)
  }

  lemma ArriveGaps(v: View, n: nat)
    requires SoundGaps(v)
    ensures SoundGaps(v.Deliver(n))
  {
    var v' := v.Deliver(n);
    ArrivalsAfter(v, n);
    hide Span;
    hide Within;
    forall k: nat | k < v'.seqRead
      ensures k in v'.arrivals || k in v'.nacks || k in v'.nacked
    {
      assert k >= v.seqRead ==> k == n || k in Span(v.seqRead, n);
    }
  }

  lemma ArrivalsAfter(v: View, n: nat)
    ensures forall k :: k in v.Deliver(n).arrivals <==> k == n || k in v.arrivals
    ensures forall k :: k in Span(v.seqRead, n) <==> v.seqRead <= k < n
  {
    assert forall k: nat :: v.seqRead <= k < n ==> Within(k, v.seqRead, n);
    var more := v.arrivals + multiset{n};
    assert forall k :: more[k] == v.arrivals[k] + (if k == n then 1 else 0);
  }

  lemma ArriveSound(v: View, n: nat)
    requires Sound(v)
    ensures Sound(v.Deliver(n))
  {
    hide SoundGaps;
    ArriveGaps(v, n);
    assert v.Deliver(n).acks + v.acked == v.acks + v.acked + multiset{n};
  }

  lemma SendAcksSound(v: View, nums: seq<nat>)
    requires Sound(v) && multiset(nums) <= v.acks
    ensures Sound(v.TakeAcks(nums))
  {
    var v' := v.TakeAcks(nums);
    assert v'.acks + v'.acked == v.acks + v.acked;
  }

  lemma SendNacksSound(v: View, nums: seq<nat>)
    requires Sound(v) && multiset(nums) <= multiset(v.nacks)
    ensures Sound(v.TakeNacks(nums))
  {
    var v' := v.TakeNacks(nums);
    forall n
      ensures n in nums ==> n in v.nacks && multiset(nums)[n] == 1
      ensures v'.nacked[n] == v.nacked[n] + multiset(nums)[n]
      ensures n in nums <==> n in multiset(nums)
    {
      assert multiset(nums)[n] <= multiset(v.nacks)[n] <= 1;
    }
    assert forall n :: n in v'.nacks <==> n in v.nacks && n !in nums;
  }

  lemma StepSound(v: View, a: Action)
    requires Sound(v) && Enabled(v, a)
    ensures Sound(Apply(v, a))
  {
    hide Sound;
    match a
    case Arrive(n) => ArriveSound(v, n);
    case SendAcks(nums) => SendAcksSound(v, nums);
    case SendNacks(nums) => SendNacksSound(v, nums);
  }

  /** Gap bookkeeping over every run. */
  lemma {:induction false} RunSound(v: View, actions: seq<Action>)
    requires Sound(v) && IsRun(actions, v)
    ensures Sound(Final(v, actions))
    decreases |actions|
  {
    if actions != [] {
      StepSound(v, actions[0]);
      RunSound(Apply(v, actions[0]), actions[1..]);
    }
  }

  lemma InitialSound()
    ensures Sound(INITIAL)
  {
  }

  const MAX_ACK_BUFFER: nat := 4096

  class TransferLink {
    var incomingAck: seq<(seq<Ack.Record>, nat)>
    var incomingNack: seq<seq<Ack.Record>>
    var outgoingAck: seq<U24>
    var outgoingNack: seq<U24>
    var unconnected: seq<seq<Byte>>
    ghost var acked: multiset<nat>
    ghost var nacked: multiset<nat>

    ghost predicate Valid()
      reads this
    {
      && Ascending(outgoingAck) && StrictlyAscending(outgoingNack)
      && Bounded(outgoingAck) && Bounded(outgoingNack)
      && |incomingAck| <= MAX_ACK_BUFFER && |incomingNack| <= MAX_ACK_BUFFER
    }

    constructor ()
      ensures Valid() && incomingAck == [] && incomingNack == [] && outgoingAck == [] && outgoingNack == []
              && unconnected == []
      ensures acked == nacked == multiset{}
    {
      incomingAck, incomingNack, outgoingAck, outgoingNack, unconnected := [], [], [], [], [];
      acked, nacked := multiset{}, multiset{};
    }

    /** A full buffer displaces its oldest entry. */
    method IncomingAck(records: seq<Ack.Record>, now: nat)
      requires Valid()
      modifies this`incomingAck
      ensures Valid()
      ensures incomingAck == (if |old(incomingAck)| == MAX_ACK_BUFFER then old(incomingAck)[1..] else old(incomingAck))
              + [(records, now)]
    {
      if |incomingAck| == MAX_ACK_BUFFER {
        incomingAck := incomingAck[1..];
      }
      incomingAck := incomingAck + [(records, now)];
    }

    method IncomingNack(records: seq<Ack.Record>)
      requires Valid()
      modifies this`incomingNack
      ensures Valid()
      ensures incomingNack == (if |old(incomingNack)| == MAX_ACK_BUFFER then old(incomingNack)[1..]
                               else old(incomingNack)) + [records]
    {
      if |incomingNack| == MAX_ACK_BUFFER {
        incomingNack := incomingNack[1..];
      }
      incomingNack := incomingNack + [records];
    }

    method PushAck(n: U24)
      requires Valid() && n < U24_LIMIT - 1
      modifies this`outgoingAck
      ensures Valid() && multiset(outgoingAck) == multiset(old(outgoingAck)) + multiset{n}
    {
      InsertContents(outgoingAck, n);
      InsertAscending(outgoingAck, n);
      outgoingAck := Insert(outgoingAck, n);
    }

    method DropNack(n: U24)
      requires Valid()
      modifies this`outgoingNack
      ensures Valid() && Elements(outgoingNack) == Elements(old(outgoingNack)) - {n}
    {
      RemoveContents(outgoingNack, n);
      RemoveStrict(outgoingNack, n);
      outgoingNack := Remove(outgoingNack, n);
    }

    /** The gap-filling loop: every number from `from` up to `to` becomes a pending NACK. */
    method OpenGaps(from: nat, to: U24)
      requires Valid() && from <= to < U24_LIMIT - 1
      modifies this`outgoingNack
      ensures Valid()
      ensures Elements(outgoingNack) == Elements(old(outgoingNack)) + Span(from, to)
    {
      for n := from to to
        invariant Valid()
        invariant forall x :: x in outgoingNack <==> x in old(outgoingNack) || Within(x, from, n)
      {
        if n !in outgoingNack {
          InsertContents(outgoingNack, n);
          InsertStrict(outgoingNack, n);
          outgoingNack := Insert(outgoingNack, n);
        }
      }
    }

    /** Drain as many pending acknowledgements as one packet holds, smallest first. */
    method ProcessOutgoingAck(mtu: U16) returns (r: Option<seq<Ack.Record>>)
      requires Valid() && mtu >= 7
      modifies this`outgoingAck, this`acked
      ensures Valid()
      ensures r.None? ==> old(outgoingAck) == [] && outgoingAck == [] && acked == old(acked)
      ensures r.Some? ==>
                && Ack.Ordered(r.value) && Ack.Expand(r.value) != []
                && old(outgoingAck) == Ack.Expand(r.value) + outgoingAck
                && acked == old(acked) + multiset(Ack.Expand(r.value))
                && 3 + Ack.WireSize(r.value) <= mtu
                && Ack.Compressed(old(outgoingAck), mtu, r.value, |old(outgoingAck)| - |outgoingAck|)
    {
      hide Ack.Expand;
      hide Ack.WireSize;
      hide Ack.Canonical;
      hide Ack.Ordered;
      var consumed;
      r, consumed := Ack.ExtendFrom(outgoingAck, mtu);
      if r.Some? {
        Cut(outgoingAck, consumed);
        acked := acked + multiset(Ack.Expand(r.value));
        outgoingAck := outgoingAck[consumed..];
      }
    }

    method ProcessOutgoingNack(mtu: U16) returns (r: Option<seq<Ack.Record>>)
      requires Valid() && mtu >= 7
      modifies this`outgoingNack, this`nacked
      ensures Valid()
      ensures r.None? ==> old(outgoingNack) == [] && outgoingNack == [] && nacked == old(nacked)
      ensures r.Some? ==>
                && Ack.Ordered(r.value) && Ack.Expand(r.value) != []
                && old(outgoingNack) == Ack.Expand(r.value) + outgoingNack
                && nacked == old(nacked) + multiset(Ack.Expand(r.value))
                && 3 + Ack.WireSize(r.value) <= mtu
    {
      hide Ack.Expand;
      hide Ack.WireSize;
      hide Ack.Canonical;
      hide Ack.Ordered;
      var consumed;
      r, consumed := Ack.ExtendFrom(outgoingNack, mtu);
      if r.Some? {
        Cut(outgoingNack, consumed);
        nacked := nacked + multiset(Ack.Expand(r.value));
        outgoingNack := outgoingNack[consumed..];
      }
    }
  }

  class Route {
    const link: TransferLink
    const router: Streams.Source<seq<Frame>>
    var seqRead: nat
    ghost var arrivals: multiset<nat>

    ghost predicate Valid()
      reads this, link
    {
      link.Valid() && seqRead < U24_LIMIT && Sound(AsView())
    }

    ghost function AsView(): (v: View)
      reads this, link
    {
      View(seqRead, multiset(link.outgoingAck), Elements(link.outgoingNack), arrivals, link.acked, link.nacked)
    }

    constructor (link: TransferLink, router: Streams.Source<seq<Frame>>)
      requires link.Valid() && link.outgoingAck == [] && link.outgoingNack == []
               && link.acked == link.nacked == multiset{}
      ensures Valid() && this.link == link && this.router == router
      ensures AsView() == INITIAL
    {
      this.link := link;
      this.router := router;
      seqRead := 0;
      arrivals := multiset{};
      new;
      InitialSound();
    }

    /**
     * Deliver a packet: frame sets are tracked and queued for the decoder, acknowledgements go to the
     * sending side. Nothing happens once the connection was dropped.
     */
    method Deliver(pack: Packet.Packet, now: nat) returns (delivered: bool)
      requires Valid() && !pack.Unconnected? && (pack.Frames? ==> pack.frameSet.seqNum < U24_LIMIT - 1)
      modifies this, link, router`queue
      ensures Valid()
      ensures delivered == !router.closed
      ensures delivered && pack.Frames? ==>
                && AsView() == old(AsView()).Deliver(pack.frameSet.seqNum)
                && router.queue == old(router.queue) + [pack.frameSet.frames]
      ensures !delivered || !pack.Frames? ==> AsView() == old(AsView()) && router.queue == old(router.queue)
      ensures delivered && pack.Acks? ==>
                link.incomingAck != [] && link.incomingAck[|link.incomingAck| - 1] == (pack.acks, now)
      ensures delivered && pack.Nacks? ==>
                link.incomingNack != [] && link.incomingNack[|link.incomingNack| - 1] == pack.nacks
    {
      hide Sound;
      if router.closed {
        return false;
      }
      match pack {
        case Frames(frameSet) => Track(frameSet);
        case Acks(records) => link.IncomingAck(records, now);
        case Nacks(records) => link.IncomingNack(records);
      }
      return true;
    }

    /** A frame set arrives: acknowledge it, close its gap, open the gaps below it, queue it for the decoder. */
    method Track(frameSet: Codec.FrameSet)
      requires Valid() && frameSet.seqNum < U24_LIMIT - 1
      modifies this, link`outgoingAck, link`outgoingNack, router`queue
      ensures Valid()
      ensures AsView() == old(AsView()).Deliver(frameSet.seqNum)
              && router.queue == old(router.queue) + [frameSet.frames]
    {
      hide Sound;
      var seqNum := frameSet.seqNum;
      ArriveSound(AsView(), seqNum);
      link.PushAck(seqNum);
      link.DropNack(seqNum);
      var preRead := seqRead;
      if preRead <= seqNum {
        seqRead := seqNum + 1;
        link.OpenGaps(preRead, seqNum);
      } else {
        assert Span(preRead, seqNum) == {};
      }
      arrivals := arrivals + multiset{seqNum};
      router.queue := router.queue + [frameSet.frames];
      assert AsView() == old(AsView()).Deliver(seqNum);
    }

    /** One packet of acknowledgements leaves: a step of the bookkeeping. */
    method SendAcks(mtu: U16) returns (r: Option<seq<Ack.Record>>)
      requires Valid() && mtu >= 7
      modifies link`outgoingAck, link`acked
      ensures Valid()
      ensures r.None? ==> AsView() == old(AsView())
      ensures r.Some? ==>
                && 3 + Ack.WireSize(r.value) <= mtu && Enabled(old(AsView()), Action.SendAcks(Ack.Expand(r.value)))
                && AsView() == Apply(old(AsView()), Action.SendAcks(Ack.Expand(r.value)))
    {
      hide Sound;
      hide Ack.Expand;
      hide Ack.WireSize;
      hide Ack.Ordered;
      r := link.ProcessOutgoingAck(mtu);
      if r.Some? {
        AcksLeft(Ack.Expand(r.value));
      }
    }

    /** One packet of negative acknowledgements leaves. */
    method SendNacks(mtu: U16) returns (r: Option<seq<Ack.Record>>)
      requires Valid() && mtu >= 7
      modifies link`outgoingNack, link`nacked
      ensures Valid()
      ensures r.None? ==> AsView() == old(AsView())
      ensures r.Some? ==>
                && 3 + Ack.WireSize(r.value) <= mtu && Enabled(old(AsView()), Action.SendNacks(Ack.Expand(r.value)))
                && AsView() == Apply(old(AsView()), Action.SendNacks(Ack.Expand(r.value)))
    {
      hide Sound;
      hide Ack.Expand;
      hide Ack.WireSize;
      hide Ack.Ordered;
      r := link.ProcessOutgoingNack(mtu);
      if r.Some? {
        NacksLeft(Ack.Expand(r.value));
      }
    }

    /** Whoever drains the shared link, what it takes is a step of this route's bookkeeping. */
    twostate lemma AcksLeft(nums: seq<nat>)
      requires old(Valid()) && unchanged(this) && link.Valid()
      requires old(link.outgoingAck) == nums + link.outgoingAck && link.acked == old(link.acked) + multiset(nums)
      requires link.outgoingNack == old(link.outgoingNack) && link.nacked == old(link.nacked)
      ensures Valid() && Enabled(old(AsView()), Action.SendAcks(nums))
              && AsView() == Apply(old(AsView()), Action.SendAcks(nums))
    {
      hide Sound;
      Rest(nums, link.outgoingAck);
      StepSound(old(AsView()), Action.SendAcks(nums));
      assert AsView() == Apply(old(AsView()), Action.SendAcks(nums));
    }

    twostate lemma NacksLeft(nums: seq<nat>)
      requires old(Valid()) && unchanged(this) && link.Valid()
      requires old(link.outgoingNack) == nums + link.outgoingNack && link.nacked == old(link.nacked) + multiset(nums)
      requires link.outgoingAck == old(link.outgoingAck) && link.acked == old(link.acked)
      ensures Valid() && Enabled(old(AsView()), Action.SendNacks(nums))
              && AsView() == Apply(old(AsView()), Action.SendNacks(nums))
    {
      hide Sound;
      StrictSplit(nums, link.outgoingNack);
      StepSound(old(AsView()), Action.SendNacks(nums));
      assert AsView() == Apply(old(AsView()), Action.SendNacks(nums));
    }
  }

  lemma Rest(nums: seq<nat>, rest: seq<nat>)
    ensures multiset(nums) <= multiset(nums + rest) && multiset(rest) == multiset(nums + rest) - multiset(nums)
  {
    assert multiset(nums + rest) == multiset(nums) + multiset(rest);
  }

  /** A strictly ascending list, cut in two: no number is in both parts, or twice in one. */
  lemma StrictSplit(nums: seq<nat>, rest: seq<nat>)
    requires StrictlyAscending(nums + rest)
    ensures multiset(nums) <= multiset(Elements(nums + rest))
            && Elements(rest) == Elements(nums + rest) - Elements(nums)
  {
    var all := nums + rest;
    assert forall i :: 0 <= i < |nums| ==> all[i] == nums[i];
    assert forall i :: 0 <= i < |rest| ==> all[|nums| + i] == rest[i];
    OnceEach(nums);
    forall n
      ensures multiset(nums)[n] <= multiset(Elements(all))[n]
    {
      if n in nums {
        assert n in all;
      }
    }
  }

  lemma {:induction false} OnceEach(nums: seq<nat>)
    requires StrictlyAscending(nums)
    ensures forall n :: multiset(nums)[n] <= 1
  {
    if nums != [] {
      OnceEach(nums[1..]);
      assert nums == [nums[0]] + nums[1..];
      assert nums[0] !in nums[1..];
    }
  }
}
