/**
 * What the decoder loses for good. It notes the frames of a set before it refuses one of them or evicts
 * another message for them, so what stands behind a refused frame and what is evicted is lost: later copies
 * count as duplicates. The route has acknowledged the sets all the same, and a close completes.
 */
module Losses {
  import opened Types
  import opened Book
  import opened Delivery
  import opened Reassembly
  import opened Retention
  import Codec
  import Dedup
  import Defragment
  import Drain
  import Encoder
  import Buffer
  import Lifecycle
  import Ordering
  import Packet
  import Reliable
  import Sender
  import Streams
  import System

  predicate Other(f: Frame, k: nat) {
    f.reliableIndex != Some(k)
  }

  /** No frame has the reliable index `k`. */
  predicate NoneHas(frames: seq<Frame>, k: nat) {
    forall i :: 0 <= i < |frames| ==> Other(frames[i], k)
  }

  predicate PartsAvoid(parts: Defragment.Parts, k: nat) {
    forall id :: id in parts.heaps ==> NoneHas(parts.heaps[id], k)
  }

  lemma {:induction false} PushAvoids(heap: seq<Frame>, f: Frame, k: nat)
    requires NoneHas(heap, k) && Other(f, k)
    ensures NoneHas(Defragment.Push(heap, f), k)
  {
    if heap != [] && Defragment.PartIndex(f) >= Defragment.PartIndex(heap[0]) {
      PushAvoids(heap[1..], f, k);
    }
  }

  lemma StepAvoids(lim: Defragment.Limits, parts: Defragment.Parts, f: Frame, k: nat)
    requires PartsAvoid(parts, k) && Other(f, k)
    ensures var (parts', outcome) := Defragment.Step(lim, parts, f);
            PartsAvoid(parts', k) && (outcome.Emitted? ==> Other(outcome.frame, k))
  {
    if f.fragment.Some? {
      hide Defragment.Push;
      hide Defragment.Bodies;
      var id := f.fragment.value.partedId;
      var touched := parts.Touch(id, lim.limitParted);
      assert NoneHas(touched.heaps[id], k);
      PushAvoids(touched.heaps[id], f, k);
      assert PartsAvoid(touched, k);
    }
  }

  lemma {:induction false} RunSetAvoids(lim: Defragment.Limits, parts: Defragment.Parts, frames: seq<Frame>, k: nat)
    requires PartsAvoid(parts, k) && NoneHas(frames, k)
    ensures var r := Defragment.RunSet(lim, parts, frames); PartsAvoid(r.parts, k) && NoneHas(r.frames, k)
    decreases |frames|
  {
    hide PartsAvoid;
    hide Defragment.Step;
    if frames != [] {
      StepAvoids(lim, parts, frames[0], k);
      RunSetAvoids(lim, Defragment.Step(lim, parts, frames[0]).0, frames[1..], k);
    }
  }

  /** No frame among the items has the reliable index `k`. */
  predicate ItemsAvoid(items: seq<Result<Frame>>, k: nat) {
    forall i :: 0 <= i < |items| && items[i].Ok? ==> Other(items[i].value, k)
  }

  lemma NoneNoted(got: set<nat>, frames: seq<Frame>, k: nat)
    requires k !in NoteAll(got, frames)
    ensures NoneHas(frames, k)
  {
    forall i | 0 <= i < |frames|
      ensures Other(frames[i], k)
    {
      if frames[i].reliableIndex == Some(k) {
        NotedWhenPresent(got, frames, frames[i]);
      }
    }
  }

  lemma OksAvoid(failed: bool, frames: seq<Frame>, k: nat)
    requires NoneHas(frames, k)
    ensures ItemsAvoid((if failed then [Err(PartedFrame)] else []) + Streams.Oks(frames), k)
  {
  }

  /** What does not reach reassembly does not leave the first two layers, nor wait in them. */
  lemma {:induction false} FrontAvoids(lim: Defragment.Limits, seen: set<nat>, parts: Defragment.Parts,
                                       sets: seq<seq<Frame>>, k: nat)
    requires PartsAvoid(parts, k) && NoneHas(Passing(lim, seen, sets), k)
    ensures ItemsAvoid(Streams.Run(FrontLayers(lim), (seen, parts), sets).0, k)
    decreases |sets|
  {
    hide PartsAvoid;
    hide FrontLayers;
    hide Defragment.RunSet;
    hide Defragment.Cut;
    hide Dedup.Keep;
    if sets != [] {
      var (kept, seen') := Dedup.Keep(seen, sets[0]);
      var cut, rest := Defragment.Cut(lim, kept), Passing(lim, seen', sets[1..]);
      assert NoneHas(cut, k) && NoneHas(rest, k) by {
        assert forall i :: 0 <= i < |cut| ==> (cut + rest)[i] == cut[i];
        assert forall i :: 0 <= i < |rest| ==> (cut + rest)[|cut| + i] == rest[i];
      }
      FrontStep(lim, seen, parts, sets[0]);
      Defragment.RunSetCut(lim, parts, kept);
      RunSetAvoids(lim, parts, cut, k);
      var r := Defragment.RunSet(lim, parts, kept);
      OksAvoid(r.failed, r.frames, k);
      FrontAvoids(lim, seen', r.parts, sets[1..], k);
    }
  }

  predicate ChanAvoids(ch: Ordering.Chan, k: nat) {
    forall i :: i in ch.pending ==> Other(ch.pending[i], k)
  }

  predicate ChansAvoid(chans: seq<Ordering.Chan>, k: nat) {
    forall c :: 0 <= c < |chans| ==> ChanAvoids(chans[c], k)
  }

  lemma {:induction false} DrainAvoids(ch: Ordering.Chan, k: nat)
    requires ChanAvoids(ch, k)
    ensures NoneHas(Ordering.Drain(ch).0, k) && ChanAvoids(Ordering.Drain(ch).1, k)
    decreases |ch.pending|
  {
    if ch.Ready() {
      assert |ch.pending.Keys - {ch.read}| < |ch.pending.Keys|;
      assert (ch.pending - {ch.read}).Keys == ch.pending.Keys - {ch.read};
      DrainAvoids(ch.Popped(), k);
    }
  }

  lemma {:induction false} DrainAllAvoids(chans: seq<Ordering.Chan>, k: nat)
    requires ChansAvoid(chans, k)
    ensures NoneHas(Ordering.DrainAll(chans).0, k) && ChansAvoid(Ordering.DrainAll(chans).1, k)
  {
    hide Ordering.Drain;
    hide ChanAvoids;
    if chans != [] {
      DrainAvoids(chans[0], k);
      DrainAllAvoids(chans[1..], k);
    }
  }

  lemma {:induction false} OrderAvoids(chans: seq<Ordering.Chan>, items: seq<Result<Frame>>, k: nat)
    requires ChansAvoid(chans, k) && ItemsAvoid(items, k)
    ensures ItemsAvoid(Streams.Run(Ordering.Step, chans, items).0, k)
    decreases |items|
  {
    if items != [] {
      OrderStepAvoids(chans, items[0], k);
      hide Ordering.Step;
      hide ChansAvoid;
      OrderAvoids(Ordering.Step(chans, items[0]).1, items[1..], k);
    }
  }

  lemma OrderStepAvoids(chans: seq<Ordering.Chan>, item: Result<Frame>, k: nat)
    requires ChansAvoid(chans, k) && (item.Ok? ==> Other(item.value, k))
    ensures var (out, chans') := Ordering.Step(chans, item); ItemsAvoid(out, k) && ChansAvoid(chans', k)
  {
    if item.Ok? && item.value.ordered.Some? && item.value.ordered.value.channel < |chans| {
      var o := item.value.ordered.value;
      var filed := chans[o.channel := Ordering.Chan(chans[o.channel].pending[o.frameIndex := item.value],
            chans[o.channel].read)];
      assert ChansAvoid(filed, k);
      DrainAllAvoids(filed, k);
      OksAvoid(false, Ordering.DrainAll(filed).0, k);
      assert [] + Streams.Oks(Ordering.DrainAll(filed).0) == Streams.Oks(Ordering.DrainAll(filed).0);
    }
  }

  /** What never reached reassembly is never delivered, whether or not the cache has room. */
  lemma NotGotNotDelivered(cfg: Config, sets: seq<seq<Frame>>, k: nat)
    requires k !in Got(cfg, sets)
    ensures ItemsAvoid(Delivered(cfg, sets), k)
  {
    hide Ordering.Step;
    NoneNoted({}, Passing(cfg.limits, {}, sets), k);
    FrontAvoids(cfg.limits, {}, Defragment.Parts(map[], []), sets, k);
    LayersCompose(cfg, sets);
    OrderAvoids(EmptyChannels(cfg.maxChannels), Items(cfg, sets), k);
  }

  lemma {:induction false} PassingAppend(lim: Defragment.Limits, seen: set<nat>, a: seq<seq<Frame>>, b: seq<seq<Frame>>)
    ensures Passing(lim, seen, a + b) == Passing(lim, seen, a) + Passing(lim, NoteAll(seen, Flatten(a)), b)
    decreases |a|
  {
    if a == [] {
      assert a + b == b;
    } else {
      assert (a + b)[1..] == a[1..] + b;
      KeepIsFresh(seen, a[0]);
      NoteAllAppend(seen, a[0], Flatten(a[1..]));
      PassingAppend(lim, NoteAll(seen, a[0]), a[1..], b);
    }
  }

  /**
   * Lost for good. A reliable frame that arrived and did not reach reassembly, because a frame before it
   * in its set was refused, is never delivered, whatever arrives afterwards.
   */
  lemma DroppedForGood(cfg: Config, a: seq<seq<Frame>>, b: seq<seq<Frame>>, k: nat)
    requires k in NoteAll({}, Flatten(a)) && k !in Got(cfg, a)
    ensures k !in Got(cfg, a + b) && ItemsAvoid(Delivered(cfg, a + b), k)
  {
    hide Delivered;
    hide ItemsAvoid;
    hide Passing;
    var noted := NoteAll({}, Flatten(a));
    PassingAppend(cfg.limits, {}, a, b);
    NoteAllAppend({}, Passing(cfg.limits, {}, a), Passing(cfg.limits, noted, b));
    LostForGood(cfg.limits, noted, Got(cfg, a), b, k);
    NotGotNotDelivered(cfg, a + b, k);
  }

  /** A reliable message of one part more than the decoder takes. */
  function Oversize(limit: nat): Message {
    Message(Reliable, 0, Medium, seq(1480 * limit + 20, _ => 7))
  }

  lemma {:induction false} FullChunks(data: seq<Byte>, n: nat)
    requires |data| == 1480 * n + 20
    ensures var c := Encoder.Chunks(data, 1480);
            |c| == n + 1 && |c[n]| == 20 && forall i :: 0 <= i < n ==> |c[i]| == 1480
  {
    if n > 0 {
      FullChunks(data[1480..], n - 1);
      var c := Encoder.Chunks(data, 1480);
      assert c == [data[..1480]] + Encoder.Chunks(data[1480..], 1480);
    }
  }

  /** `limit` full parts and a short one, and a small frame behind them. */
  predicate Shaped(frames: seq<Frame>, small: Frame, limit: nat) {
    && |frames| == limit + 1 && limit + 2 < U24_LIMIT
    && (forall i :: 0 <= i < |frames| ==>
          && frames[i].IsReliable() && frames[i].body != []
          && frames[i].fragment == Some(Fragment(limit + 1, 0, i)) && frames[i].reliableIndex == Some(i)
          && frames[i].Size() == if i < limit then 1496 else 36)
    && small.IsReliable() && small.body != [] && small.fragment == None && small.Size() == 7
       && small.reliableIndex == Some(limit + 1)
  }

  lemma OversizeFrames(limit: nat)
    requires 1 <= limit <= 1000
    ensures var st, msg := Encoder.Initial(1), Oversize(limit);
            && Encoder.CanSend(1500, st, msg) && Encoder.After(1500, st, msg) == Encoder.Counters(limit + 1, [0], 1)
            && Encoder.CanSend(1500, Encoder.Counters(limit + 1, [0], 1), Drain.SMALL)
            && var small := Encoder.Frames(1500, Encoder.Counters(limit + 1, [0], 1), Drain.SMALL);
               |small| == 1 && Shaped(Encoder.Frames(1500, st, msg), small[0], limit)
  {
    hide Encoder.Chunks;
    var st, msg := Encoder.Initial(1), Oversize(limit);
    FullChunks(msg.data, limit);
    assert st.orderNext == [0];
    assert Encoder.NeedsSplit(1500, msg) && Encoder.PerLen(1500, msg) == 1480;
    var frames := Encoder.Frames(1500, st, msg);
    forall i | 0 <= i < |frames|
      ensures frames[i].Size() == if i < limit then 1496 else 36
    {
      assert frames[i].body == Encoder.Chunks(msg.data, 1480)[i];
    }
  }

  /** Two waiting frames that do not fit one set together. */
  lemma TooMuch(q: multiset<Frame>, f: Frame, g: Frame)
    requires multiset{f, g} <= q && f.Size() + g.Size() + FRAME_SET_HEADER_SIZE > 1500
    ensures !Reliable.OneSet(1500, q)
  {
    if Reliable.OneSet(1500, q) {
      var frames :| multiset(frames) == q && Codec.SizeOf(frames) + FRAME_SET_HEADER_SIZE <= 1500;
      assert f in multiset(frames);
      var i: nat :| i < |frames| && frames[i] == f;
      Buffer.WithoutFacts(frames, i);
      Buffer.WithoutSize(frames, i);
      var rest := Buffer.Without(frames, i);
      assert multiset(rest)[g] == q[g] - multiset{f}[g];
      assert g in multiset(rest);
      var j: nat :| j < |rest| && rest[j] == g;
      Buffer.SizeAtLeast(rest, j);
    }
  }

  /** The parts from the `i`th on and the small frame wait; nothing has arrived. */
  ghost predicate Waiting(s: System.State, frames: seq<Frame>, small: Frame, i: nat) {
    && i <= |frames| && s.sender.queued == multiset(frames[i..]) + multiset{small} && s.sender.next == i
    && s.arrived == [] && s.open
  }

  /** A full part travels alone. */
  lemma TransmitPart(s: System.State, frames: seq<Frame>, small: Frame, limit: nat, i: nat)
    requires Shaped(frames, small, limit) && Waiting(s, frames, small, i) && i < limit
    ensures System.Enabled(1500, s, System.Transmit([frames[i]]))
            && System.PackedStep(1500, s, System.Transmit([frames[i]]))
    ensures var s' := System.Next(1500, s, System.Transmit([frames[i]]));
            Waiting(s', frames, small, i + 1) && s'.book == s.book
  {
    hide Packet.Write;
    hide Reliable.OneSet;
    hide Sender.AnyReliable;
    assert frames[i].Size() == 1496 && small.Size() == 7 && limit + 2 < U24_LIMIT;
    hide Shaped;
    hide Frame.Size;
    SplitQueue(frames, small, i);
    Codec.SizeOfOne(frames[i]);
    TooMuch(s.sender.queued, frames[i], small);
  }

  lemma SplitQueue(frames: seq<Frame>, small: Frame, i: nat)
    requires i < |frames|
    ensures var q, rest := multiset(frames[i..]) + multiset{small}, multiset(frames[i + 1..]) + multiset{small};
            q - multiset([frames[i]]) == rest && multiset([frames[i]]) <= q && multiset{frames[i], small} <= q
  {
    assert frames[i..] == [frames[i]] + frames[i + 1..];
  }

  lemma {:induction false} TransmitParts(s: System.State, frames: seq<Frame>, small: Frame, limit: nat, i: nat)
    returns (s': System.State)
    requires Shaped(frames, small, limit) && Waiting(s, frames, small, i) && i <= limit && System.Inv(s)
    ensures Drain.Reaches(1500, true, s, s') && Waiting(s', frames, small, limit) && s'.book == s.book && System.Inv(s')
    decreases limit - i
  {
    hide Drain.Reaches;
    hide System.Inv;
    hide System.Next;
    hide System.Enabled;
    hide System.PackedStep;
    if i == limit {
      Drain.Stays(1500, true, s);
      return s;
    }
    TransmitPart(s, frames, small, limit, i);
    var step := System.Transmit([frames[i]]);
    var mid := System.Next(1500, s, step);
    Drain.Takes(1500, true, s, step);
    System.StepInv(1500, s, step);
    s' := TransmitParts(mid, frames, small, limit, i + 1);
    Drain.Then(1500, true, s, mid, s');
  }

  /** The short part and the small frame travel together, and arrive first. */
  lemma LastArrives(s: System.State, frames: seq<Frame>, small: Frame, limit: nat) returns (s': System.State)
    requires Shaped(frames, small, limit) && Waiting(s, frames, small, limit) && System.Inv(s)
    ensures Drain.Reaches(1500, true, s, s') && System.Inv(s') && s'.book == s.book && s'.open
    ensures s'.arrived == [[frames[limit], small]] && s'.sender.queued == multiset{} && s'.sender.next == limit + 1
  {
    hide System.Inv;
    hide Packet.Write;
    hide Packet.Read;
    hide Drain.Reaches;
    var set_ := [frames[limit], small];
    assert frames[limit..] == [frames[limit]];
    assert multiset(set_) == s.sender.queued == multiset{frames[limit]} + multiset{small};
    assert set_[1..] == [small] && [small][1..] == [];
    assert Codec.SizeOf(set_) == frames[limit].Size() + small.Size() + Codec.SizeOf([]);
    assert set_[0].IsReliable();
    var step := System.Transmit(set_);
    var mid := System.Next(1500, s, step);
    Drain.Takes(1500, true, s, step);
    System.StepInv(1500, s, step);
    assert limit in mid.sender.recorded && mid.sender.recorded[limit] == set_;
    Drain.ReadableSet(mid, limit);
    var datagram := Packet.Write(Packet.Frames(Codec.FrameSet(limit, set_)));
    Drain.WireHas(mid, limit, set_);
    s' := System.Next(1500, mid, System.Receive(datagram));
    Drain.Takes(1500, true, mid, System.Receive(datagram));
    System.StepInv(1500, mid, System.Receive(datagram));
    Drain.Then(1500, true, s, mid, s');
  }

  /** The small frame was noted, and did not reach reassembly. */
  lemma LastRefused(cfg: Config, frames: seq<Frame>, small: Frame, limit: nat)
    requires Shaped(frames, small, limit) && cfg.limits.limitSize == limit && limit >= 1
    ensures var sets := [[frames[limit], small]]; limit + 1 in NoteAll({}, Flatten(sets)) && Got(cfg, sets) == {}
  {
    var set_ := [frames[limit], small];
    var sets := [set_];
    assert sets[1..] == [] && set_[1..] == [small];
    assert Flatten(sets) == set_ + [] == set_;
    NotedWhenPresent({}, set_, small);
    var kept := Dedup.Keep({}, set_).0;
    assert kept[0] == frames[limit];
    assert Defragment.Rejected(cfg.limits, kept[0]);
    assert Defragment.Cut(cfg.limits, kept) == [];
    assert Passing(cfg.limits, {}, sets) == [];
  }

  lemma {:induction false} BookOnlyGrows(mtu: nat, s: System.State, steps: seq<System.Step>)
    requires System.IsRun(mtu, s, steps)
    ensures s.book <= System.Final(mtu, s, steps).book
    decreases |steps|
  {
    if steps != [] {
      BookStepGrows(mtu, s, steps[0]);
      BookOnlyGrows(mtu, System.Next(mtu, s, steps[0]), steps[1..]);
    }
  }

  lemma BookStepGrows(mtu: nat, s: System.State, step: System.Step)
    requires System.Enabled(mtu, s, step)
    ensures s.book <= System.Next(mtu, s, step).book
  {
  }

  /** The small message, sent behind the oversize one. */
  ghost predicate Neighbours(book: seq<Sent>, limit: nat) {
    |book| == 2 && book[0].msg == Oversize(limit) && book[1].msg == Drain.SMALL
    && book[1].base == limit + 1 && book[1].reliability == Reliable && |book[1].pieces| == 1
  }

  lemma BothSent(limit: nat) returns (s: System.State, trace: seq<System.Step>, frames: seq<Frame>, small: Frame)
    requires 1 <= limit <= 1000
    ensures System.IsRun(1500, System.Initial(1), trace) && System.Packed(1500, System.Initial(1), trace)
    ensures s == System.Final(1500, System.Initial(1), trace)
    ensures Shaped(frames, small, limit) && Waiting(s, frames, small, 0) && Neighbours(s.book, limit)
  {
    hide System.Next;
    hide System.Enabled;
    hide System.IsRun;
    hide System.Final;
    hide System.Packed;
    hide Shaped;
    hide Encoder.Frames;
    hide Encoder.CanSend;
    var s0 := System.Initial(1);
    OversizeFrames(limit);
    frames := Encoder.Frames(1500, s0.counters, Oversize(limit));
    var one, two := System.SendMessage(Oversize(limit)), System.SendMessage(Drain.SMALL);
    Sends(s0, Oversize(limit));
    var s1 := System.Next(1500, s0, one);
    small := Encoder.Frames(1500, s1.counters, Drain.SMALL)[0];
    Sends(s1, Drain.SMALL);
    s := System.Next(1500, s1, two);
    System.OneStep(1500, s0, one);
    System.OneStep(1500, s1, two);
    System.RunAppend(1500, s0, [one], [two]);
    trace := [one] + [two];
    assert frames[0..] == frames && Encoder.Frames(1500, s1.counters, Drain.SMALL) == [small];
    assert s.sender.queued == multiset{} + multiset(frames) + multiset([small]);
  }

  lemma Sends(s: System.State, msg: Message)
    requires Encoder.CanSend(1500, s.counters, msg) && msg.reliability == Reliable && Splits(s.book) + 1 <= U16_LIMIT
    ensures System.Enabled(1500, s, System.SendMessage(msg)) && System.PackedStep(1500, s, System.SendMessage(msg))
    ensures var s' := System.Next(1500, s, System.SendMessage(msg));
            && s'.counters == Encoder.After(1500, s.counters, msg) && s'.book == s.book + [Entry(1500, s.counters, msg)]
            && s'.sender == System.WithAccepted(s.sender, Encoder.Frames(1500, s.counters, msg))
            && s'.arrived == s.arrived && s'.open == s.open
  {
    hide Encoder.Frames;
    hide System.WithAccepted;
    SplitsGrow(s.book, Entry(1500, s.counters, msg));
    System.AcceptAll(s.sender, Encoder.Frames(1500, s.counters, msg));
  }

  /**
   * A run after which the small message is never delivered, although it and all its frames can still be
   * acknowledged and the sender drained.
   */
  ghost predicate CostsNeighbour(limit: nat, cfg: Config, trace: seq<System.Step>) {
    && System.IsRun(1500, System.Initial(1), trace) && System.Packed(1500, System.Initial(1), trace)
    && var s := System.Final(1500, System.Initial(1), trace);
       && Neighbours(s.book, limit)
       && Drain.Drainable(1500, true, s)
       && forall steps :: System.IsRun(1500, s, steps) ==> Undelivered(s.book, System.Final(1500, s, steps), cfg)
  }

  /** The second message of the earlier history was not delivered. */
  ghost predicate Undelivered(book: seq<Sent>, s: System.State, cfg: Config) {
    |book| == 2 && book <= s.book && WellBook(s.book) && Occurrences(s.book, Delivered(cfg, s.arrived), 1) == 0
  }

  lemma SmallUndelivered(limit: nat, cfg: Config, s: System.State, steps: seq<System.Step>, frames: seq<Frame>,
                         small: Frame)
    requires limit >= 1 && Shaped(frames, small, limit) && cfg.limits.limitSize == limit
             && s.arrived == [[frames[limit], small]]
    requires System.Inv(s) && Neighbours(s.book, limit) && System.IsRun(1500, s, steps)
    ensures Undelivered(s.book, System.Final(1500, s, steps), cfg)
  {
    hide Shaped;
    hide System.Inv;
    hide System.IsRun;
    hide System.Final;
    hide Delivered;
    hide Got;
    hide Flatten;
    hide NoteAll;
    hide ItemsAvoid;
    hide WellBook;
    hide AllInBook;
    hide Occurrences;
    hide Oversize;
    var s' := System.Final(1500, s, steps);
    LastRefused(cfg, frames, small, limit);
    Lifecycle.ArrivedGrows(1500, s, steps);
    BookOnlyGrows(1500, s, steps);
    System.RunInv(1500, s, steps);
    System.ArrivedInBook(s');
    var later := s'.arrived[|s.arrived|..];
    assert s'.arrived == s.arrived + later;
    DroppedForGood(cfg, s.arrived, later, limit + 1);
    AvoidedAbsent(s'.book, Delivered(cfg, s'.arrived), 1, limit + 1);
  }

  lemma AvoidedAbsent(book: seq<Sent>, items: seq<Result<Frame>>, m: nat, k: nat)
    requires WellBook(book) && m < |book| && book[m].reliability.IsReliable() && book[m].base == k
             && ItemsAvoid(items, k)
    ensures Occurrences(book, items, m) == 0
  {
    EntryIsWell(book, m);
    assert !Other(book[m].Expected(), k);
  }

  /**
   * The failure at an input. A message of one part more than the decoder takes, and a small message that
   * the buffer packs behind its last part: when that set arrives first, no later step ever delivers the
   * small message, and still the peer can acknowledge everything and the sender is drained.
   */
  lemma OversizeCostsNeighbour(limit: nat, cfg: Config)
    requires 1 <= limit <= 1000 && cfg.limits.limitSize == limit
    ensures exists trace :: CostsNeighbour(limit, cfg, trace)
  {
    hide System.IsRun;
    hide System.Final;
    hide System.Packed;
    hide System.Inv;
    hide Drain.Drainable;
    hide Undelivered;
    var s0, trace, frames, small := BothSent(limit);
    System.InitialInv(1);
    System.RunInv(1500, System.Initial(1), trace);
    var s1 := TransmitParts(s0, frames, small, limit, 0);
    var s2 := LastArrives(s1, frames, small, limit);
    Drain.Then(1500, true, s0, s1, s2);
    var rest :| Drain.Leads(1500, true, s0, rest, s2);
    System.RunAppend(1500, System.Initial(1), trace, rest);
    Drain.DataDrains(1500, 1, trace + rest);
    forall steps | System.IsRun(1500, s2, steps)
      ensures Undelivered(s2.book, System.Final(1500, s2, steps), cfg)
    {
      SmallUndelivered(limit, cfg, s2, steps, frames, small);
    }
    assert CostsNeighbour(limit, cfg, trace + rest);
  }

  /** One more split message than the cache can hold, none of them over the part limit. */
  ghost predicate TooMany(book: seq<Sent>, lim: Defragment.Limits, ms: seq<nat>) {
    && lim.limitParted > 0 && |ms| == lim.limitParted + 1
    && (forall i :: 0 <= i < |ms| ==>
          && ms[i] < |book| && book[ms[i]].Well() && book[ms[i]].id.Some?
          && (lim.limitSize == 0 || |book[ms[i]].pieces| <= lim.limitSize))
    && (forall i, k :: 0 <= i < k < |ms| ==> ms[i] != ms[k])
  }

  /** A set with just the first part of a message. */
  ghost function First(book: seq<Sent>, m: nat): seq<Frame>
    requires m < |book| && book[m].Well()
  {
    [book[m].FrameAt(0)]
  }

  /** The first parts of these messages, each in a set of its own. */
  ghost function Firsts(book: seq<Sent>, ms: seq<nat>): (sets: seq<seq<Frame>>)
    requires forall i :: 0 <= i < |ms| ==> ms[i] < |book| && book[ms[i]].Well()
    ensures |sets| == |ms|
  {
    seq(|ms|, i requires 0 <= i < |ms| && ms[i] < |book| && book[ms[i]].Well() => First(book, ms[i]))
  }

  /** The cache gathers the messages `ms`, of each of which it remembers the first part only. */
  ghost predicate Gathering(book: seq<Sent>, mem: Memory, ms: seq<nat>) {
    && |mem.live| == |ms|
    && (forall i :: 0 <= i < |ms| ==> ms[i] < |book| && book[ms[i]].id == Some(mem.live[i]))
    && (forall k :: k in mem.got <==> exists i :: 0 <= i < |ms| && ms[i] < |book| && k == Index(book[ms[i]], 0))
  }

  /** The first part of one more message, which the cache does not know. */
  lemma FirstPart(book: seq<Sent>, lim: Defragment.Limits, mem: Memory, ms: seq<nat>, m: nat)
    requires WellBook(book) && Gathering(book, mem, ms) && m < |book| && book[m].id.Some? && m !in ms
    requires book[m].Well() && (lim.limitSize == 0 || |book[m].pieces| <= lim.limitSize)
    ensures var f, id := book[m].FrameAt(0), book[m].id.value;
            var room := MakeRoom(book, lim.limitParted, mem, id);
            && Dedup.Keep(mem.got, [f]) == ([f], mem.got + {Index(book[m], 0)})
            && id !in mem.live
            && RememberAll(book, lim, mem, [f]) == Memory(room.live + [id], room.got + {Index(book[m], 0)})
  {
    hide WellBook;
    var f, id := book[m].FrameAt(0), book[m].id.value;
    forall i | 0 <= i < |ms|
      ensures book[ms[i]].id != Some(id)
      ensures Index(book[ms[i]], 0) != Index(book[m], 0) && Index(book[ms[i]], 0) != Index(book[m], 1)
    {
      assert ms[i] != m;
      SplitIsReliable(book, ms[i]);
      DistinctEntries(book, ms[i], m);
    }
    assert Index(book[m], 0) !in mem.got && Index(book[m], 1) !in mem.got;
    assert [f][1..] == [] && !Dedup.Repeated(mem.got, f);
    assert f.reliableIndex == Some(Index(book[m], 0)) && [f] + [] == [f];
    assert Dedup.Keep(Dedup.Note(mem.got, f), []) == ([], mem.got + {Index(book[m], 0)});
    var room := MakeRoom(book, lim.limitParted, mem, id);
    assert Index(book[m], 1) !in room.got + {Index(book[m], 0)};
    CompleteIs(book, room.got + {Index(book[m], 0)}, m);
    assert RememberAll(book, lim, mem, [f]) == Remember(book, lim.limitParted, mem, f);
  }

  lemma FirstsSnoc(book: seq<Sent>, ms: seq<nat>, i: nat)
    requires i < |ms| && forall k :: 0 <= k < |ms| ==> ms[k] < |book| && book[ms[k]].Well()
    ensures Firsts(book, ms[..i + 1]) == Firsts(book, ms[..i]) + [First(book, ms[i])]
  {
  }

  /** As many messages as the cache holds are all gathered. */
  lemma {:induction false} FillUp(book: seq<Sent>, lim: Defragment.Limits, ms: seq<nat>, i: nat)
    requires WellBook(book) && TooMany(book, lim, ms) && i <= lim.limitParted
    ensures var sets := Firsts(book, ms[..i]);
            var mem := Gather(book, lim, {}, NOTHING, sets);
            Gathering(book, mem, ms[..i]) && mem.got == NoteAll({}, Flatten(sets))
  {
    hide WellBook;
    if i == 0 {
      assert ms[..0] == [] && Firsts(book, []) == [];
    } else {
      FillUp(book, lim, ms, i - 1);
      var sets, f := Firsts(book, ms[..i - 1]), book[ms[i - 1]].FrameAt(0);
      var mem := Gather(book, lim, {}, NOTHING, sets);
      FirstsSnoc(book, ms, i - 1);
      OneMore(book, lim, mem, sets, f);
      FirstPart(book, lim, mem, ms[..i - 1], ms[i - 1]);
      var mem' := Gather(book, lim, {}, NOTHING, Firsts(book, ms[..i]));
      assert mem' == Memory(mem.live + [book[ms[i - 1]].id.value], mem.got + {Index(book[ms[i - 1]], 0)});
      assert ms[..i] == ms[..i - 1] + [ms[i - 1]];
      GatheringMore(book, mem, ms[..i - 1], ms[i - 1]);
    }
  }

  lemma GatheringMore(book: seq<Sent>, mem: Memory, ms: seq<nat>, m: nat)
    requires Gathering(book, mem, ms) && m < |book| && book[m].id.Some?
    ensures Gathering(book, Memory(mem.live + [book[m].id.value], mem.got + {Index(book[m], 0)}), ms + [m])
  {
    var more := ms + [m];
    forall k
      ensures k in mem.got + {Index(book[m], 0)} <==>
                exists i :: 0 <= i < |more| && more[i] < |book| && k == Index(book[more[i]], 0)
    {
      if k in mem.got {
        var i :| 0 <= i < |ms| && ms[i] < |book| && k == Index(book[ms[i]], 0);
        assert more[i] == ms[i];
      }
      assert more[|ms|] == m;
    }
  }

  /** One more set at the end. */
  lemma OneMore(book: seq<Sent>, lim: Defragment.Limits, mem: Memory, sets: seq<seq<Frame>>, f: Frame)
    requires mem == Gather(book, lim, {}, NOTHING, sets) && mem.got == NoteAll({}, Flatten(sets))
    ensures Gather(book, lim, {}, NOTHING, sets + [[f]]) == RememberAll(book, lim, mem, Dedup.Keep(mem.got, [f]).0)
    ensures NoteAll({}, Flatten(sets + [[f]])) == Dedup.Note(mem.got, f)
  {
    GatherAppend(book, lim, {}, NOTHING, sets, [[f]]);
    assert [[f]][1..] == [] && [f][1..] == [];
    FlattenAppend(sets, [[f]]);
    assert Flatten([[f]]) == [f] + [] == [f];
    NoteAllAppend({}, Flatten(sets), [f]);
  }

  lemma {:induction false} FlattenAppend(a: seq<seq<Frame>>, b: seq<seq<Frame>>)
    ensures Flatten(a + b) == Flatten(a) + Flatten(b)
  {
    if a == [] {
      assert a + b == b;
    } else {
      assert (a + b)[1..] == a[1..] + b;
      FlattenAppend(a[1..], b);
      Associate(a[0], Flatten(a[1..]), Flatten(b));
    }
  }

  /** The first part of the oldest message is noted and forgotten. */
  lemma OldestForgotten(book: seq<Sent>, lim: Defragment.Limits, ms: seq<nat>)
    requires WellBook(book) && TooMany(book, lim, ms)
    ensures var k := Index(book[ms[0]], 0);
            && k !in Gather(book, lim, {}, NOTHING, Firsts(book, ms)).got
            && k in NoteAll({}, Flatten(Firsts(book, ms)))
  {
    hide WellBook;
    var last := lim.limitParted;
    FillUp(book, lim, ms, last);
    var sets, f := Firsts(book, ms[..last]), book[ms[last]].FrameAt(0);
    var mem := Gather(book, lim, {}, NOTHING, sets);
    assert ms[..last + 1] == ms;
    FirstsSnoc(book, ms, last);
    OneMore(book, lim, mem, sets, f);
    FirstPart(book, lim, mem, ms[..last], ms[last]);
    SplitIsReliable(book, ms[0]);
    SplitIsReliable(book, ms[last]);
    DistinctEntries(book, ms[0], ms[last]);
    assert ms[..last][0] == ms[0];
    assert PartOf(book, mem.live[0], Index(book[ms[0]], 0), ms[0]);
    assert Index(book[ms[0]], 0) in mem.got;
  }

  /**
   * The failure at an input. The first parts of one more split message than the cache holds: the message
   * that came first is never delivered, whatever arrives afterwards.
   */
  lemma EvictionLoses(book: seq<Sent>, cfg: Config, ms: seq<nat>, sets: seq<seq<Frame>>)
    requires WellBook(book) && TooMany(book, cfg.limits, ms) && AllInBook(book, sets)
    ensures Occurrences(book, Delivered(cfg, Firsts(book, ms) + sets), ms[0]) == 0
  {
    hide WellBook;
    hide Gather;
    hide Delivered;
    hide Occurrences;
    var all, k := Firsts(book, ms) + sets, Index(book[ms[0]], 0);
    OldestForgotten(book, cfg.limits, ms);
    GatherAppend(book, cfg.limits, {}, NOTHING, Firsts(book, ms), sets);
    var noted, mem := NoteAll({}, Flatten(Firsts(book, ms))), Gather(book, cfg.limits, {}, NOTHING, Firsts(book, ms));
    ForgottenForGood(book, cfg.limits, noted, mem, sets, k);
    SplitIsReliable(book, ms[0]);
    assert !Done(book[ms[0]], Remembered(book, cfg, all));
    FirstsInBook(book, cfg.limits, ms, sets);
    ExactlyOnce(book, cfg, all, ms[0]);
  }

  lemma FirstsInBook(book: seq<Sent>, lim: Defragment.Limits, ms: seq<nat>, sets: seq<seq<Frame>>)
    requires TooMany(book, lim, ms) && AllInBook(book, sets)
    ensures AllInBook(book, Firsts(book, ms) + sets)
  {
    var all := Firsts(book, ms) + sets;
    forall i, j | 0 <= i < |all| && 0 <= j < |all[i]|
      ensures InBook(book, all[i][j])
    {
      if i < |ms| {
        assert IsFrame(book, all[i][j], ms[i], 0);
      } else {
        assert all[i] == sets[i - |ms|];
      }
    }
  }
}
