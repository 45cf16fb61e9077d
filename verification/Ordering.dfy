/** The ordering layer: per channel, frames leave in the order of their frame index, without gaps. */
module Ordering {
  import opened Types
  import Streams

  /** Frames waiting on one channel, and the index to be read next. */
  datatype Chan = Chan(pending: map<nat, Frame>, read: nat)
  {
    predicate Ready() {
      read in pending
    }

    function Popped(): Chan
      requires Ready()
    {
      Chan(pending - {read}, read + 1)
    }
  }

  /** Empty one channel as far as it goes. */
  function Drain(ch: Chan): (r: (seq<Frame>, Chan))
    decreases |ch.pending|
  {
    if ch.Ready() then
      assert |ch.pending.Keys - {ch.read}| < |ch.pending.Keys|;
      assert (ch.pending - {ch.read}).Keys == ch.pending.Keys - {ch.read};
      var rest := Drain(ch.Popped());
      ([ch.pending[ch.read]] + rest.0, rest.1)
    else ([], ch)
  }

  /** Empty every channel, lowest channel first. */
  function DrainAll(chans: seq<Chan>): (r: (seq<Frame>, seq<Chan>))
    ensures |r.1| == |chans|
  {
    if chans == [] then ([], [])
    else
      var first, rest := Drain(chans[0]), DrainAll(chans[1..]);
      (first.0 + rest.0, [first.1] + rest.1)
  }

  /** One incoming item: an ordered frame is filed under its index unless that index was read already. */
  function Step(chans: seq<Chan>, item: Result<Frame>): (r: (seq<Result<Frame>>, seq<Chan>)) {
    if item.Err? || item.value.ordered.None? then ([item], chans)
    else
      var ordered := item.value.ordered.value;
      if ordered.channel >= |chans| then ([Err(OrderedFrame)], chans)
      else
        var ch := chans[ordered.channel];
        if ordered.frameIndex < ch.read then ([], chans)
        else
          var drained := DrainAll(chans[ordered.channel := Chan(ch.pending[ordered.frameIndex := item.value],
                ch.read)]);
          (Streams.Oks(drained.0), drained.1)
  }

  /** No channel can be read any further. */
  predicate Settled(chans: seq<Chan>) {
    forall c :: 0 <= c < |chans| ==> !chans[c].Ready()
  }

  lemma {:induction false} DrainSettles(ch: Chan)
    ensures !Drain(ch).1.Ready()
    decreases |ch.pending|
  {
    if ch.Ready() {
      assert |ch.pending.Keys - {ch.read}| < |ch.pending.Keys|;
      assert (ch.pending - {ch.read}).Keys == ch.pending.Keys - {ch.read};
      DrainSettles(ch.Popped());
    }
  }

  lemma {:induction false} DrainAllFacts(chans: seq<Chan>)
    ensures Settled(DrainAll(chans).1)
    ensures Settled(chans) ==> DrainAll(chans).0 == [] && DrainAll(chans).1 == chans
  {
    if chans != [] {
      DrainSettles(chans[0]);
      DrainAllFacts(chans[1..]);
      assert Settled(chans) ==> Settled(chans[1..]);
    }
  }

  /** Reading the first ready channel once is the head of emptying them all. */
  lemma {:induction false} DrainAllFirst(chans: seq<Chan>, c: nat)
    requires c < |chans| && chans[c].Ready()
    requires forall i :: 0 <= i < c ==> !chans[i].Ready()
    ensures DrainAll(chans).0 == [chans[c].pending[chans[c].read]] + DrainAll(chans[c := chans[c].Popped()]).0
    ensures DrainAll(chans).1 == DrainAll(chans[c := chans[c].Popped()]).1
  {
    var after := chans[c := chans[c].Popped()];
    if c == 0 {
      assert after[1..] == chans[1..];
    } else {
      DrainAllFirst(chans[1..], c - 1);
      assert after[1..] == chans[1..][c - 1 := chans[c].Popped()];
    }
  }

  /** When only one channel can be read, emptying them all is emptying that one. */
  lemma {:induction false} DrainAllOne(chans: seq<Chan>, c: nat)
    requires c < |chans| && forall i :: 0 <= i < |chans| && i != c ==> !chans[i].Ready()
    ensures DrainAll(chans).0 == Drain(chans[c]).0
    ensures DrainAll(chans).1 == chans[c := Drain(chans[c]).1]
  {
    if c == 0 {
      assert forall i :: 0 <= i < |chans[1..]| ==> chans[1..][i] == chans[i + 1];
      DrainAllFacts(chans[1..]);
    } else {
      DrainAllOne(chans[1..], c - 1);
      assert Drain(chans[0]).0 == [];
      assert chans[c := Drain(chans[c]).1] == [chans[0]] + chans[1..][c - 1 := Drain(chans[c]).1];
    }
  }

  /** Reading a channel forgets no index: what waited is either read or still waits. */
  lemma {:induction false} DrainKeeps(ch: Chan, k: nat)
    ensures var ch' := Drain(ch).1;
            && ch.read <= ch'.read
            && (k < ch'.read || k in ch'.pending <==> k < ch.read || k in ch.pending)
    decreases |ch.pending|
  {
    if ch.Ready() {
      assert |ch.pending.Keys - {ch.read}| < |ch.pending.Keys|;
      assert (ch.pending - {ch.read}).Keys == ch.pending.Keys - {ch.read};
      DrainKeeps(ch.Popped(), k);
    }
  }

  /** An ordered frame that is not too old, filed when no channel can be read. */
  lemma FiledStep(chans: seq<Chan>, f: Frame, c: Byte, k: U24)
    requires Settled(chans) && f.ordered == Some(Ordered(k, c)) && c < |chans| && chans[c].read <= k
    ensures var (out, ch') := Drain(Chan(chans[c].pending[k := f], chans[c].read));
            && Step(chans, Ok(f)).0 == Streams.Oks(out)
            && Step(chans, Ok(f)).1 == chans[c := ch']
            && Settled(chans[c := ch'])
  {
    var filed := chans[c := Chan(chans[c].pending[k := f], chans[c].read)];
    DrainAllOne(filed, c);
    DrainAllFacts(filed);
  }

  /** The indices received on a channel. */
  ghost function Received(items: seq<Result<Frame>>, c: nat): (s: set<nat>) {
    set i | 0 <= i < |items| && IsOn(items[i], c) :: items[i].value.ordered.value.frameIndex
  }

  predicate IsOn(item: Result<Frame>, c: nat) {
    item.Ok? && item.value.ordered.Some? && item.value.ordered.value.channel == c
  }

  /** The indices yielded on a channel, in order. */
  function IndicesOn(items: seq<Result<Frame>>, c: nat): (r: seq<nat>) {
    if items == [] then []
    else (if IsOn(items[0], c) then [items[0].value.ordered.value.frameIndex] else []) + IndicesOn(items[1..], c)
  }

  function UpTo(from: nat, to: nat): seq<nat>
    requires from <= to
  {
    seq(to - from, i requires 0 <= i < to - from => from + i)
  }

  lemma {:induction false} IndicesOnAppend(a: seq<Result<Frame>>, b: seq<Result<Frame>>, c: nat)
    ensures IndicesOn(a + b, c) == IndicesOn(a, c) + IndicesOn(b, c)
  {
    if a == [] {
      assert a + b == b;
    } else {
      IndicesOnAppend(a[1..], b, c);
      assert (a + b)[1..] == a[1..] + b;
      var head := if IsOn(a[0], c) then [a[0].value.ordered.value.frameIndex] else [];
      assert IndicesOn(a, c) == head + IndicesOn(a[1..], c);
      assert head + (IndicesOn(a[1..], c) + IndicesOn(b, c)) == head + IndicesOn(a[1..], c) + IndicesOn(b, c);
    }
  }

  /** Waiting frames are filed under their own channel and index. */
  ghost predicate Filed(chans: seq<Chan>) {
    forall c :: 0 <= c < |chans| ==> FiledIn(chans[c], c)
  }

  ghost predicate FiledIn(ch: Chan, c: nat) {
    forall k :: k in ch.pending ==> IsOn(Ok(ch.pending[k]), c) && ch.pending[k].ordered.value.frameIndex == k
  }

  /** Emptying a channel yields consecutive indices from where it stood. */
  lemma {:induction false} DrainIndices(ch: Chan, c: nat, d: nat)
    requires FiledIn(ch, c)
    ensures var (out, ch') := Drain(ch);
            && FiledIn(ch', c) && ch.read <= ch'.read
            && IndicesOn(Streams.Oks(out), d) == if d == c then UpTo(ch.read, ch'.read) else []
    decreases |ch.pending|
  {
    hide IndicesOn;
    hide UpTo;
    hide Streams.Oks;
    if ch.Ready() {
      assert |ch.pending.Keys - {ch.read}| < |ch.pending.Keys|;
      assert (ch.pending - {ch.read}).Keys == ch.pending.Keys - {ch.read};
      DrainIndices(ch.Popped(), c, d);
      FirstIndex(ch.pending[ch.read], Drain(ch.Popped()).0, d);
      UpToCons(ch.read, Drain(ch.Popped()).1.read);
    } else {
      NoIndices(d, ch.read);
    }
  }

  lemma FirstIndex(f: Frame, rest: seq<Frame>, d: nat)
    ensures IndicesOn(Streams.Oks([f] + rest), d)
            == (if IsOn(Ok(f), d) then [f.ordered.value.frameIndex] else []) + IndicesOn(Streams.Oks(rest), d)
  {
    var out := [f] + rest;
    assert Streams.Oks(out)[1..] == Streams.Oks(rest) && Streams.Oks(out)[0] == Ok(f);
  }

  lemma NoIndices(d: nat, k: nat)
    ensures IndicesOn(Streams.Oks([]), d) == [] && UpTo(k, k) == []
  {
  }

  lemma UpToCons(from: nat, to: nat)
    requires from < to
    ensures UpTo(from, to) == [from] + UpTo(from + 1, to)
  {
  }

  /** An index of the channel was read or waits. */
  ghost predicate Known(ch: Chan, k: nat) {
    k < ch.read || k in ch.pending
  }

  /** One item, on one channel: consecutive indices come out, and exactly its own index becomes known. */
  lemma StepIndices(chans: seq<Chan>, item: Result<Frame>, c: nat)
    requires Settled(chans) && Filed(chans) && c < |chans|
    ensures var (out, chans') := Step(chans, item);
            && |chans'| == |chans| && Settled(chans') && Filed(chans')
            && chans[c].read <= chans'[c].read
            && IndicesOn(out, c) == UpTo(chans[c].read, chans'[c].read)
            && forall k: nat :: Known(chans'[c], k) <==>
                 Known(chans[c], k) || (IsOn(item, c) && item.value.ordered.value.frameIndex == k)
  {
    if item.Ok? && item.value.ordered.Some? && item.value.ordered.value.channel < |chans|
       && chans[item.value.ordered.value.channel].read <= item.value.ordered.value.frameIndex {
      var f := item.value;
      var d, k := f.ordered.value.channel, f.ordered.value.frameIndex;
      var filed := Chan(chans[d].pending[k := f], chans[d].read);
      assert FiledIn(chans[d], d) && FiledIn(filed, d);
      FiledStep(chans, f, d, k);
      DrainIndices(filed, d, c);
      forall k': nat
        ensures Known(Drain(filed).1, k') <==> Known(filed, k')
      {
        DrainKeeps(filed, k');
      }
    } else {
      var out := Step(chans, item).0;
      assert Step(chans, item).1 == chans && |out| <= 1;
      assert |out| == 1 ==> out[1..] == [] && !IsOn(out[0], c);
    }
  }

  lemma {:induction false} RunIndices(chans: seq<Chan>, items: seq<Result<Frame>>, c: nat)
    requires Settled(chans) && Filed(chans) && c < |chans|
    ensures var (out, chans') := Streams.Run(Step, chans, items);
            && |chans'| == |chans| && Settled(chans')
            && chans[c].read <= chans'[c].read
            && IndicesOn(out, c) == UpTo(chans[c].read, chans'[c].read)
            && forall k: nat :: Known(chans'[c], k) <==> Known(chans[c], k) || k in Received(items, c)
    decreases |items|
  {
    hide Step;
    hide Filed;
    if items != [] {
      StepIndices(chans, items[0], c);
      var first := Step(chans, items[0]);
      RunIndices(first.1, items[1..], c);
      var rest: (seq<Result<Frame>>, seq<Chan>) := Streams.Run(Step, first.1, items[1..]);
      IndicesOnAppend(first.0, rest.0, c);
      ReceivedCons(items, c);
    }
  }

  lemma ReceivedCons(items: seq<Result<Frame>>, c: nat)
    requires items != []
    ensures Received(items, c) == (if IsOn(items[0], c) then {items[0].value.ordered.value.frameIndex} else {})
            + Received(items[1..], c)
  {
    forall k | k in Received(items[1..], c)
      ensures k in Received(items, c)
    {
      var i :| 0 <= i < |items[1..]| && IsOn(items[1..][i], c) && items[1..][i].value.ordered.value.frameIndex == k;
      assert items[i + 1] == items[1..][i];
    }
    forall k | k in Received(items, c)
      ensures k in (if IsOn(items[0], c) then {items[0].value.ordered.value.frameIndex} else {})
              + Received(items[1..], c)
    {
      var i :| 0 <= i < |items| && IsOn(items[i], c) && items[i].value.ordered.value.frameIndex == k;
      if i > 0 {
        assert items[1..][i - 1] == items[i];
      }
    }
  }

  /**
   * Whatever arrives, a channel yields the indices 0, 1, 2, ... without gap or repeat, and whenever
   * the layer waits for input the next index to yield is the least one not received.
   */
  lemma LeastMissing(channels: nat, items: seq<Result<Frame>>, c: nat)
    requires c < channels
    ensures var (out, chans) := Streams.Run(Step, seq(channels, _ => Chan(map[], 0)), items);
            && c < |chans|
            && IndicesOn(out, c) == UpTo(0, chans[c].read)
            && chans[c].read !in Received(items, c)
            && forall k: nat :: k < chans[c].read ==> k in Received(items, c)
  {
    var empty := seq(channels, _ => Chan(map[], 0));
    RunIndices(empty, items, c);
    var chans: seq<Chan> := Streams.Run(Step, empty, items).1;
    assert !chans[c].Ready();
    assert !Known(chans[c], chans[c].read);
    assert forall k: nat :: k < chans[c].read ==> Known(chans[c], k);
  }

  class Order {
    const frame: Streams.Source<Result<Frame>>
    const maxChannels: nat
    var ordering: seq<Chan>

    ghost predicate Valid()
      reads this
    {
      |ordering| == maxChannels
    }

    /** What polling until the input runs dry would yield, and the channels left by then. */
    ghost function Remaining(): (r: (seq<Result<Frame>>, seq<Chan>))
      reads this, frame
    {
      var drained := DrainAll(ordering);
      var rest := Streams.Run(Step, drained.1, frame.queue);
      (Streams.Oks(drained.0) + rest.0, rest.1)
    }

    constructor (inner: Streams.Source<Result<Frame>>, channels: nat)
      requires 0 < channels < 256
      ensures Valid() && frame == inner && maxChannels == channels
      ensures ordering == seq(channels, _ => Chan(map[], 0))
    {
      frame := inner;
      maxChannels := channels;
      ordering := seq(channels, _ => Chan(map[], 0));
    }

    /** Read the first channel that can be read. */
    method PopReady() returns (r: Option<Frame>)
      requires Valid()
      modifies this`ordering
      ensures Valid()
      ensures match r
              case Some(f) => DrainAll(old(ordering)).0 == [f] + DrainAll(ordering).0
                  && DrainAll(old(ordering)).1 == DrainAll(ordering).1
              case None => Settled(ordering) && ordering == old(ordering)
    {
      for c := 0 to maxChannels
        invariant Valid() && ordering == old(ordering)
        invariant forall i :: 0 <= i < c ==> !ordering[i].Ready()
      {
        var ch := ordering[c];
        if ch.Ready() {
          DrainAllFirst(ordering, c);
          ordering := ordering[c := Chan(ch.pending - {ch.read}, ch.read + 1)];
          return Some(ch.pending[ch.read]);
        }
      }
      return None;
    }

    /** File one item; `Some` when it is to be yielded at once. */
    method Accept(item: Result<Frame>) returns (r: Option<Result<Frame>>)
      requires Valid() && Settled(ordering)
      modifies this`ordering
      ensures Valid()
      ensures Step(old(ordering), item).0 == (if r.Some? then [r.value] else []) + Streams.Oks(DrainAll(ordering).0)
      ensures Step(old(ordering), item).1 == DrainAll(ordering).1
    {
      DrainAllFacts(ordering);
      if item.Err? {
        return Some(item);
      }
      var f := item.value;
      if f.ordered.None? {
        return Some(item);
      }
      var ordered := f.ordered.value;
      if ordered.channel >= maxChannels {
        return Some(Err(OrderedFrame));
      }
      var ch := ordering[ordered.channel];
      if ordered.frameIndex < ch.read {
        return None;
      }
      ordering := ordering[ordered.channel := Chan(ch.pending[ordered.frameIndex := f], ch.read)];
      return None;
    }

    /** Take one item from the input and file it, when no channel can be read. */
    method Refill() returns (r: Poll<Option<Result<Frame>>>)
      requires Valid() && Settled(ordering)
      modifies this`ordering, frame`queue
      ensures Valid()
      ensures Remaining().1 == old(Remaining()).1
      ensures match r
              case Item(out) =>
                && old(Remaining()).0 == (if out.Some? then [out.value] else []) + Remaining().0
                && |frame.queue| < |old(frame.queue)|
              case Finished => old(Remaining()).0 == [] && Settled(ordering) && frame.queue == [] && frame.closed
              case Pending => old(Remaining()).0 == [] && Settled(ordering) && frame.queue == [] && !frame.closed
    {
      hide Step;
      DrainAllFacts(ordering);
      ghost var items := frame.queue;
      var next := frame.PollNext();
      match next
      case Finished => return Finished;
      case Pending => return Pending;
      case Item(item) =>
        assert items[1..] == frame.queue;
        var out := Accept(item);
        return Item(out);
    }

    method PollNext() returns (r: Poll<Result<Frame>>)
      requires Valid()
      modifies this`ordering, frame`queue
      ensures Valid()
      ensures Remaining().1 == old(Remaining()).1
      ensures match r
              case Item(item) => old(Remaining()).0 == [item] + Remaining().0
              case Finished => old(Remaining()).0 == [] && Settled(ordering) && frame.queue == [] && frame.closed
              case Pending => old(Remaining()).0 == [] && Settled(ordering) && frame.queue == [] && !frame.closed
    {
      hide Step;
      hide Streams.Run;
      while true
        invariant Valid()
        invariant Remaining().0 == old(Remaining()).0 && Remaining().1 == old(Remaining()).1
        decreases |frame.queue|
      {
        var ready := PopReady();
        if ready.Some? {
          return Item(Ok(ready.value));
        }
        var next := Refill();
        match next
        case Finished => return Finished;
        case Pending => return Pending;
        case Item(out) =>
          if out.Some? {
            return Item(out.value);
          }
      }
    }
  }
}
