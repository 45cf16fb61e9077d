/**
 * The receiving pipeline as a whole: deduplication, defragmentation and ordering in series, and what
 * it delivers from any arrival of frames of a known history.
 */
module Delivery {
  import opened Types
  import opened Book
  import opened Reassembly
  import opened Retention
  import Dedup
  import Defragment
  import Ordering
  import Streams

  datatype Config = Config(limits: Defragment.Limits, maxChannels: nat)

  type Front = (set<nat>, Defragment.Parts)

  function FrontLayers(lim: Defragment.Limits): (Front, seq<Frame>) -> (seq<Result<Frame>>, Front) {
    Streams.Compose(Dedup.Step, Defragment.SetStep(lim))
  }

  const EMPTY_FRONT: Front := ({}, Defragment.Parts(map[], []))

  function EmptyChannels(n: nat): seq<Ordering.Chan> {
    seq(n, _ => Ordering.Chan(map[], 0))
  }

  /** The three layers in series. */
  function Pipeline(cfg: Config)
    : ((Front, seq<Ordering.Chan>), seq<Frame>) -> (seq<Result<Frame>>, (Front, seq<Ordering.Chan>))
  {
    Streams.Compose(FrontLayers(cfg.limits), Ordering.Step)
  }

  /** Everything the pipeline yields for the frame sets a route has queued so far. */
  function Delivered(cfg: Config, sets: seq<seq<Frame>>): (items: seq<Result<Frame>>) {
    Streams.Run(Pipeline(cfg), (EMPTY_FRONT, EmptyChannels(cfg.maxChannels)), sets).0
  }

  function Items(cfg: Config, sets: seq<seq<Frame>>): (items: seq<Result<Frame>>) {
    Streams.Run(FrontLayers(cfg.limits), EMPTY_FRONT, sets).0
  }

  /** Polling the layers one over the other yields what the composed pipeline yields. */
  lemma LayersCompose(cfg: Config, sets: seq<seq<Frame>>)
    ensures var kept := Streams.Run(Dedup.Step, {}, sets).0;
            var merged := Streams.Run(Defragment.SetStep(cfg.limits), Defragment.Parts(map[], []), kept).0;
            && merged == Items(cfg, sets)
            && Streams.Run(Ordering.Step, EmptyChannels(cfg.maxChannels), merged).0 == Delivered(cfg, sets)
  {
    Streams.ComposeRuns(Dedup.Step, Defragment.SetStep(cfg.limits), {}, Defragment.Parts(map[], []), sets);
    Streams.ComposeRuns(FrontLayers(cfg.limits), Ordering.Step, EMPTY_FRONT, EmptyChannels(cfg.maxChannels), sets);
  }

  /** What was delivered stays delivered: later arrivals only add to it. */
  lemma DeliveredGrows(cfg: Config, a: seq<seq<Frame>>, b: seq<seq<Frame>>)
    ensures Delivered(cfg, a) <= Delivered(cfg, a + b)
  {
    Streams.RunAppend(Pipeline(cfg), (EMPTY_FRONT, EmptyChannels(cfg.maxChannels)), a, b);
  }

  function Flatten(sets: seq<seq<Frame>>): (frames: seq<Frame>) {
    if sets == [] then [] else sets[0] + Flatten(sets[1..])
  }

  ghost predicate AllInBook(book: seq<Sent>, sets: seq<seq<Frame>>) {
    forall i, j :: 0 <= i < |sets| && 0 <= j < |sets[i]| ==> InBook(book, sets[i][j])
  }

  /** Every item is an error or a whole message. */
  ghost predicate Whole(book: seq<Sent>, items: seq<Result<Frame>>) {
    forall i :: 0 <= i < |items| && items[i].Ok? ==> IsExpected(book, items[i].value)
  }

  /** One set through deduplication and defragmentation. */
  lemma FrontStep(lim: Defragment.Limits, seen: set<nat>, parts: Defragment.Parts, set_: seq<Frame>)
    ensures var (kept, seen') := Dedup.Keep(seen, set_);
            var r := Defragment.RunSet(lim, parts, kept);
            && FrontLayers(lim)((seen, parts), set_).0
               == (if r.failed then [Err(PartedFrame)] else []) + Streams.Oks(r.frames)
            && FrontLayers(lim)((seen, parts), set_).1 == (seen', r.parts)
  {
    hide Dedup.Keep;
    hide Defragment.RunSet;
    var step := Defragment.SetStep(lim);
    var kept := Dedup.Keep(seen, set_).0;
    var mid := Dedup.Step(seen, set_);
    assert FrontLayers(lim)((seen, parts), set_).0 == Streams.Run(step, parts, mid.0).0;
    if kept == [] {
      assert Streams.Oks<Frame>([]) == [];
      RunSetOfNothing(lim, parts);
    } else {
      assert mid.0 == [kept] && [kept][1..] == [];
      assert Streams.Run(step, parts, [kept]).0 == step(parts, kept).0 + [];
    }
  }

  lemma RunSetOfNothing(lim: Defragment.Limits, parts: Defragment.Parts)
    ensures Defragment.RunSet(lim, parts, []) == Defragment.SetResult([], false, parts)
  {
  }

  /** Only whole messages leave the first two layers, whatever was lost, repeated, reordered or evicted. */
  lemma {:induction false} FrontSafe(book: seq<Sent>, lim: Defragment.Limits, seen: set<nat>, parts: Defragment.Parts,
                                     sets: seq<seq<Frame>>)
    requires WellBook(book) && SafeParts(book, seen, parts) && AllInBook(book, sets)
    ensures Whole(book, Streams.Run(FrontLayers(lim), (seen, parts), sets).0)
    decreases |sets|
  {
    if sets != [] {
      FrontStep(lim, seen, parts, sets[0]);
      KeepIsFresh(seen, sets[0]);
      var (kept, seen') := Dedup.Keep(seen, sets[0]);
      forall f | f in kept
        ensures InBook(book, f)
      {
        var j :| 0 <= j < |sets[0]| && sets[0][j] == f;
      }
      RunSetSafe(book, lim, seen, parts, kept);
      var r := Defragment.RunSet(lim, parts, kept);
      assert AllInBook(book, sets[1..]);
      FrontSafe(book, lim, seen', r.parts, sets[1..]);
    }
  }

  /** The bodies delivered on one channel. */
  function BodiesOn(items: seq<Result<Frame>>, c: nat): (bodies: seq<seq<Byte>>) {
    if items == [] then []
    else (if Ordering.IsOn(items[0], c) then [items[0].value.body] else []) + BodiesOn(items[1..], c)
  }

  lemma {:induction false} BodiesOnAppend(a: seq<Result<Frame>>, b: seq<Result<Frame>>, c: nat)
    ensures BodiesOn(a + b, c) == BodiesOn(a, c) + BodiesOn(b, c)
  {
    if a == [] {
      assert a + b == b;
    } else {
      BodiesOnAppend(a[1..], b, c);
      assert (a + b)[1..] == a[1..] + b;
      var head := if Ordering.IsOn(a[0], c) then [a[0].value.body] else [];
      assert BodiesOn(a, c) == head + BodiesOn(a[1..], c);
      assert head + (BodiesOn(a[1..], c) + BodiesOn(b, c)) == head + BodiesOn(a[1..], c) + BodiesOn(b, c);
    }
  }

  /** Frame `f` is owed for the message with index `k` of channel `c`. */
  ghost predicate OwedAt(book: seq<Sent>, f: Frame, c: nat, k: nat) {
    exists m: nat :: m < |book| && book[m].Well() && book[m].OnChannel(c) && book[m].ordered.value.frameIndex == k
        && f == book[m].Expected()
  }

  ghost predicate ChanSafe(book: seq<Sent>, c: nat, ch: Ordering.Chan) {
    ch.read <= |OrderedData(book, c)| && forall k :: k in ch.pending ==> OwedAt(book, ch.pending[k], c, k)
  }

  ghost predicate ChansSafe(book: seq<Sent>, chans: seq<Ordering.Chan>) {
    forall c :: 0 <= c < |chans| ==> ChanSafe(book, c, chans[c])
  }

  lemma OwedData(book: seq<Sent>, f: Frame, c: nat, k: nat)
    requires WellBook(book) && OwedAt(book, f, c, k)
    ensures f.ordered == Some(Ordered(k, c))
    ensures k < |OrderedData(book, c)| && f.body == OrderedData(book, c)[k]
  {
    var m: nat :| m < |book| && book[m].Well() && book[m].OnChannel(c) && book[m].ordered.value.frameIndex == k
        && f == book[m].Expected();
    OrderedAt(book, m);
  }

  /** Frames owed for consecutive indices of a channel. */
  ghost predicate OwedRun(book: seq<Sent>, frames: seq<Frame>, c: nat, k: nat) {
    forall i :: 0 <= i < |frames| ==> OwedAt(book, frames[i], c, k + i)
  }

  /** Emptying a channel delivers consecutive indices from where it stood, and stops at a gap. */
  lemma {:induction false} DrainSafe(book: seq<Sent>, c: nat, ch: Ordering.Chan)
    requires WellBook(book) && ChanSafe(book, c, ch)
    ensures var (out, ch') := Ordering.Drain(ch);
            ChanSafe(book, c, ch') && ch'.read == ch.read + |out| && OwedRun(book, out, c, ch.read)
    decreases |ch.pending|
  {
    hide WellBook;
    hide OrderedData;
    hide OwedAt;
    if ch.Ready() {
      assert |ch.pending.Keys - {ch.read}| < |ch.pending.Keys|;
      assert (ch.pending - {ch.read}).Keys == ch.pending.Keys - {ch.read};
      OwedData(book, ch.pending[ch.read], c, ch.read);
      DrainSafe(book, c, ch.Popped());
      var out, rest := Ordering.Drain(ch).0, Ordering.Drain(ch.Popped()).0;
      assert out == [ch.pending[ch.read]] + rest;
      forall i | 0 <= i < |out|
        ensures OwedAt(book, out[i], c, ch.read + i)
      {
        if i > 0 {
          assert OwedAt(book, rest[i - 1], c, ch.read + 1 + (i - 1));
        }
      }
    }
  }

  lemma {:induction false} OwedBodies(book: seq<Sent>, frames: seq<Frame>, c: nat, k: nat, d: nat)
    requires WellBook(book) && OwedRun(book, frames, c, k) && k <= |OrderedData(book, c)|
    ensures k + |frames| <= |OrderedData(book, c)|
    ensures BodiesOn(Streams.Oks(frames), d) == if d == c then OrderedData(book, c)[k..k + |frames|] else []
  {
    hide WellBook;
    hide OrderedData;
    hide OwedAt;
    var items := Streams.Oks(frames);
    if frames != [] {
      OwedData(book, frames[0], c, k);
      assert OwedRun(book, frames[1..], c, k + 1) by {
        forall i | 0 <= i < |frames[1..]|
          ensures OwedAt(book, frames[1..][i], c, k + 1 + i)
        {
          assert OwedAt(book, frames[i + 1], c, k + (i + 1));
        }
      }
      OwedBodies(book, frames[1..], c, k + 1, d);
      assert items[1..] == Streams.Oks(frames[1..]);
      var data := OrderedData(book, c);
      assert data[k..k + |frames|] == [data[k]] + data[k + 1..k + |frames|];
      assert Ordering.IsOn(items[0], d) == (d == c);
    }
  }

  /** One ordered frame filed: its channel delivers the data between its old and new position. */
  lemma ExpectedOwed(book: seq<Sent>, f: Frame, c: Byte, k: U24)
    requires IsExpected(book, f) && f.ordered == Some(Ordered(k, c))
    ensures OwedAt(book, f, c, k)
  {
    var m: nat :| m < |book| && book[m].Well() && f == book[m].Expected();
    assert book[m].OnChannel(c) && book[m].ordered.value.frameIndex == k;
  }

  lemma FiledSafe(book: seq<Sent>, chans: seq<Ordering.Chan>, f: Frame, c: Byte, k: U24)
    requires WellBook(book) && Ordering.Settled(chans) && ChansSafe(book, chans)
    requires IsExpected(book, f) && f.ordered == Some(Ordered(k, c)) && c < |chans| && chans[c].read <= k
    ensures var (out, chans') := Ordering.Step(chans, Ok(f));
            && |chans'| == |chans| && Ordering.Settled(chans') && ChansSafe(book, chans')
            && Advances(book, chans, chans', out)
  {
    hide WellBook;
    hide OrderedData;
    hide Ordering.Step;
    hide Ordering.Drain;
    hide OwedAt;
    hide IsExpected;
    hide BodiesOn;
    hide Streams.Oks;
    ExpectedOwed(book, f, c, k);
    var filed := Ordering.Chan(chans[c].pending[k := f], chans[c].read);
    assert ChanSafe(book, c, chans[c]);
    assert ChanSafe(book, c, filed);
    Ordering.FiledStep(chans, f, c, k);
    DrainSafe(book, c, filed);
    var out, ch' := Ordering.Drain(filed).0, Ordering.Drain(filed).1;
    forall d: nat
      ensures BodiesOn(Streams.Oks(out), d) == if d == c then OrderedData(book, c)[chans[c].read..ch'.read] else []
    {
      OwedBodies(book, out, c, chans[c].read, d);
    }
  }

  /** One item: channels stay safe, and each delivers the data between its old and new position. */
  lemma OrderStepSafe(book: seq<Sent>, chans: seq<Ordering.Chan>, item: Result<Frame>)
    requires WellBook(book) && Ordering.Settled(chans) && ChansSafe(book, chans)
    requires item.Ok? ==> IsExpected(book, item.value)
    ensures var (out, chans') := Ordering.Step(chans, item);
            && |chans'| == |chans| && Ordering.Settled(chans') && ChansSafe(book, chans')
            && Advances(book, chans, chans', out)
  {
    hide WellBook;
    hide OrderedData;
    if item.Ok? && item.value.ordered.Some? && item.value.ordered.value.channel < |chans|
       && chans[item.value.ordered.value.channel].read <= item.value.ordered.value.frameIndex {
      FiledSafe(book, chans, item.value, item.value.ordered.value.channel, item.value.ordered.value.frameIndex);
    } else {
      var out := Ordering.Step(chans, item).0;
      assert Ordering.Step(chans, item).1 == chans && |out| <= 1;
      forall d: nat
        ensures BodiesOn(out, d) == []
      {
        assert |out| == 1 ==> out[1..] == [] && !Ordering.IsOn(out[0], d);
      }
    }
  }

  /** Each channel has delivered exactly the data between its old and new position. */
  ghost predicate Advances(book: seq<Sent>, chans: seq<Ordering.Chan>, chans': seq<Ordering.Chan>,
                           out: seq<Result<Frame>>)
    requires |chans| == |chans'| && ChansSafe(book, chans')
  {
    && (forall c: nat :: c < |chans| ==>
          chans[c].read <= chans'[c].read && BodiesOn(out, c) == OrderedData(book, c)[chans[c].read..chans'[c].read])
    && (forall c: nat :: c >= |chans| ==> BodiesOn(out, c) == [])
  }

  lemma {:induction false} OrderRunSafe(book: seq<Sent>, chans: seq<Ordering.Chan>, items: seq<Result<Frame>>)
    requires WellBook(book) && Ordering.Settled(chans) && ChansSafe(book, chans) && Whole(book, items)
    ensures var (out, chans') := Streams.Run(Ordering.Step, chans, items);
            && |chans'| == |chans| && Ordering.Settled(chans') && ChansSafe(book, chans')
            && Advances(book, chans, chans', out)
    decreases |items|
  {
    hide WellBook;
    hide OrderedData;
    hide Ordering.Step;
    hide OwedAt;
    if items != [] {
      OrderStepSafe(book, chans, items[0]);
      var first := Ordering.Step(chans, items[0]);
      OrderRunSafe(book, first.1, items[1..]);
      var rest: (seq<Result<Frame>>, seq<Ordering.Chan>) := Streams.Run(Ordering.Step, first.1, items[1..]);
      forall c: nat
        ensures BodiesOn(first.0 + rest.0, c) == BodiesOn(first.0, c) + BodiesOn(rest.0, c)
      {
        BodiesOnAppend(first.0, rest.0, c);
      }
      forall c: nat | c < |chans|
        ensures BodiesOn(first.0 + rest.0, c) == OrderedData(book, c)[chans[c].read..rest.1[c].read]
      {
        SliceJoin(OrderedData(book, c), chans[c].read, first.1[c].read, rest.1[c].read);
      }
    }
  }

  lemma SliceJoin<T>(s: seq<T>, i: nat, j: nat, k: nat)
    requires i <= j <= k <= |s|
    ensures s[i..j] + s[j..k] == s[i..k]
  {
  }

  /**
   * In-order safety. Whatever sets of sent frames arrive, in any order, any number of times, and
   * whatever the cache evicts or the limits reject, the bodies delivered on each channel are a
   * prefix of the data sent on it.
   */
  lemma OrderedSafety(book: seq<Sent>, cfg: Config, sets: seq<seq<Frame>>, c: nat)
    requires WellBook(book) && AllInBook(book, sets)
    ensures BodiesOn(Delivered(cfg, sets), c) <= OrderedData(book, c)
  {
    hide WellBook;
    hide AllInBook;
    hide Ordering.Step;
    FrontSafe(book, cfg.limits, {}, Defragment.Parts(map[], []), sets);
    LayersCompose(cfg, sets);
    OrderRunSafe(book, EmptyChannels(cfg.maxChannels), Items(cfg, sets));
  }

  predicate AllOk(items: seq<Result<Frame>>) {
    forall i :: 0 <= i < |items| ==> items[i].Ok?
  }

  lemma {:induction false} OksCount(frames: seq<Frame>, f: Frame)
    ensures multiset(Streams.Oks(frames))[Ok(f)] == multiset(frames)[f]
  {
    if frames == [] {
      assert Streams.Oks(frames) == [];
    } else {
      OksCount(frames[1..], f);
      assert Streams.Oks(frames) == [Ok(frames[0])] + Streams.Oks(frames[1..]);
      assert frames == [frames[0]] + frames[1..];
    }
  }

  /** How often the owed frame of message `n` occurs. */
  ghost function Occurrences(book: seq<Sent>, items: seq<Result<Frame>>, n: nat): nat
    requires WellBook(book) && n < |book|
  {
    multiset(items)[Ok(book[n].Expected())]
  }

  /**
   * The frames that reach reassembly: of each set, those that pass deduplication and stand before the
   * first refused one.
   */
  function Passing(lim: Defragment.Limits, seen: set<nat>, sets: seq<seq<Frame>>): (frames: seq<Frame>)
    decreases |sets|
  {
    if sets == [] then []
    else
      var (kept, seen') := Dedup.Keep(seen, sets[0]);
      Defragment.Cut(lim, kept) + Passing(lim, seen', sets[1..])
  }

  /** No set holds a refused frame among those that pass deduplication. */
  predicate NothingRefused(lim: Defragment.Limits, seen: set<nat>, sets: seq<seq<Frame>>)
    decreases |sets|
  {
    sets == []
    || (var (kept, seen') := Dedup.Keep(seen, sets[0]);
        Defragment.Cut(lim, kept) == kept && NothingRefused(lim, seen', sets[1..]))
  }

  lemma OccurrencesAppend(book: seq<Sent>, a: seq<Result<Frame>>, b: seq<Result<Frame>>, n: nat)
    requires WellBook(book) && n < |book|
    ensures Occurrences(book, a + b, n) == Occurrences(book, a, n) + Occurrences(book, b, n)
  {
    hide WellBook;
    EntryIsWell(book, n);
    assert multiset(a + b) == multiset(a) + multiset(b);
  }

  /** What the first two layers remember of an arrival. */
  ghost function Gather(book: seq<Sent>, lim: Defragment.Limits, seen: set<nat>, mem: Memory, sets: seq<seq<Frame>>)
    : (r: Memory)
    decreases |sets|
  {
    if sets == [] then mem
    else
      var (kept, seen') := Dedup.Keep(seen, sets[0]);
      Gather(book, lim, seen', RememberAll(book, lim, mem, kept), sets[1..])
  }

  /** One set through the first two layers, whatever it evicts. */
  lemma FrontSetExact(book: seq<Sent>, lim: Defragment.Limits, seen: set<nat>, mem: Memory, parts: Defragment.Parts,
                      frames: seq<Frame>)
    requires WellBook(book) && Exact(book, lim.limitParted, mem, parts) && mem.got <= seen
    requires lim.limitParted > 0 && forall f :: f in frames ==> InBook(book, f)
    ensures var (items, front) := FrontLayers(lim)((seen, parts), frames);
            var (kept, seen') := Dedup.Keep(seen, frames);
            var mem' := RememberAll(book, lim, mem, kept);
            && (AllOk(items) <==> Defragment.Cut(lim, kept) == kept)
            && front.0 == seen' && mem'.got <= seen'
            && Exact(book, lim.limitParted, mem', front.1)
            && forall n: nat :: n < |book| && book[n].reliability.IsReliable() ==>
                 && (Done(book[n], mem.got) ==> Done(book[n], mem'.got))
                 && Occurrences(book, items, n) == Completions(book[n], mem.got, mem'.got)
  {
    hide WellBook;
    hide Exact;
    hide RememberAll;
    hide FrontLayers;
    hide Defragment.RunSet;
    hide Dedup.Keep;
    hide InBook;
    hide Completions;
    hide Done;
    hide Fresh;
    hide NoteAll;
    hide Defragment.Cut;
    FrontStep(lim, seen, parts, frames);
    KeepIsFresh(seen, frames);
    var kept := Dedup.Keep(seen, frames).0;
    FreshLess(seen, mem.got, kept);
    RememberWithin(book, lim, seen, mem, kept);
    RunSetExact(book, lim, mem, parts, kept);
    var r, mem' := Defragment.RunSet(lim, parts, kept), RememberAll(book, lim, mem, kept);
    var failure := if r.failed then [Err(PartedFrame)] else [];
    assert AllOk(failure + Streams.Oks(r.frames)) <==> !r.failed by {
      assert r.failed ==> (failure + Streams.Oks(r.frames))[0].Err?;
    }
    forall n: nat | n < |book| && book[n].reliability.IsReliable()
      ensures Occurrences(book, failure + Streams.Oks(r.frames), n) == Completions(book[n], mem.got, mem'.got)
    {
      EntryIsWell(book, n);
      OksCount(r.frames, book[n].Expected());
      OccurrencesAppend(book, failure, Streams.Oks(r.frames), n);
    }
  }

  lemma RememberWithin(book: seq<Sent>, lim: Defragment.Limits, seen: set<nat>, mem: Memory, frames: seq<Frame>)
    requires mem.got <= seen
    ensures RememberAll(book, lim, mem, frames).got <= NoteAll(seen, frames)
  {
    RememberLess(book, lim, mem, frames);
    NoteAllLess(seen, mem.got, frames, |frames|);
    assert frames[..|frames|] == frames;
  }

  lemma EntryIsWell(book: seq<Sent>, n: nat)
    requires WellBook(book) && n < |book|
    ensures book[n].Well()
  {
  }

  /**
   * Split and reassemble, exactly. Whatever arrives, and whatever is refused or evicted: every reliable
   * message leaves the first two layers once if all of it comes to be remembered, and not at all otherwise;
   * and an error surfaces exactly when a frame was refused.
   */
  lemma {:induction false} FrontExact(book: seq<Sent>, lim: Defragment.Limits, seen: set<nat>, mem: Memory,
                                      parts: Defragment.Parts, sets: seq<seq<Frame>>)
    requires WellBook(book) && Exact(book, lim.limitParted, mem, parts) && mem.got <= seen && AllInBook(book, sets)
    requires lim.limitParted > 0
    ensures var items := Streams.Run(FrontLayers(lim), (seen, parts), sets).0;
            var end := Gather(book, lim, seen, mem, sets).got;
            && (AllOk(items) <==> NothingRefused(lim, seen, sets))
            && forall n: nat :: n < |book| && book[n].reliability.IsReliable() ==>
                 && (Done(book[n], mem.got) ==> Done(book[n], end))
                 && Occurrences(book, items, n) == Completions(book[n], mem.got, end)
    decreases |sets|
  {
    hide WellBook;
    hide Exact;
    hide RememberAll;
    hide FrontLayers;
    hide Completions;
    hide Done;
    hide InBook;
    hide Occurrences;
    hide Dedup.Keep;
    if sets == [] {
      forall n: nat | n < |book| && book[n].reliability.IsReliable()
        ensures Occurrences(book, [], n) == Completions(book[n], mem.got, mem.got)
      {
        NothingOccurs(book, mem.got, n);
      }
    } else {
      var rest := sets[1..];
      var (kept, seen') := Dedup.Keep(seen, sets[0]);
      FrontSetExact(book, lim, seen, mem, parts, sets[0]);
      var first := FrontLayers(lim)((seen, parts), sets[0]);
      var mid := RememberAll(book, lim, mem, kept);
      FrontExact(book, lim, seen', mid, first.1.1, rest);
      var others, end := Streams.Run(FrontLayers(lim), first.1, rest).0, Gather(book, lim, seen', mid, rest).got;
      AllOkAppend(first.0, others);
      forall n: nat | n < |book| && book[n].reliability.IsReliable()
        ensures Done(book[n], mem.got) ==> Done(book[n], end)
        ensures Occurrences(book, first.0 + others, n) == Completions(book[n], mem.got, end)
      {
        OccurrencesAppend(book, first.0, others, n);
        CompletionsJoin(book[n], mem.got, mid.got, end);
      }
    }
  }

  lemma NothingOccurs(book: seq<Sent>, got: set<nat>, n: nat)
    requires WellBook(book) && n < |book|
    ensures Occurrences(book, [], n) == 0 == Completions(book[n], got, got)
  {
  }

  lemma AllOkAppend(a: seq<Result<Frame>>, b: seq<Result<Frame>>)
    ensures AllOk(a + b) <==> AllOk(a) && AllOk(b)
  {
    assert forall i :: 0 <= i < |a| ==> (a + b)[i] == a[i];
    assert forall i :: 0 <= i < |b| ==> (a + b)[|a| + i] == b[i];
  }

  lemma CompletionsJoin(e: Sent, got: set<nat>, mid: set<nat>, end: set<nat>)
    requires (Done(e, got) ==> Done(e, mid)) && (Done(e, mid) ==> Done(e, end))
    ensures Completions(e, got, mid) + Completions(e, mid, end) == Completions(e, got, end)
  {
  }

  /** While the cache has room for all that reaches it, nothing that reached it is forgotten. */
  lemma {:induction false} RoomyGathers(book: seq<Sent>, lim: Defragment.Limits, seen: set<nat>, mem: Memory,
                                        parts: Defragment.Parts, sets: seq<seq<Frame>>)
    requires WellBook(book) && Exact(book, lim.limitParted, mem, parts) && mem.got <= seen && AllInBook(book, sets)
    requires lim.limitParted > 0 && Roomy(book, lim.limitParted, mem.got, Passing(lim, seen, sets))
    ensures Gather(book, lim, seen, mem, sets).got == NoteAll(mem.got, Passing(lim, seen, sets))
    decreases |sets|
  {
    hide WellBook;
    hide Exact;
    hide RememberAll;
    hide FrontLayers;
    hide InBook;
    hide Dedup.Keep;
    hide Occurrences;
    hide Done;
    hide Roomy;
    hide Fresh;
    if sets != [] {
      var (kept, seen') := Dedup.Keep(seen, sets[0]);
      var cut, after := Defragment.Cut(lim, kept), Passing(lim, seen', sets[1..]);
      KeepIsFresh(seen, sets[0]);
      FreshLess(seen, mem.got, kept);
      NoteAllAppend(mem.got, cut, after);
      RoomyAppend(book, lim.limitParted, mem.got, cut, after);
      RoomyRemembers(book, lim, mem, parts, kept);
      FrontSetExact(book, lim, seen, mem, parts, sets[0]);
      var parts' := FrontLayers(lim)((seen, parts), sets[0]).1.1;
      RoomyGathers(book, lim, seen', RememberAll(book, lim, mem, kept), parts', sets[1..]);
    }
  }

  /** An index that was noted and is not remembered never will be: later copies are duplicates. */
  lemma {:induction false} ForgottenForGood(book: seq<Sent>, lim: Defragment.Limits, seen: set<nat>, mem: Memory,
                                            sets: seq<seq<Frame>>, k: nat)
    requires k in seen && k !in mem.got
    ensures k !in Gather(book, lim, seen, mem, sets).got
    decreases |sets|
  {
    if sets != [] {
      var (kept, seen') := Dedup.Keep(seen, sets[0]);
      KeepIsFresh(seen, sets[0]);
      NoteAllGrows(seen, kept);
      RememberLess(book, lim, mem, kept);
      if k in NoteAll(mem.got, kept) {
        var f := NotedBy(mem.got, kept, k);
        FreshMeansNew(seen, kept, f);
        assert false;
      }
      ForgottenForGood(book, lim, seen', RememberAll(book, lim, mem, kept), sets[1..], k);
    }
  }

  lemma {:induction false} GatherAppend(book: seq<Sent>, lim: Defragment.Limits, seen: set<nat>, mem: Memory,
                                        a: seq<seq<Frame>>, b: seq<seq<Frame>>)
    ensures Gather(book, lim, seen, mem, a + b)
            == Gather(book, lim, NoteAll(seen, Flatten(a)), Gather(book, lim, seen, mem, a), b)
    decreases |a|
  {
    if a == [] {
      assert a + b == b;
    } else {
      assert (a + b)[1..] == a[1..] + b;
      var kept := Dedup.Keep(seen, a[0]).0;
      KeepIsFresh(seen, a[0]);
      NoteAllAppend(seen, a[0], Flatten(a[1..]));
      GatherAppend(book, lim, NoteAll(seen, a[0]), RememberAll(book, lim, mem, kept), a[1..], b);
    }
  }

  /** When nothing is refused, everything that arrived reached reassembly. */
  lemma {:induction false} PassingAll(lim: Defragment.Limits, seen: set<nat>, sets: seq<seq<Frame>>)
    requires NothingRefused(lim, seen, sets)
    ensures NoteAll(seen, Passing(lim, seen, sets)) == NoteAll(seen, Flatten(sets))
    decreases |sets|
  {
    if sets != [] {
      var (kept, seen') := Dedup.Keep(seen, sets[0]);
      KeepIsFresh(seen, sets[0]);
      PassingAll(lim, seen', sets[1..]);
      NoteAllAppend(seen, kept, Passing(lim, seen', sets[1..]));
      NoteAllAppend(seen, sets[0], Flatten(sets[1..]));
    }
  }

  /** Frames of messages within the part limit are never refused. */
  lemma {:induction false} FitsNothingRefused(book: seq<Sent>, lim: Defragment.Limits, seen: set<nat>,
                                              sets: seq<seq<Frame>>)
    requires AllInBook(book, sets) && WithinSize(book, lim)
    ensures NothingRefused(lim, seen, sets)
    decreases |sets|
  {
    if sets != [] {
      var (kept, seen') := Dedup.Keep(seen, sets[0]);
      KeepIsFresh(seen, sets[0]);
      forall f | f in kept
        ensures !Defragment.Rejected(lim, f)
      {
        var j :| 0 <= j < |sets[0]| && sets[0][j] == f;
        assert InBook(book, sets[0][j]);
      }
      CutNothing(lim, kept);
      assert AllInBook(book, sets[1..]);
      FitsNothingRefused(book, lim, seen', sets[1..]);
    }
  }

  lemma {:induction false} CutNothing(lim: Defragment.Limits, frames: seq<Frame>)
    requires forall f :: f in frames ==> !Defragment.Rejected(lim, f)
    ensures Defragment.Cut(lim, frames) == frames
  {
    if frames != [] {
      assert !Defragment.Rejected(lim, frames[0]);
      CutNothing(lim, frames[1..]);
    }
  }

  /** Whatever reached reassembly was not refused, and had arrived. */
  lemma {:induction false} PassingKept(lim: Defragment.Limits, seen: set<nat>, sets: seq<seq<Frame>>, f: Frame)
    requires f in Passing(lim, seen, sets)
    ensures !Defragment.Rejected(lim, f) && exists i, j :: 0 <= i < |sets| && 0 <= j < |sets[i]| && sets[i][j] == f
    decreases |sets|
  {
    var (kept, seen') := Dedup.Keep(seen, sets[0]);
    if f in Defragment.Cut(lim, kept) {
      CutKept(lim, kept, f);
      KeepIsFresh(seen, sets[0]);
      var j :| 0 <= j < |sets[0]| && sets[0][j] == f;
    } else {
      PassingKept(lim, seen', sets[1..], f);
      var i, j :| 0 <= i < |sets[1..]| && 0 <= j < |sets[1..][i]| && sets[1..][i][j] == f;
      assert sets[i + 1][j] == f;
    }
  }

  lemma {:induction false} CutKept(lim: Defragment.Limits, frames: seq<Frame>, f: Frame)
    requires f in Defragment.Cut(lim, frames)
    ensures f in frames && !Defragment.Rejected(lim, f)
  {
    if f != frames[0] {
      CutKept(lim, frames[1..], f);
    }
  }

  /** An index that was noted and did not reach reassembly never will: later copies are duplicates. */
  lemma {:induction false} LostForGood(lim: Defragment.Limits, seen: set<nat>, got: set<nat>, sets: seq<seq<Frame>>,
                                       k: nat)
    requires k in seen && k !in got
    ensures k !in NoteAll(got, Passing(lim, seen, sets))
    decreases |sets|
  {
    if sets != [] {
      var (kept, seen') := Dedup.Keep(seen, sets[0]);
      KeepIsFresh(seen, sets[0]);
      NoteAllGrows(seen, kept);
      var cut, rest := Defragment.Cut(lim, kept), Passing(lim, seen', sets[1..]);
      if k in NoteAll(got, cut) {
        var f := NotedBy(got, cut, k);
        FreshMeansNew(seen, kept, f);
        assert false;
      }
      LostForGood(lim, seen', NoteAll(got, cut), sets[1..], k);
      NoteAllAppend(got, cut, rest);
    }
  }

  ghost predicate ChannelsFit(book: seq<Sent>, n: nat) {
    forall m :: 0 <= m < |book| && book[m].ordered.Some? ==> book[m].ordered.value.channel < n
  }

  /** The message has reached its channel: its index was read already or waits to be. */
  ghost predicate Reached(chans: seq<Ordering.Chan>, ordered: Ordered) {
    && ordered.channel < |chans|
    && (ordered.frameIndex < chans[ordered.channel].read || ordered.frameIndex in chans[ordered.channel].pending)
  }

  /** One if the index was read between two states of the channels. */
  ghost function Reads(chans: seq<Ordering.Chan>, chans': seq<Ordering.Chan>, ordered: Ordered): nat
    requires ordered.channel < |chans| && ordered.channel < |chans'|
  {
    if chans[ordered.channel].read <= ordered.frameIndex < chans'[ordered.channel].read then 1 else 0
  }

  lemma OwedIs(book: seq<Sent>, f: Frame, c: nat, k: nat, m: nat)
    requires WellBook(book) && OwedAt(book, f, c, k) && m < |book| && book[m].reliability.IsReliable()
    ensures f == book[m].Expected() <==> book[m].OnChannel(c) && book[m].ordered.value.frameIndex == k
  {
    var n: nat :| n < |book| && book[n].Well() && book[n].OnChannel(c) && book[n].ordered.value.frameIndex == k
        && f == book[n].Expected();
    if n != m {
      ExpectedDistinct(book, n, m);
      if book[m].OnChannel(c) {
        if n < m {
          OrderedUnique(book, n, m);
        } else {
          OrderedUnique(book, m, n);
        }
      }
    }
  }

  /** Frames owed for consecutive indices hold each message of the span once. */
  lemma {:induction false} OwedCount(book: seq<Sent>, frames: seq<Frame>, c: nat, k: nat, m: nat)
    requires WellBook(book) && OwedRun(book, frames, c, k) && m < |book| && book[m].reliability.IsReliable()
    ensures multiset(frames)[book[m].Expected()]
            == if book[m].OnChannel(c) && k <= book[m].ordered.value.frameIndex < k + |frames| then 1 else 0
  {
    hide WellBook;
    hide OwedAt;
    EntryIsWell(book, m);
    if frames != [] {
      assert OwedAt(book, frames[0], c, k + 0);
      OwedIs(book, frames[0], c, k, m);
      assert OwedRun(book, frames[1..], c, k + 1) by {
        forall i | 0 <= i < |frames[1..]|
          ensures OwedAt(book, frames[1..][i], c, k + 1 + i)
        {
          assert OwedAt(book, frames[i + 1], c, k + (i + 1));
        }
      }
      OwedCount(book, frames[1..], c, k + 1, m);
      assert frames == [frames[0]] + frames[1..];
    }
  }

  /** Filing the frame of ordered message `n`. */
  lemma FiledCount(book: seq<Sent>, chans: seq<Ordering.Chan>, n: nat, m: nat)
    requires WellBook(book) && Ordering.Settled(chans) && ChansSafe(book, chans) && n < |book| && m < |book|
    requires book[m].reliability.IsReliable() && book[n].ordered.Some? && book[n].ordered.value.channel < |chans|
    requires chans[book[n].ordered.value.channel].read <= book[n].ordered.value.frameIndex
    ensures var (out, chans') := Ordering.Step(chans, Ok(book[n].Expected()));
            && |chans'| == |chans|
            && (book[m].ordered.None? || book[m].ordered.value.channel >= |chans| ==> Occurrences(book, out, m) == 0)
            && (book[m].ordered.Some? && book[m].ordered.value.channel < |chans| ==>
                  && Occurrences(book, out, m) == Reads(chans, chans', book[m].ordered.value)
                  && chans[book[m].ordered.value.channel].read <= chans'[book[m].ordered.value.channel].read
                  && (Reached(chans', book[m].ordered.value) <==> Reached(chans, book[m].ordered.value) || m == n))
  {
    hide WellBook;
    hide Ordering.Step;
    hide Ordering.Drain;
    hide Streams.Oks;
    EntryIsWell(book, m);
    EntryIsWell(book, n);
    var f := book[n].Expected();
    var c, k := book[n].ordered.value.channel, book[n].ordered.value.frameIndex;
    assert OwedAt(book, f, c, k);
    var filed := Ordering.Chan(chans[c].pending[k := f], chans[c].read);
    assert ChanSafe(book, c, chans[c]) && ChanSafe(book, c, filed);
    Ordering.FiledStep(chans, f, c, k);
    DrainSafe(book, c, filed);
    var out := Ordering.Drain(filed).0;
    OwedCount(book, out, c, chans[c].read, m);
    OksCount(out, book[m].Expected());
    if book[m].ordered.Some? {
      if m < n && book[m].ordered.value.channel == c {
        OrderedUnique(book, m, n);
      } else if n < m && book[m].ordered.value.channel == c {
        OrderedUnique(book, n, m);
      }
      Ordering.DrainKeeps(filed, book[m].ordered.value.frameIndex);
    }
  }

  /**
   * What one or more items do to message `m`: an unordered one passes through; one on a channel the
   * decoder does not have is dropped; any other ordered one leaves when its index is read, and its
   * index is reached exactly when it was before or came in.
   */
  ghost predicate Counts(book: seq<Sent>, chans: seq<Ordering.Chan>, chans': seq<Ordering.Chan>,
                         items: seq<Result<Frame>>, out: seq<Result<Frame>>, m: nat)
    requires WellBook(book) && m < |book| && |chans'| == |chans|
  {
    match book[m].ordered
    case None => Occurrences(book, out, m) == Occurrences(book, items, m)
    case Some(o) =>
      if o.channel >= |chans| then Occurrences(book, out, m) == 0
      else
      && Occurrences(book, out, m) == Reads(chans, chans', o)
      && chans[o.channel].read <= chans'[o.channel].read
      && (Reached(chans', o) <==> Reached(chans, o) || Occurrences(book, items, m) > 0)
  }

  lemma OrderStepCount(book: seq<Sent>, chans: seq<Ordering.Chan>, n: nat, m: nat)
    requires WellBook(book) && Ordering.Settled(chans) && ChansSafe(book, chans) && n < |book| && m < |book|
    requires book[m].reliability.IsReliable()
    ensures var (out, chans') := Ordering.Step(chans, Ok(book[n].Expected()));
            |chans'| == |chans| && Counts(book, chans, chans', [Ok(book[n].Expected())], out, m)
  {
    EntryIsWell(book, n);
    if n != m {
      ExpectedDistinct(book, n, m);
    }
    var one := [Ok(book[n].Expected())];
    assert Occurrences(book, one, m) == if n == m then 1 else 0;
    if book[n].ordered.Some? && book[n].ordered.value.channel < |chans|
       && chans[book[n].ordered.value.channel].read <= book[n].ordered.value.frameIndex {
      FiledCount(book, chans, n, m);
    } else {
      assert Ordering.Step(chans, one[0]).1 == chans;
    }
  }

  lemma CountsThen(book: seq<Sent>, chans: seq<Ordering.Chan>, mid: seq<Ordering.Chan>, chans': seq<Ordering.Chan>,
                   a: seq<Result<Frame>>, b: seq<Result<Frame>>, outA: seq<Result<Frame>>, outB: seq<Result<Frame>>,
                   m: nat)
    requires WellBook(book) && m < |book| && |chans'| == |mid| == |chans|
    requires Counts(book, chans, mid, a, outA, m) && Counts(book, mid, chans', b, outB, m)
    ensures Counts(book, chans, chans', a + b, outA + outB, m)
  {
    hide WellBook;
    assert multiset(a + b) == multiset(a) + multiset(b) && multiset(outA + outB) == multiset(outA) + multiset(outB);
  }

  lemma NothingCounts(book: seq<Sent>, chans: seq<Ordering.Chan>, m: nat)
    requires WellBook(book) && m < |book|
    ensures Counts(book, chans, chans, [], [], m)
  {
    hide WellBook;
  }

  /** An error passes through and leaves the channels alone. */
  lemma ErrorCounts(book: seq<Sent>, chans: seq<Ordering.Chan>, item: Result<Frame>, m: nat)
    requires WellBook(book) && m < |book| && item.Err?
    ensures Ordering.Step(chans, item) == ([item], chans) && Counts(book, chans, chans, [item], [item], m)
  {
    hide WellBook;
    assert multiset([item])[Ok(book[m].Expected())] == 0;
  }

  lemma {:induction false} OrderRunCount(book: seq<Sent>, chans: seq<Ordering.Chan>, items: seq<Result<Frame>>, m: nat)
    requires WellBook(book) && Ordering.Settled(chans) && ChansSafe(book, chans) && Whole(book, items)
    requires m < |book| && book[m].reliability.IsReliable()
    ensures var (out, chans') := Streams.Run(Ordering.Step, chans, items);
            |chans'| == |chans| && Counts(book, chans, chans', items, out, m)
    decreases |items|
  {
    hide WellBook;
    hide ChansSafe;
    hide Ordering.Step;
    hide Ordering.Settled;
    hide Counts;
    if items == [] {
      NothingCounts(book, chans, m);
    } else {
      ItemCounts(book, chans, items[0], m);
      OrderStepSafe(book, chans, items[0]);
      var first := Ordering.Step(chans, items[0]);
      OrderRunCount(book, first.1, items[1..], m);
      assert items == [items[0]] + items[1..];
      var rest := Streams.Run(Ordering.Step, first.1, items[1..]);
      CountsThen(book, chans, first.1, rest.1, [items[0]], items[1..], first.0, rest.0, m);
    }
  }

  lemma ItemCounts(book: seq<Sent>, chans: seq<Ordering.Chan>, item: Result<Frame>, m: nat)
    requires WellBook(book) && Ordering.Settled(chans) && ChansSafe(book, chans)
             && (item.Ok? ==> IsExpected(book, item.value))
    requires m < |book| && book[m].reliability.IsReliable()
    ensures var (out, chans') := Ordering.Step(chans, item);
            |chans'| == |chans| && Counts(book, chans, chans', [item], out, m)
  {
    hide WellBook;
    hide ChansSafe;
    hide Ordering.Step;
    hide Ordering.Settled;
    hide Counts;
    if item.Ok? {
      var n: nat :| n < |book| && book[n].Well() && item.value == book[n].Expected();
      OrderStepCount(book, chans, n, m);
      assert item == Ok(book[n].Expected());
    } else {
      ErrorCounts(book, chans, item, m);
    }
  }

  /**
   * All of the message is among these indices, and so is all of every earlier message of its channel,
   * which the decoder has.
   */
  ghost predicate Deliverable(book: seq<Sent>, channels: nat, got: set<nat>, m: nat)
    requires m < |book|
  {
    && Done(book[m], got)
    && (book[m].ordered.Some? ==>
          && book[m].ordered.value.channel < channels
          && forall n: nat :: n < m && book[n].OnChannel(book[m].ordered.value.channel) ==> Done(book[n], got))
  }

  /** A settled channel whose reached indices are those of finished messages has read up to the first unfinished one. */
  lemma ReadUpToGap(book: seq<Sent>, chans: seq<Ordering.Chan>, got: set<nat>, m: nat)
    requires WellBook(book) && Ordering.Settled(chans) && ChansSafe(book, chans)
    requires m < |book| && book[m].ordered.Some? && book[m].ordered.value.channel < |chans|
    requires forall n: nat :: n < |book| && book[n].ordered.Some? && book[n].ordered.value.channel < |chans| ==>
               (Reached(chans, book[n].ordered.value) <==> Done(book[n], got))
    ensures book[m].ordered.value.frameIndex < chans[book[m].ordered.value.channel].read <==>
              Deliverable(book, |chans|, got, m)
  {
    var c, k := book[m].ordered.value.channel, book[m].ordered.value.frameIndex;
    var ch := chans[c];
    if k < ch.read {
      forall n: nat | n < m && book[n].OnChannel(c)
        ensures Done(book[n], got)
      {
        OrderedUnique(book, n, m);
        assert Reached(chans, book[n].ordered.value);
      }
    } else {
      OrderedAt(book, m);
      var n := OrderedOwner(book, c, ch.read);
      if m < n {
        OrderedUnique(book, m, n);
      }
      assert !ch.Ready();
      assert !Done(book[n], got);
    }
  }

  /** The cache never has to evict anything that reaches reassembly, for this arrival. */
  ghost predicate Room(book: seq<Sent>, cfg: Config, sets: seq<seq<Frame>>) {
    && cfg.limits.limitParted > 0
    && Roomy(book, cfg.limits.limitParted, {}, Passing(cfg.limits, {}, sets))
  }

  /** No message is over the decoder's limits. */
  ghost predicate WithinLimits(book: seq<Sent>, cfg: Config) {
    WithinSize(book, cfg.limits) && ChannelsFit(book, cfg.maxChannels)
  }

  /** The reliable indices the decoder remembers of an arrival. */
  ghost function Remembered(book: seq<Sent>, cfg: Config, sets: seq<seq<Frame>>): set<nat> {
    Gather(book, cfg.limits, {}, NOTHING, sets).got
  }

  /** The reliable indices that reached reassembly. */
  function Got(cfg: Config, sets: seq<seq<Frame>>): set<nat> {
    NoteAll({}, Passing(cfg.limits, {}, sets))
  }

  lemma NothingDone(e: Sent)
    requires e.Well()
    ensures !Done(e, {})
  {
    var none: set<nat> := {};
    assert 0 < |e.pieces| && Index(e, 0) !in none;
  }

  /** What the first two layers yield of each reliable message, from an empty start. */
  lemma ItemsExact(book: seq<Sent>, cfg: Config, sets: seq<seq<Frame>>, n: nat)
    requires WellBook(book) && AllInBook(book, sets) && cfg.limits.limitParted > 0
    requires n < |book| && book[n].reliability.IsReliable()
    ensures Occurrences(book, Items(cfg, sets), n) == if Done(book[n], Remembered(book, cfg, sets)) then 1 else 0
  {
    hide WellBook;
    hide AllInBook;
    hide FrontLayers;
    hide Exact;
    hide Gather;
    hide Done;
    EntryIsWell(book, n);
    NothingDone(book[n]);
    NothingExact(book, cfg.limits.limitParted);
    FrontExact(book, cfg.limits, {}, NOTHING, Defragment.Parts(map[], []), sets);
  }

  /**
   * Exactly once, in order. For every arrival of sent frames, whatever is refused or evicted, a reliable
   * message is delivered once if all of it and of all earlier messages of its channel is remembered, and
   * never otherwise.
   */
  lemma ExactlyOnce(book: seq<Sent>, cfg: Config, sets: seq<seq<Frame>>, m: nat)
    requires WellBook(book) && AllInBook(book, sets) && cfg.limits.limitParted > 0
    requires m < |book| && book[m].reliability.IsReliable()
    ensures Occurrences(book, Delivered(cfg, sets), m)
            == if Deliverable(book, cfg.maxChannels, Remembered(book, cfg, sets), m) then 1 else 0
  {
    hide WellBook;
    hide AllInBook;
    hide Ordering.Step;
    hide FrontLayers;
    hide Remembered;
    hide Done;
    hide Occurrences;
    var got, items, chans := Remembered(book, cfg, sets), Items(cfg, sets), EmptyChannels(cfg.maxChannels);
    FrontSafe(book, cfg.limits, {}, Defragment.Parts(map[], []), sets);
    LayersCompose(cfg, sets);
    OrderRunSafe(book, chans, items);
    var chans' := Streams.Run(Ordering.Step, chans, items).1;
    ItemsExact(book, cfg, sets, m);
    OrderRunCount(book, chans, items, m);
    if book[m].ordered.Some? && book[m].ordered.value.channel < cfg.maxChannels {
      forall n: nat | n < |book| && book[n].ordered.Some? && book[n].ordered.value.channel < cfg.maxChannels
        ensures Reached(chans', book[n].ordered.value) <==> Done(book[n], got)
      {
        EntryIsWell(book, n);
        ItemsExact(book, cfg, sets, n);
        OrderRunCount(book, chans, items, n);
      }
      ReadUpToGap(book, chans', got, m);
    }
  }

  /** Every frame of the message is among the frames. */
  ghost predicate Arrived(book: seq<Sent>, frames: seq<Frame>, m: nat)
    requires WellBook(book) && m < |book|
  {
    forall j: nat :: j < |book[m].pieces| ==> book[m].FrameAt(j) in frames
  }

  lemma {:induction false} NotedWhenPresent(seen: set<nat>, frames: seq<Frame>, f: Frame)
    requires f in frames && f.reliableIndex.Some?
    ensures f.reliableIndex.value in NoteAll(seen, frames)
    decreases |frames|
  {
    if frames[0] != f {
      NotedWhenPresent(Dedup.Note(seen, frames[0]), frames[1..], f);
    }
  }

  lemma ArrivedIsDone(book: seq<Sent>, frames: seq<Frame>, m: nat)
    requires WellBook(book) && m < |book| && book[m].reliability.IsReliable() && Arrived(book, frames, m)
    ensures Done(book[m], NoteAll({}, frames))
  {
    forall j: nat | j < |book[m].pieces|
      ensures Index(book[m], j) in NoteAll({}, frames)
    {
      NotedWhenPresent({}, frames, book[m].FrameAt(j));
    }
  }

  ghost predicate AllArrived(book: seq<Sent>, sets: seq<seq<Frame>>)
    requires WellBook(book)
  {
    forall m :: 0 <= m < |book| && book[m].reliability.IsReliable() ==> Arrived(book, Flatten(sets), m)
  }

  /** Each reliable message was delivered once if all that matters to it is remembered, and else never. */
  ghost predicate DeliveredExactly(book: seq<Sent>, cfg: Config, sets: seq<seq<Frame>>)
    requires WellBook(book)
  {
    forall m: nat :: m < |book| && book[m].reliability.IsReliable() ==>
      Occurrences(book, Delivered(cfg, sets), m)
      == if Deliverable(book, cfg.maxChannels, Remembered(book, cfg, sets), m) then 1 else 0
  }

  ghost predicate EachOnce(book: seq<Sent>, cfg: Config, sets: seq<seq<Frame>>)
    requires WellBook(book)
  {
    forall m: nat :: m < |book| && book[m].reliability.IsReliable() ==>
      Occurrences(book, Delivered(cfg, sets), m) == 1
  }

  /** Every delivery is accounted for, and with room in the cache all are made exactly when no limit is passed. */
  ghost predicate Accounted(book: seq<Sent>, cfg: Config, sets: seq<seq<Frame>>)
    requires WellBook(book)
  {
    cfg.limits.limitParted > 0 ==>
      && DeliveredExactly(book, cfg, sets)
      && (Room(book, cfg, sets) ==> (EachOnce(book, cfg, sets) <==> WithinLimits(book, cfg)))
  }

  /** With room in the cache, what is remembered is what reached reassembly. */
  lemma RoomRemembers(book: seq<Sent>, cfg: Config, sets: seq<seq<Frame>>)
    requires WellBook(book) && AllInBook(book, sets) && Room(book, cfg, sets)
    ensures Remembered(book, cfg, sets) == Got(cfg, sets)
  {
    hide WellBook;
    hide AllInBook;
    hide Exact;
    hide Roomy;
    NothingExact(book, cfg.limits.limitParted);
    RoomyGathers(book, cfg.limits, {}, NOTHING, Defragment.Parts(map[], []), sets);
  }

  /** With room, every frame there, and no message over a limit, every reliable message is delivered. */
  lemma FitsDeliverable(book: seq<Sent>, cfg: Config, sets: seq<seq<Frame>>, m: nat)
    requires WellBook(book) && AllInBook(book, sets) && AllArrived(book, sets) && WithinLimits(book, cfg)
    requires m < |book| && book[m].reliability.IsReliable()
    ensures Deliverable(book, cfg.maxChannels, Got(cfg, sets), m)
  {
    FitsNothingRefused(book, cfg.limits, {}, sets);
    PassingAll(cfg.limits, {}, sets);
    forall n: nat | n < |book| && book[n].reliability.IsReliable()
      ensures Done(book[n], Got(cfg, sets))
    {
      ArrivedIsDone(book, Flatten(sets), n);
    }
  }

  /** No part of a message of too many parts ever reaches reassembly. */
  lemma OversizeNeverDone(book: seq<Sent>, cfg: Config, sets: seq<seq<Frame>>, m: nat)
    requires WellBook(book) && AllInBook(book, sets)
    requires m < |book| && book[m].id.Some? && cfg.limits.limitSize != 0 && |book[m].pieces| > cfg.limits.limitSize
    ensures !Done(book[m], Got(cfg, sets))
  {
    EntryIsWell(book, m);
    var k := Index(book[m], 0);
    if k in Got(cfg, sets) {
      var f := NotedBy({}, Passing(cfg.limits, {}, sets), k);
      PassingKept(cfg.limits, {}, sets, f);
      OwnerByIndex(book, f, m, 0);
      assert false;
    }
  }

  /**
   * All delivered. When every reliable frame arrived at least once and the cache has room, every
   * reliable message is delivered exactly once if and only if no message is over the decoder's limits.
   */
  lemma AllDelivered(book: seq<Sent>, cfg: Config, sets: seq<seq<Frame>>)
    requires WellBook(book) && AllInBook(book, sets) && AllArrived(book, sets)
    ensures Accounted(book, cfg, sets)
  {
    hide WellBook;
    hide AllInBook;
    hide AllArrived;
    hide Room;
    hide Remembered;
    hide Delivered;
    hide Deliverable;
    if cfg.limits.limitParted > 0 {
      forall m: nat | m < |book| && book[m].reliability.IsReliable()
        ensures Occurrences(book, Delivered(cfg, sets), m)
                == if Deliverable(book, cfg.maxChannels, Remembered(book, cfg, sets), m) then 1 else 0
      {
        ExactlyOnce(book, cfg, sets, m);
      }
      if Room(book, cfg, sets) {
        RoomRemembers(book, cfg, sets);
        LimitsDecide(book, cfg, sets);
      }
    }
  }

  lemma LimitsDecide(book: seq<Sent>, cfg: Config, sets: seq<seq<Frame>>)
    requires WellBook(book) && AllInBook(book, sets) && AllArrived(book, sets) && DeliveredExactly(book, cfg, sets)
    requires Remembered(book, cfg, sets) == Got(cfg, sets)
    ensures EachOnce(book, cfg, sets) <==> WithinLimits(book, cfg)
  {
    hide WellBook;
    hide AllInBook;
    hide AllArrived;
    hide Remembered;
    hide Got;
    hide Delivered;
    hide Done;
    if WithinLimits(book, cfg) {
      forall m: nat | m < |book| && book[m].reliability.IsReliable()
        ensures Occurrences(book, Delivered(cfg, sets), m) == 1
      {
        FitsDeliverable(book, cfg, sets, m);
      }
    }
    if EachOnce(book, cfg, sets) {
      forall m: nat | m < |book|
        ensures book[m].id.Some? && cfg.limits.limitSize != 0 ==> |book[m].pieces| <= cfg.limits.limitSize
        ensures book[m].ordered.Some? ==> book[m].ordered.value.channel < cfg.maxChannels
      {
        EntryIsWell(book, m);
        if book[m].id.Some? && cfg.limits.limitSize != 0 && |book[m].pieces| > cfg.limits.limitSize {
          OversizeNeverDone(book, cfg, sets, m);
        }
      }
    }
  }

  /** Frames owed for indices are whole messages. */
  lemma OwedWhole(book: seq<Sent>, out: seq<Frame>, c: nat, k: nat)
    requires OwedRun(book, out, c, k)
    ensures Whole(book, Streams.Oks(out))
  {
    forall i | 0 <= i < |out|
      ensures IsExpected(book, out[i])
    {
      assert OwedAt(book, out[i], c, k + i);
    }
  }

  lemma OrderStepWhole(book: seq<Sent>, chans: seq<Ordering.Chan>, item: Result<Frame>)
    requires WellBook(book) && Ordering.Settled(chans) && ChansSafe(book, chans)
             && (item.Ok? ==> IsExpected(book, item.value))
    ensures Whole(book, Ordering.Step(chans, item).0)
  {
    hide WellBook;
    hide OrderedData;
    if item.Ok? && item.value.ordered.Some? && item.value.ordered.value.channel < |chans|
       && chans[item.value.ordered.value.channel].read <= item.value.ordered.value.frameIndex {
      var f := item.value;
      var c, k := f.ordered.value.channel, f.ordered.value.frameIndex;
      var m: nat :| m < |book| && book[m].Well() && f == book[m].Expected();
      assert OwedAt(book, f, c, k);
      hide OwedAt;
      hide IsExpected;
      hide Ordering.Drain;
      var filed := Ordering.Chan(chans[c].pending[k := f], chans[c].read);
      assert ChanSafe(book, c, chans[c]) && ChanSafe(book, c, filed);
      Ordering.FiledStep(chans, f, c, k);
      DrainSafe(book, c, filed);
      OwedWhole(book, Ordering.Drain(filed).0, c, filed.read);
    }
  }

  lemma {:induction false} OrderRunWhole(book: seq<Sent>, chans: seq<Ordering.Chan>, items: seq<Result<Frame>>)
    requires WellBook(book) && Ordering.Settled(chans) && ChansSafe(book, chans) && Whole(book, items)
    ensures Whole(book, Streams.Run(Ordering.Step, chans, items).0)
    decreases |items|
  {
    hide WellBook;
    hide ChansSafe;
    hide Ordering.Step;
    hide Ordering.Settled;
    hide IsExpected;
    if items != [] {
      OrderStepSafe(book, chans, items[0]);
      OrderStepWhole(book, chans, items[0]);
      OrderRunWhole(book, Ordering.Step(chans, items[0]).1, items[1..]);
    }
  }

  /** Whatever is delivered is a whole message that was sent. */
  lemma DeliveredWhole(book: seq<Sent>, cfg: Config, sets: seq<seq<Frame>>)
    requires WellBook(book) && AllInBook(book, sets)
    ensures Whole(book, Delivered(cfg, sets))
  {
    hide WellBook;
    hide AllInBook;
    hide Ordering.Step;
    FrontSafe(book, cfg.limits, {}, Defragment.Parts(map[], []), sets);
    LayersCompose(cfg, sets);
    OrderRunWhole(book, EmptyChannels(cfg.maxChannels), Items(cfg, sets));
  }
}
