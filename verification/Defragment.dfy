/** Reassembly of split messages: parts gathered per parted id in a least-recently-used cache of heaps. */
module Defragment {
  import opened Types
  import Streams

  datatype Limits = Limits(limitSize: nat, limitParted: nat)

  function PartIndex(f: Frame): nat {
    if f.fragment.Some? then f.fragment.value.partedIndex else 0
  }

  /** A heap of parts is represented by its contents in the order it yields them. */
  function Push(heap: seq<Frame>, f: Frame): (r: seq<Frame>)
    ensures |r| == |heap| + 1
  {
    if heap == [] || PartIndex(f) < PartIndex(heap[0]) then [f] + heap else [heap[0]] + Push(heap[1..], f)
  }

  function Without(s: seq<nat>, id: nat): (r: seq<nat>) {
    if s == [] then [] else (if s[0] == id then [] else [s[0]]) + Without(s[1..], id)
  }

  /** The cache: a heap for each live parted id, and the ids from least to most recently used. */
  datatype Parts = Parts(heaps: map<nat, seq<Frame>>, recency: seq<nat>)
  {
    /** `get_or_insert_mut`: makes `id` the most recent entry, evicting the oldest if a full cache must grow. */
    function Touch(id: nat, limit: nat): (p: Parts)
      ensures id in p.heaps
    {
      if id in heaps then Parts(heaps, Without(recency, id) + [id])
      else if recency != [] && |recency| >= limit then Parts((heaps - {recency[0]})[id := []], recency[1..] + [id])
      else Parts(heaps[id := []], recency + [id])
    }

    function Store(id: nat, heap: seq<Frame>): Parts {
      Parts(heaps[id := heap], recency)
    }

    function Pop(id: nat): Parts {
      Parts(heaps - {id}, Without(recency, id))
    }

    /** Each live id is listed once, and no more ids are live than the cache may hold. */
    ghost predicate Valid(limit: nat) {
      && (forall i, j :: 0 <= i < j < |recency| ==> recency[i] != recency[j])
      && (forall id :: id in heaps <==> id in recency)
      && |recency| <= limit
    }
  }

  lemma {:induction false} WithoutMembers(s: seq<nat>, id: nat)
    ensures forall x :: x in Without(s, id) <==> x in s && x != id
    ensures |Without(s, id)| <= |s|
    ensures id in s ==> |Without(s, id)| < |s|
  {
    if s != [] {
      WithoutMembers(s[1..], id);
      assert forall x :: x in s <==> x == s[0] || x in s[1..];
    }
  }

  lemma {:induction false} WithoutFacts(s: seq<nat>, id: nat)
    ensures forall x :: x in Without(s, id) <==> x in s && x != id
    ensures |Without(s, id)| <= |s|
    ensures id in s ==> |Without(s, id)| < |s|
    ensures (forall i, j :: 0 <= i < j < |s| ==> s[i] != s[j]) ==>
              forall i, j :: 0 <= i < j < |Without(s, id)| ==> Without(s, id)[i] != Without(s, id)[j]
  {
    WithoutMembers(s, id);
    if s != [] {
      WithoutFacts(s[1..], id);
      var rest := Without(s[1..], id);
      var whole := Without(s, id);
      assert s[0] != id ==> whole == [s[0]] + rest;
      assert s[0] == id ==> whole == rest;
      if forall i, j :: 0 <= i < j < |s| ==> s[i] != s[j] {
        assert forall i, j :: 0 <= i < j < |s[1..]| ==> s[1..][i] != s[1..][j];
        assert s[0] !in rest;
        forall i, j | 0 <= i < j < |whole|
          ensures whole[i] != whole[j]
        {
          if s[0] != id {
            assert whole[j] == rest[j - 1];
            assert i > 0 ==> whole[i] == rest[i - 1];
          }
        }
      }
    }
  }

  /** The cache never holds more ids than its capacity, whatever the parts are. */
  lemma CacheStaysBounded(p: Parts, id: nat, limit: nat, heap: seq<Frame>)
    requires p.Valid(limit) && limit > 0
    ensures p.Touch(id, limit).Valid(limit)
    ensures p.Touch(id, limit).Store(id, heap).Valid(limit)
    ensures p.Pop(id).Valid(limit)
  {
    WithoutFacts(p.recency, id);
    var t := p.Touch(id, limit);
    if id !in p.heaps && p.recency != [] && |p.recency| >= limit {
      assert forall x :: x in p.recency <==> x == p.recency[0] || x in p.recency[1..];
      assert p.recency[0] !in p.recency[1..];
    }
  }

  function Bodies(heap: seq<Frame>): (b: seq<Byte>) {
    if heap == [] then [] else heap[0].body + Bodies(heap[1..])
  }

  /** `PARTED_FLAG.reverse_bits()` keeps bit 3 of the raw flags only. */
  function Reassembled(f: Frame): Frame {
    if !f.flags.parted then f
    else f.(flags := Flags(if f.flags.raw / 8 % 2 == 1 then 8 else 0, f.flags.reliability, false), fragment := None)
  }

  /** The first part, carrying the bodies of all parts in order. */
  function Merge(heap: seq<Frame>): Frame
    requires heap != []
  {
    Reassembled(heap[0].(body := Bodies(heap)))
  }

  datatype Outcome = Held | Emitted(frame: Frame) | Failed

  /** One frame through the layer. */
  function Step(lim: Limits, parts: Parts, f: Frame): (r: (Parts, Outcome)) {
    match f.fragment
    case None => (parts, Emitted(f))
    case Some(fragment) =>
      if fragment.partedIndex >= fragment.partedSize then (parts, Failed)
      else if lim.limitSize != 0 && fragment.partedSize > lim.limitSize then (parts, Failed)
      else
        var touched := parts.Touch(fragment.partedId, lim.limitParted);
        var heap := Push(touched.heaps[fragment.partedId], f);
        if |heap| < fragment.partedSize then (touched.Store(fragment.partedId, heap), Held)
        else (touched.Pop(fragment.partedId), Emitted(Merge(heap)))
  }

  /** The layer refuses this frame, whatever its cache holds. */
  predicate Rejected(lim: Limits, f: Frame) {
    && f.fragment.Some?
    && (f.fragment.value.partedIndex >= f.fragment.value.partedSize
        || (lim.limitSize != 0 && f.fragment.value.partedSize > lim.limitSize))
  }

  /** The frames of a set that are looked at before one is refused. */
  function Cut(lim: Limits, frames: seq<Frame>): (r: seq<Frame>)
    ensures r <= frames
  {
    if frames == [] || Rejected(lim, frames[0]) then [] else [frames[0]] + Cut(lim, frames[1..])
  }

  /** The frames one set adds to the buffer, whether it was cut short by an error, and the cache left behind. */
  datatype SetResult = SetResult(frames: seq<Frame>, failed: bool, parts: Parts)

  function RunSet(lim: Limits, parts: Parts, frames: seq<Frame>): (r: SetResult)
    decreases |frames|
  {
    if frames == [] then SetResult([], false, parts)
    else
      var (parts', outcome) := Step(lim, parts, frames[0]);
      match outcome
      case Failed => SetResult([], true, parts')
      case Held => RunSet(lim, parts', frames[1..])
      case Emitted(f) =>
        var rest := RunSet(lim, parts', frames[1..]);
        SetResult([f] + rest.frames, rest.failed, rest.parts)
  }

  /** A set fails exactly when one of its frames is refused, and leaves what the frames before that one leave. */
  lemma {:induction false} RunSetCut(lim: Limits, parts: Parts, frames: seq<Frame>)
    ensures var r, cut := RunSet(lim, parts, frames), RunSet(lim, parts, Cut(lim, frames));
            && (r.failed <==> Cut(lim, frames) != frames)
            && !cut.failed && r.frames == cut.frames && r.parts == cut.parts
    decreases |frames|
  {
    hide Merge;
    hide Push;
    if frames != [] && !Rejected(lim, frames[0]) {
      var cut := Cut(lim, frames);
      assert cut[1..] == Cut(lim, frames[1..]);
      assert cut == frames <==> cut[1..] == frames[1..];
      RunSetCut(lim, Step(lim, parts, frames[0]).0, frames[1..]);
    }
  }

  /** One set through the layer; an error surfaces before the frames the set had already buffered. */
  function SetStep(lim: Limits): (Parts, seq<Frame>) -> (seq<Result<Frame>>, Parts) {
    (parts: Parts, frames: seq<Frame>) =>
      var r := RunSet(lim, parts, frames);
      ((if r.failed then [Err(PartedFrame)] else []) + Streams.Oks(r.frames), r.parts)
  }

  lemma NextSet(lim: Limits, parts: Parts, frames: seq<Frame>, sets: seq<seq<Frame>>)
    ensures var r, whole := RunSet(lim, parts, frames), Streams.Run(SetStep(lim), parts, [frames] + sets);
            var rest := Streams.Run(SetStep(lim), r.parts, sets);
            && whole.0 == (if r.failed then [Err(PartedFrame)] else []) + (Streams.Oks(r.frames) + rest.0)
            && whole.1 == rest.1
  {
    hide RunSet;
    hide Streams.Oks;
    assert ([frames] + sets)[1..] == sets;
    var r := RunSet(lim, parts, frames);
    var rest := Streams.Run(SetStep(lim), r.parts, sets);
    var first := if r.failed then [Err(PartedFrame)] else [];
    assert SetStep(lim)(parts, frames) == (first + Streams.Oks(r.frames), r.parts);
    assert first + (Streams.Oks(r.frames) + rest.0) == first + Streams.Oks(r.frames) + rest.0;
  }

  lemma RunNothing(lim: Limits, parts: Parts)
    ensures Streams.Run(SetStep(lim), parts, []) == ([], parts)
  {
  }

  class DeFragment {
    const frame: Streams.Source<seq<Frame>>
    const limits: Limits
    var parts: Parts
    var buffer: seq<Frame>

    /** What polling until the input runs dry would yield, and the cache left by then. */
    ghost function Remaining(): (r: (seq<Result<Frame>>, Parts))
      reads this, frame
    {
      var rest := Streams.Run(SetStep(limits), parts, frame.queue);
      (Streams.Oks(buffer) + rest.0, rest.1)
    }

    constructor (inner: Streams.Source<seq<Frame>>, lim: Limits)
      requires lim.limitParted > 0
      ensures frame == inner && limits == lim
      ensures parts == Parts(map[], []) && buffer == []
    {
      frame := inner;
      limits := lim;
      parts := Parts(map[], []);
      buffer := [];
    }

    /** Concatenate the bodies of a complete heap onto its first part. */
    method MergeParts(heap: seq<Frame>) returns (merged: Frame)
      requires heap != []
      ensures merged == Merge(heap)
    {
      var body := heap[0].body;
      assert heap == [heap[0]] + heap[1..];
      for i := 1 to |heap|
        invariant body + Bodies(heap[i..]) == Bodies(heap)
      {
        assert heap[i..][1..] == heap[i + 1..];
        body := body + heap[i].body;
      }
      assert body + Bodies(heap[|heap|..]) == body;
      merged := Reassembled(heap[0].(body := body));
    }

    /** One frame of a set: checked, filed under its parted id, merged once its heap is complete. */
    method ProcessFrame(f: Frame) returns (outcome: Outcome)
      modifies this`parts
      ensures (parts, outcome) == Step(limits, old(parts), f)
    {
      if f.fragment.None? {
        return Emitted(f);
      }
      var fragment := f.fragment.value;
      if fragment.partedIndex >= fragment.partedSize {
        return Failed;
      }
      if limits.limitSize != 0 && fragment.partedSize > limits.limitSize {
        return Failed;
      }
      parts := parts.Touch(fragment.partedId, limits.limitParted);
      var heap := Push(parts.heaps[fragment.partedId], f);
      if |heap| < fragment.partedSize {
        parts := parts.Store(fragment.partedId, heap);
        return Held;
      }
      parts := parts.Pop(fragment.partedId);
      var merged := MergeParts(heap);
      return Emitted(merged);
    }

    /** The loop over the frames of one set. */
    method ProcessSet(frames: seq<Frame>) returns (failed: bool)
      modifies this
      ensures var r := RunSet(limits, old(parts), frames);
              parts == r.parts && failed == r.failed && buffer == old(buffer) + r.frames
    {
      assert frames[0..] == frames;
      ghost var whole := RunSet(limits, old(parts), frames);
      for i := 0 to |frames|
        invariant RunSet(limits, parts, frames[i..]).parts == whole.parts
        invariant RunSet(limits, parts, frames[i..]).failed == whole.failed
        invariant buffer + RunSet(limits, parts, frames[i..]).frames == old(buffer) + whole.frames
      {
        assert frames[i..][1..] == frames[i + 1..];
        var outcome := ProcessFrame(frames[i]);
        match outcome
        case Held =>
        case Failed =>
          return true;
        case Emitted(f) =>
          buffer := buffer + [f];
      }
      failed := false;
    }

    /** Take one set from the input and process it; the answer says whether an error cut it short. */
    method Refill() returns (r: Poll<bool>)
      requires buffer == []
      modifies this, frame`queue
      ensures Remaining().1 == old(Remaining()).1
      ensures match r
              case Item(failed) =>
                && old(Remaining()).0 == (if failed then [Err(PartedFrame)] else []) + Remaining().0
                && |frame.queue| < |old(frame.queue)|
              case Finished => old(Remaining()).0 == [] && buffer == [] && frame.queue == [] && frame.closed
              case Pending => old(Remaining()).0 == [] && buffer == [] && frame.queue == [] && !frame.closed
    {
      hide RunSet;
      hide Streams.Run;
      assert Remaining().0 == Streams.Run(SetStep(limits), parts, frame.queue).0;
      RunNothing(limits, parts);
      var next := frame.PollNext();
      match next
      case Finished => return Finished;
      case Pending => return Pending;
      case Item(frames) =>
        NextSet(limits, parts, frames, frame.queue);
        var failed := ProcessSet(frames);
        return Item(failed);
    }

    method PollNext() returns (r: Poll<Result<Frame>>)
      modifies this, frame`queue
      ensures Remaining().1 == old(Remaining()).1
      ensures match r
              case Item(item) => old(Remaining()).0 == [item] + Remaining().0
              case Finished => old(Remaining()).0 == [] && buffer == [] && frame.queue == [] && frame.closed
              case Pending => old(Remaining()).0 == [] && buffer == [] && frame.queue == [] && !frame.closed
    {
      hide RunSet;
      hide Streams.Run;
      while true
        invariant Remaining().0 == old(Remaining()).0 && Remaining().1 == old(Remaining()).1
        decreases |frame.queue|
      {
        if buffer != [] {
          var first := buffer[0];
          assert Streams.Oks(buffer) == [Ok(first)] + Streams.Oks(buffer[1..]);
          buffer := buffer[1..];
          return Item(Ok(first));
        }
        var next := Refill();
        match next
        case Finished => return Finished;
        case Pending => return Pending;
        case Item(failed) =>
          if failed {
            return Item(Err(PartedFrame));
          }
      }
    }
  }
}
