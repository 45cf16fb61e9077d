/**
 * What deduplication and defragmentation do to frames of a known history, whatever the order,
 * repetition or loss with which they arrive.
 */
module Reassembly {
  import opened Types
  import opened Book
  import Dedup
  import Defragment
  import Encoder

  /** The reliable indices carried by a run of frames, added to those known before. */
  function NoteAll(seen: set<nat>, frames: seq<Frame>): (r: set<nat>)
    ensures seen <= r
    decreases |frames|
  {
    if frames == [] then seen else NoteAll(Dedup.Note(seen, frames[0]), frames[1..])
  }

  /** No reliable index repeats, within the frames or from those known before. */
  predicate Fresh(seen: set<nat>, frames: seq<Frame>)
    decreases |frames|
  {
    frames == [] || (!Dedup.Repeated(seen, frames[0]) && Fresh(Dedup.Note(seen, frames[0]), frames[1..]))
  }

  /** Deduplication lets through a fresh selection of the input that carries all of its indices. */
  lemma {:induction false} KeepIsFresh(seen: set<nat>, frames: seq<Frame>)
    ensures var (kept, seen') := Dedup.Keep(seen, frames);
            && Fresh(seen, kept)
            && seen' == NoteAll(seen, frames) == NoteAll(seen, kept)
            && forall f :: f in kept ==> f in frames
    decreases |frames|
  {
    if frames != [] {
      if Dedup.Repeated(seen, frames[0]) {
        KeepIsFresh(seen, frames[1..]);
        assert Dedup.Note(seen, frames[0]) == seen;
      } else {
        KeepIsFresh(Dedup.Note(seen, frames[0]), frames[1..]);
        var kept := Dedup.Keep(seen, frames).0;
        assert kept[1..] == Dedup.Keep(Dedup.Note(seen, frames[0]), frames[1..]).0;
      }
    }
  }

  /** The reliable index of frame `j` of a reliable message. */
  function Index(e: Sent, j: nat): nat {
    e.base + j
  }

  ghost predicate Increasing(heap: seq<Frame>) {
    forall i, k :: 0 <= i < k < |heap| ==> Defragment.PartIndex(heap[i]) < Defragment.PartIndex(heap[k])
  }

  /** Parts of one message, by strictly increasing index, all of them already noted. */
  ghost predicate HeapOf(e: Sent, heap: seq<Frame>, seen: set<nat>) {
    && e.Well() && e.id.Some?
    && Increasing(heap)
    && (forall i :: 0 <= i < |heap| ==>
          var j := Defragment.PartIndex(heap[i]);
          j < |e.pieces| && heap[i] == e.FrameAt(j) && Index(e, j) in seen)
  }

  lemma {:induction false} PushMembers(heap: seq<Frame>, f: Frame)
    ensures forall x :: x in Defragment.Push(heap, f) <==> x == f || x in heap
  {
    var r := Defragment.Push(heap, f);
    if heap == [] || Defragment.PartIndex(f) < Defragment.PartIndex(heap[0]) {
      assert r == [f] + heap;
    } else {
      PushMembers(heap[1..], f);
      assert r == [heap[0]] + Defragment.Push(heap[1..], f);
      assert heap == [heap[0]] + heap[1..];
    }
  }

  lemma {:induction false} PushIncreasing(heap: seq<Frame>, f: Frame)
    requires Increasing(heap)
    requires forall x :: x in heap ==> Defragment.PartIndex(x) != Defragment.PartIndex(f)
    ensures Increasing(Defragment.Push(heap, f))
  {
    var r := Defragment.Push(heap, f);
    if heap == [] || Defragment.PartIndex(f) < Defragment.PartIndex(heap[0]) {
      assert r == [f] + heap;
    } else {
      PushIncreasing(heap[1..], f);
      PushMembers(heap[1..], f);
      var rest := Defragment.Push(heap[1..], f);
      assert r == [heap[0]] + rest;
      forall k | 0 < k < |r|
        ensures Defragment.PartIndex(heap[0]) < Defragment.PartIndex(r[k])
      {
        assert r[k] == rest[k - 1] && rest[k - 1] in rest;
      }
    }
  }

  /** As many parts as the message has: every index occurs, in order. */
  lemma {:induction false} FullHeap(e: Sent, heap: seq<Frame>, seen: set<nat>, i: nat)
    requires HeapOf(e, heap, seen) && |heap| == |e.pieces| && i < |heap|
    ensures Defragment.PartIndex(heap[i]) == i
  {
    AtLeast(e, heap, seen, i);
    AtMost(e, heap, seen, i);
  }

  lemma {:induction false} AtLeast(e: Sent, heap: seq<Frame>, seen: set<nat>, i: nat)
    requires HeapOf(e, heap, seen) && i < |heap|
    ensures Defragment.PartIndex(heap[i]) >= i
  {
    if i > 0 {
      AtLeast(e, heap, seen, i - 1);
    }
  }

  lemma {:induction false} AtMost(e: Sent, heap: seq<Frame>, seen: set<nat>, i: nat)
    requires HeapOf(e, heap, seen) && i < |heap|
    ensures Defragment.PartIndex(heap[i]) + |heap| - i <= |e.pieces|
    decreases |heap| - i
  {
    if i + 1 < |heap| {
      AtMost(e, heap, seen, i + 1);
    }
  }

  lemma {:induction false} BodiesConcat(heap: seq<Frame>, pieces: seq<seq<Byte>>)
    requires |heap| == |pieces| && forall i :: 0 <= i < |heap| ==> heap[i].body == pieces[i]
    ensures Defragment.Bodies(heap) == Encoder.Concat(pieces)
  {
    if heap != [] {
      BodiesConcat(heap[1..], pieces[1..]);
    }
  }

  /** Merging a full heap gives back the message. */
  lemma MergeFull(e: Sent, heap: seq<Frame>, seen: set<nat>)
    requires HeapOf(e, heap, seen) && |heap| == |e.pieces|
    ensures Defragment.Merge(heap) == e.Expected()
  {
    forall i | 0 <= i < |heap|
      ensures heap[i].body == e.pieces[i] && Defragment.PartIndex(heap[i]) == i
    {
      FullHeap(e, heap, seen, i);
    }
    BodiesConcat(heap, e.pieces);
    assert heap[0] == e.FrameAt(0);
  }

  /** Message `m` owns the heap filed under `p`, and the heap is not complete. */
  ghost predicate Owns(book: seq<Sent>, seen: set<nat>, heap: seq<Frame>, p: nat, m: nat) {
    && m < |book| && book[m].id == Some(p) && HeapOf(book[m], heap, seen) && |heap| < |book[m].pieces|
  }

  ghost predicate SafeParts(book: seq<Sent>, seen: set<nat>, parts: Defragment.Parts) {
    forall p :: p in parts.heaps ==> exists m: nat :: Owns(book, seen, parts.heaps[p], p, m)
  }

  lemma SafePartsGrow(book: seq<Sent>, seen: set<nat>, seen': set<nat>, parts: Defragment.Parts)
    requires SafeParts(book, seen, parts) && seen <= seen'
    ensures SafeParts(book, seen', parts)
  {
    forall p | p in parts.heaps
      ensures exists m: nat :: Owns(book, seen', parts.heaps[p], p, m)
    {
      var m: nat :| Owns(book, seen, parts.heaps[p], p, m);
      assert Owns(book, seen', parts.heaps[p], p, m);
    }
  }

  /** Adding a fresh part to the heap of its message. */
  lemma PushOwned(e: Sent, heap: seq<Frame>, seen: set<nat>, j: nat)
    requires HeapOf(e, heap, seen) && j < |e.pieces| && Index(e, j) !in seen
    ensures HeapOf(e, Defragment.Push(heap, e.FrameAt(j)), seen + {Index(e, j)})
  {
    var f := e.FrameAt(j);
    assert Defragment.PartIndex(f) == j;
    PushMembers(heap, f);
    PushIncreasing(heap, f);
    var r := Defragment.Push(heap, f);
    forall i | 0 <= i < |r|
      ensures var j' := Defragment.PartIndex(r[i]);
              j' < |e.pieces| && r[i] == e.FrameAt(j') && Index(e, j') in seen + {Index(e, j)}
    {
      assert r[i] in r;
    }
  }

  /** The heap a fresh part of message `m` is pushed onto, whatever the cache evicted before. */
  lemma TouchedHeap(book: seq<Sent>, lim: Defragment.Limits, seen: set<nat>, parts: Defragment.Parts, m: nat, p: nat)
    requires WellBook(book) && SafeParts(book, seen, parts) && m < |book| && book[m].id == Some(p)
    ensures HeapOf(book[m], parts.Touch(p, lim.limitParted).heaps[p], seen)
    ensures p in parts.heaps ==> Owns(book, seen, parts.heaps[p], p, m)
  {
    if p in parts.heaps {
      var n: nat :| Owns(book, seen, parts.heaps[p], p, n);
      if n != m {
        DistinctEntries(book, n, m);
      }
    }
  }

  lemma DistinctEntries(book: seq<Sent>, m: nat, n: nat)
    requires WellBook(book) && m < |book| && n < |book| && m != n
    ensures book[m].id.Some? && book[n].id.Some? ==> book[m].id != book[n].id
    ensures book[m].reliability.IsReliable() && book[n].reliability.IsReliable() ==>
              forall i: nat, j: nat :: i < |book[m].pieces| && j < |book[n].pieces| ==>
                    Index(book[m], i) != Index(book[n], j)
  {
    if m < n {
      assert Disjoint(book[m], book[n]);
    } else {
      assert Disjoint(book[n], book[m]);
    }
  }

  /** One fresh frame: the cache stays safe, and only whole messages come out. */
  lemma StepSafe(book: seq<Sent>, lim: Defragment.Limits, seen: set<nat>, parts: Defragment.Parts, f: Frame, m: nat,
                 j: nat)
    requires WellBook(book) && SafeParts(book, seen, parts) && IsFrame(book, f, m, j)
    requires !Dedup.Repeated(seen, f)
    ensures var (parts', outcome) := Defragment.Step(lim, parts, f);
            && SafeParts(book, Dedup.Note(seen, f), parts')
            && (outcome.Emitted? ==> outcome.frame == book[m].Expected())
  {
    SafePartsGrow(book, seen, Dedup.Note(seen, f), parts);
    if book[m].id.Some? {
      SplitSafe(book, lim, seen, parts, f, m, j);
    }
  }

  /** A fresh part of a split message: held in the heap of its message, or the last one that completes it. */
  lemma SplitSafe(book: seq<Sent>, lim: Defragment.Limits, seen: set<nat>, parts: Defragment.Parts, f: Frame, m: nat,
                  j: nat)
    requires WellBook(book) && SafeParts(book, seen, parts) && IsFrame(book, f, m, j) && book[m].id.Some?
    requires !Dedup.Repeated(seen, f)
    ensures var (parts', outcome) := Defragment.Step(lim, parts, f);
            && SafeParts(book, Dedup.Note(seen, f), parts')
            && (outcome.Emitted? ==> outcome.frame == book[m].Expected())
  {
    var e, p := book[m], book[m].id.value;
    var seen' := seen + {Index(e, j)};
    var touched := parts.Touch(p, lim.limitParted);
    TouchedHeap(book, lim, seen, parts, m, p);
    var heap := Defragment.Push(touched.heaps[p], f);
    PushOwned(e, touched.heaps[p], seen, j);
    HeapAtMost(e, heap, seen');
    hide HeapOf;
    SafePartsGrow(book, seen, seen', parts);
    if |heap| == |e.pieces| {
      MergeFull(e, heap, seen');
    } else {
      assert Owns(book, seen', heap, p, m);
    }
  }

  lemma HeapAtMost(e: Sent, heap: seq<Frame>, seen: set<nat>)
    requires HeapOf(e, heap, seen)
    ensures |heap| <= |e.pieces|
  {
    if |heap| > 0 {
      AtMost(e, heap, seen, 0);
    }
  }

  ghost predicate IsExpected(book: seq<Sent>, f: Frame) {
    exists m: nat :: m < |book| && book[m].Well() && f == book[m].Expected()
  }

  /** One deduplicated set: only whole messages come out, even when an error cuts the set short. */
  lemma {:induction false} RunSetSafe(book: seq<Sent>, lim: Defragment.Limits, seen: set<nat>, parts: Defragment.Parts,
                                      frames: seq<Frame>)
    requires WellBook(book) && SafeParts(book, seen, parts)
    requires Fresh(seen, frames) && forall f :: f in frames ==> InBook(book, f)
    ensures var r := Defragment.RunSet(lim, parts, frames);
            && SafeParts(book, NoteAll(seen, frames), r.parts)
            && forall f :: f in r.frames ==> IsExpected(book, f)
    decreases |frames|
  {
    if frames != [] {
      var f := frames[0];
      assert f in frames;
      var m: nat, j: nat :| IsFrame(book, f, m, j);
      StepSafe(book, lim, seen, parts, f, m, j);
      var (parts', outcome) := Defragment.Step(lim, parts, f);
      var seen' := Dedup.Note(seen, f);
      if outcome.Failed? {
        SafePartsGrow(book, seen', NoteAll(seen, frames), parts');
      } else {
        RunSetSafe(book, lim, seen', parts', frames[1..]);
        assert outcome.Emitted? ==> IsExpected(book, outcome.frame);
      }
    }
  }

  /** Every frame of the message has been noted. */
  ghost predicate All(e: Sent, seen: set<nat>) {
    forall j: nat :: j < |e.pieces| ==> Index(e, j) in seen
  }

  /** A reliable message all of whose frames have been noted. */
  ghost predicate Done(e: Sent, seen: set<nat>) {
    e.reliability.IsReliable() && All(e, seen)
  }

  /** A split message of which some frames, but not all, have been noted. */
  ghost predicate Live(e: Sent, seen: set<nat>) {
    e.id.Some? && !All(e, seen) && exists j: nat :: j < |e.pieces| && Index(e, j) in seen
  }

  ghost function LiveIds(book: seq<Sent>, seen: set<nat>): (ids: set<nat>) {
    set m: nat | m < |book| && Live(book[m], seen) :: book[m].id.value
  }

  /** At every point of the arrival, no more messages are partly noted than the cache can hold. */
  ghost predicate Roomy(book: seq<Sent>, limit: nat, seen: set<nat>, frames: seq<Frame>)
    decreases |frames|
  {
    && |LiveIds(book, seen)| <= limit
    && (frames != [] ==> Roomy(book, limit, Dedup.Note(seen, frames[0]), frames[1..]))
  }

  ghost predicate WithinSize(book: seq<Sent>, lim: Defragment.Limits) {
    lim.limitSize == 0 || forall m :: 0 <= m < |book| && book[m].id.Some? ==> |book[m].pieces| <= lim.limitSize
  }

  /** The cache holds exactly the noted parts of exactly the partly noted messages. */
  ghost predicate ExactParts(book: seq<Sent>, limit: nat, seen: set<nat>, parts: Defragment.Parts) {
    && SafeParts(book, seen, parts)
    && parts.Valid(limit)
    && parts.heaps.Keys == LiveIds(book, seen)
    && (forall m: nat, j: nat ::
          m < |book| && j < |book[m].pieces| && Live(book[m], seen) && Index(book[m], j) in seen ==>
            HoldsPart(book, parts, m, j))
  }

  ghost predicate HoldsPart(book: seq<Sent>, parts: Defragment.Parts, m: nat, j: nat) {
    && m < |book| && book[m].Well() && j < |book[m].pieces| && book[m].id.Some?
    && book[m].id.value in parts.heaps
    && book[m].FrameAt(j) in parts.heaps[book[m].id.value]
  }

  /** A heap in which every index occurs is as long as the message has parts. */
  lemma {:induction false} CoveredAt(e: Sent, heap: seq<Frame>, seen: set<nat>, i: nat)
    requires HeapOf(e, heap, seen) && i < |e.pieces|
    requires forall j: nat :: j < |e.pieces| ==> e.FrameAt(j) in heap
    ensures i < |heap| && Defragment.PartIndex(heap[i]) == i
  {
    var f := e.FrameAt(i);
    var q :| 0 <= q < |heap| && heap[q] == f;
    assert Defragment.PartIndex(f) == i;
    AtLeast(e, heap, seen, q);
    if q < i {
      CoveredAt(e, heap, seen, q);
    }
  }

  lemma NoDuplicatesCount(s: seq<nat>, t: set<nat>)
    requires forall i, j :: 0 <= i < j < |s| ==> s[i] != s[j]
    requires forall x :: x in s <==> x in t
    ensures |s| == |t|
  {
    if s == [] {
      assert t == {};
    } else {
      assert forall x :: x in s <==> x == s[0] || x in s[1..];
      assert s[0] !in s[1..];
      NoDuplicatesCount(s[1..], t - {s[0]});
    }
  }

  /** Noting one frame of a message changes nothing for the others. */
  lemma OthersUnchanged(book: seq<Sent>, seen: set<nat>, m: nat, j: nat, n: nat)
    requires WellBook(book) && m < |book| && n < |book| && m != n && j < |book[m].pieces|
    requires book[m].reliability.IsReliable() && book[n].reliability.IsReliable()
    ensures var seen' := seen + {Index(book[m], j)};
            && (forall i: nat :: i < |book[n].pieces| ==> (Index(book[n], i) in seen' <==> Index(book[n], i) in seen))
            && (All(book[n], seen') <==> All(book[n], seen))
            && (Live(book[n], seen') <==> Live(book[n], seen))
  {
    DistinctEntries(book, m, n);
    var seen' := seen + {Index(book[m], j)};
    assert forall i: nat :: i < |book[n].pieces| ==> (Index(book[n], i) in seen' <==> Index(book[n], i) in seen);
  }

  /** Which ids are live once frame `j` of split message `m` is noted. */
  lemma LiveAfter(book: seq<Sent>, seen: set<nat>, m: nat, j: nat)
    requires WellBook(book) && m < |book| && book[m].id.Some? && j < |book[m].pieces| && Index(book[m], j) !in seen
    ensures var seen', p := seen + {Index(book[m], j)}, book[m].id.value;
            LiveIds(book, seen') == if All(book[m], seen') then LiveIds(book, seen) - {p} else LiveIds(book, seen) + {p}
  {
    var e, seen' := book[m], seen + {Index(book[m], j)};
    var p := e.id.value;
    assert Index(e, j) in seen' && (Live(e, seen') <==> !All(e, seen'));
    forall n: nat | n < |book| && n != m && book[n].id.Some?
      ensures Live(book[n], seen') <==> Live(book[n], seen)
      ensures book[n].id.value != p
    {
      assert book[n].Well() && e.Well();
      OthersUnchanged(book, seen, m, j, n);
      DistinctEntries(book, m, n);
    }
    forall q
      ensures q in LiveIds(book, seen') <==> (if q == p then !All(e, seen') else q in LiveIds(book, seen))
    {
      if q == p {
        if q in LiveIds(book, seen') {
          var n: nat :| n < |book| && Live(book[n], seen') && book[n].id.value == q;
          assert n == m;
        }
      } else {
        if q in LiveIds(book, seen') {
          var n: nat :| n < |book| && Live(book[n], seen') && book[n].id.value == q;
          assert Live(book[n], seen);
        }
        if q in LiveIds(book, seen) {
          var n: nat :| n < |book| && Live(book[n], seen) && book[n].id.value == q;
          assert Live(book[n], seen');
        }
      }
    }
  }

  /** A message is live exactly under its own id. */
  lemma LiveById(book: seq<Sent>, seen: set<nat>, m: nat)
    requires WellBook(book) && m < |book| && book[m].id.Some?
    ensures book[m].id.value in LiveIds(book, seen) <==> Live(book[m], seen)
  {
    if book[m].id.value in LiveIds(book, seen) {
      var n: nat :| n < |book| && Live(book[n], seen) && book[n].id.value == book[m].id.value;
      if n != m {
        DistinctEntries(book, n, m);
      }
    }
  }

  /** With room for one more live message, the cache is not full when a new one starts. */
  lemma RoomForOne(book: seq<Sent>, limit: nat, seen: set<nat>, parts: Defragment.Parts, m: nat, j: nat)
    requires WellBook(book) && parts.Valid(limit) && parts.heaps.Keys == LiveIds(book, seen)
    requires m < |book| && book[m].id.Some? && j < |book[m].pieces| && Index(book[m], j) !in seen
    requires |LiveIds(book, seen + {Index(book[m], j)})| <= limit
    requires book[m].id.value !in parts.heaps
    ensures |parts.recency| < limit
  {
    var e, p := book[m], book[m].id.value;
    var seen' := seen + {Index(e, j)};
    LiveById(book, seen, m);
    assert !Live(e, seen) && !All(e, seen);
    assert e.Well() && |e.pieces| >= 2;
    var i: nat := if j == 0 then 1 else 0;
    assert Index(e, i) !in seen';
    LiveAfter(book, seen, m, j);
    assert LiveIds(book, seen') == LiveIds(book, seen) + {p};
    NoDuplicatesCount(parts.recency, LiveIds(book, seen));
  }

  /** The heap of a live message after a fresh part: exactly the noted parts, complete when all are noted. */
  lemma HeapAfter(book: seq<Sent>, limit: nat, seen: set<nat>, parts: Defragment.Parts, m: nat, j: nat,
                  heap: seq<Frame>)
    requires WellBook(book) && ExactParts(book, limit, seen, parts)
    requires m < |book| && book[m].id.Some? && j < |book[m].pieces| && Index(book[m], j) !in seen
    requires heap == if book[m].id.value in parts.heaps then parts.heaps[book[m].id.value] else []
    ensures var e, heap' := book[m], Defragment.Push(heap, book[m].FrameAt(j));
            var seen' := seen + {Index(e, j)};
            && HeapOf(e, heap', seen')
            && (forall i: nat :: i < |e.pieces| && Index(e, i) in seen' ==> e.FrameAt(i) in heap')
            && (|heap'| >= |e.pieces| <==> All(e, seen'))
  {
    var e, p := book[m], book[m].id.value;
    var seen' := seen + {Index(e, j)};
    var heap' := Defragment.Push(heap, e.FrameAt(j));
    assert !All(e, seen);
    LiveById(book, seen, m);
    if p in parts.heaps {
      TouchedHeap(book, Defragment.Limits(0, limit), seen, parts, m, p);
    }
    assert HeapOf(e, heap, seen);
    PushOwned(e, heap, seen, j);
    PushMembers(heap, e.FrameAt(j));
    forall i: nat | i < |e.pieces| && Index(e, i) in seen'
      ensures e.FrameAt(i) in heap'
    {
      if i != j {
        assert Index(e, i) in seen;
        assert Live(e, seen);
        assert HoldsPart(book, parts, m, i);
      }
    }
    HeapAtMost(e, heap', seen');
    if All(e, seen') {
      CoveredAt(e, heap', seen', |e.pieces| - 1);
    }
    if |heap'| == |e.pieces| {
      forall i: nat | i < |e.pieces|
        ensures Index(e, i) in seen'
      {
        FullHeap(e, heap', seen', i);
      }
    }
  }

  /** Storing or removing the heap of message `m` leaves exactly what the noted indices call for. */
  lemma ExactAfter(book: seq<Sent>, limit: nat, seen: set<nat>, parts: Defragment.Parts, m: nat, j: nat,
                   parts': Defragment.Parts, heap: seq<Frame>)
    requires WellBook(book) && ExactParts(book, limit, seen, parts)
    requires m < |book| && book[m].id.Some? && j < |book[m].pieces| && Index(book[m], j) !in seen
    requires parts'.Valid(limit) && SafeParts(book, seen + {Index(book[m], j)}, parts')
    requires var e, seen', p := book[m], seen + {Index(book[m], j)}, book[m].id.value;
             && (forall i: nat :: i < |e.pieces| && Index(e, i) in seen' ==> e.FrameAt(i) in heap)
             && parts'.heaps == if All(e, seen') then parts.heaps - {p} else parts.heaps[p := heap]
    ensures ExactParts(book, limit, seen + {Index(book[m], j)}, parts')
  {
    var e, seen', p := book[m], seen + {Index(book[m], j)}, book[m].id.value;
    LiveAfter(book, seen, m, j);
    assert parts'.heaps.Keys == LiveIds(book, seen');
    forall n: nat, i: nat | n < |book| && i < |book[n].pieces| && Live(book[n], seen') && Index(book[n], i) in seen'
      ensures HoldsPart(book, parts', n, i)
    {
      assert book[n].Well();
      if n != m {
        OthersUnchanged(book, seen, m, j, n);
        DistinctEntries(book, m, n);
        assert HoldsPart(book, parts, n, i);
      }
    }
  }

  /** A part that passes the checks and finds room in the cache, whatever history it belongs to. */
  lemma SplitStep(lim: Defragment.Limits, parts: Defragment.Parts, f: Frame, fragment: Fragment, heap: seq<Frame>)
    requires f.fragment == Some(fragment) && fragment.partedIndex < fragment.partedSize
    requires lim.limitSize == 0 || fragment.partedSize <= lim.limitSize
    requires parts.Valid(lim.limitParted) && lim.limitParted > 0
    requires fragment.partedId in parts.heaps || |parts.recency| < lim.limitParted
    requires heap == Defragment.Push(if fragment.partedId in parts.heaps then parts.heaps[fragment.partedId] else [], f)
    ensures var (parts', outcome) := Defragment.Step(lim, parts, f);
            && parts'.Valid(lim.limitParted)
            && parts'.heaps == (if |heap| < fragment.partedSize then parts.heaps[fragment.partedId := heap]
                                else parts.heaps - {fragment.partedId})
            && outcome == if |heap| < fragment.partedSize then Defragment.Held
                          else Defragment.Emitted(Defragment.Merge(heap))
  {
    hide Defragment.Merge;
    hide Defragment.Push;
    hide Defragment.Without;
    var p := fragment.partedId;
    var before := if p in parts.heaps then parts.heaps[p] else [];
    var touched := parts.Touch(p, lim.limitParted);
    assert touched.heaps == parts.heaps[p := before] by {
      assert parts.recency != [] && |parts.recency| >= lim.limitParted ==> p in parts.heaps;
    }
    assert touched.Valid(lim.limitParted) && touched.Store(p, heap).Valid(lim.limitParted)
           && touched.Pop(p).Valid(lim.limitParted) by {
      Defragment.CacheStaysBounded(parts, p, lim.limitParted, heap);
      Defragment.CacheStaysBounded(touched, p, lim.limitParted, heap);
    }
    assert Defragment.Step(lim, parts, f).0 == if |heap| < fragment.partedSize then touched.Store(p, heap)
                                               else touched.Pop(p);
  }

  /**
   * One fresh frame that is not refused, when there is room: nothing is evicted, and the message comes
   * out exactly when its last missing frame goes in.
   */
  lemma StepExact(book: seq<Sent>, lim: Defragment.Limits, seen: set<nat>, parts: Defragment.Parts, f: Frame, m: nat,
                  j: nat)
    requires WellBook(book) && ExactParts(book, lim.limitParted, seen, parts) && lim.limitParted > 0
    requires IsFrame(book, f, m, j) && !Dedup.Repeated(seen, f)
    requires !Defragment.Rejected(lim, f) && |LiveIds(book, Dedup.Note(seen, f))| <= lim.limitParted
    ensures var (parts', outcome) := Defragment.Step(lim, parts, f);
            && ExactParts(book, lim.limitParted, Dedup.Note(seen, f), parts')
            && outcome == if book[m].id.None? || All(book[m], Dedup.Note(seen, f))
                          then Defragment.Emitted(book[m].Expected()) else Defragment.Held
  {
    StepSafe(book, lim, seen, parts, f, m, j);
    if book[m].id.None? {
      UnsplitKeepsExact(book, lim.limitParted, seen, parts, f, m, j);
    } else {
      SplitExact(book, lim, seen, parts, f, m, j);
    }
  }

  lemma SplitExact(book: seq<Sent>, lim: Defragment.Limits, seen: set<nat>, parts: Defragment.Parts, f: Frame, m: nat,
                   j: nat)
    requires WellBook(book) && ExactParts(book, lim.limitParted, seen, parts) && lim.limitParted > 0
    requires IsFrame(book, f, m, j) && !Dedup.Repeated(seen, f) && book[m].id.Some?
    requires !Defragment.Rejected(lim, f) && |LiveIds(book, Dedup.Note(seen, f))| <= lim.limitParted
    requires SafeParts(book, Dedup.Note(seen, f), Defragment.Step(lim, parts, f).0)
    ensures var (parts', outcome) := Defragment.Step(lim, parts, f);
            && ExactParts(book, lim.limitParted, Dedup.Note(seen, f), parts')
            && outcome == if All(book[m], Dedup.Note(seen, f)) then Defragment.Emitted(book[m].Expected())
                          else Defragment.Held
  {
    hide Defragment.Step;
    hide Defragment.Push;
    hide Defragment.Merge;
    hide LiveIds;
    hide SafeParts;
    var e, limit := book[m], lim.limitParted;
    var p, seen' := e.id.value, seen + {Index(e, j)};
    if p !in parts.heaps {
      RoomForOne(book, limit, seen, parts, m, j);
    }
    var before := if p in parts.heaps then parts.heaps[p] else [];
    var heap := Defragment.Push(before, f);
    HeapAfter(book, limit, seen, parts, m, j, before);
    SplitStep(lim, parts, f, f.fragment.value, heap);
    ExactAfter(book, limit, seen, parts, m, j, Defragment.Step(lim, parts, f).0, heap);
    HeapAtMost(e, heap, seen');
    if All(e, seen') {
      MergeFull(e, heap, seen');
    }
  }

  lemma UnsplitKeepsExact(book: seq<Sent>, limit: nat, seen: set<nat>, parts: Defragment.Parts, f: Frame, m: nat,
                          j: nat)
    requires WellBook(book) && ExactParts(book, limit, seen, parts)
    requires IsFrame(book, f, m, j) && book[m].id.None?
    ensures ExactParts(book, limit, Dedup.Note(seen, f), parts)
  {
    var seen' := Dedup.Note(seen, f);
    SafePartsGrow(book, seen, seen', parts);
    if f.reliableIndex.Some? {
      forall n: nat | n < |book| && book[n].id.Some?
        ensures Live(book[n], seen') <==> Live(book[n], seen)
        ensures forall i: nat :: i < |book[n].pieces| ==> (Index(book[n], i) in seen' <==> Index(book[n], i) in seen)
      {
        assert book[n].Well();
        OthersUnchanged(book, seen, m, j, n);
      }
      assert LiveIds(book, seen') == LiveIds(book, seen);
      forall n: nat, i: nat | n < |book| && i < |book[n].pieces| && Live(book[n], seen') && Index(book[n], i) in seen'
        ensures HoldsPart(book, parts, n, i)
      {
        assert Live(book[n], seen);
      }
    }
  }

  /** Reliable messages are owed different frames. */
  lemma ExpectedDistinct(book: seq<Sent>, m: nat, n: nat)
    requires WellBook(book) && m < |book| && n < |book| && m != n && book[n].reliability.IsReliable()
    ensures book[m].Expected() != book[n].Expected()
  {
    DistinctEntries(book, m, n);
    if book[m].reliability.IsReliable() {
      assert Index(book[m], 0) != Index(book[n], 0);
    }
  }

  /** Noting one fresh frame finishes at most its own message. */
  lemma DoneAfter(book: seq<Sent>, seen: set<nat>, f: Frame, m: nat, j: nat, n: nat)
    requires WellBook(book) && IsFrame(book, f, m, j) && !Dedup.Repeated(seen, f) && n < |book|
             && book[n].reliability.IsReliable()
    ensures n == m ==> !Done(book[n], seen)
    ensures n != m ==> (Done(book[n], Dedup.Note(seen, f)) <==> Done(book[n], seen))
    ensures book[n].id.None? && n == m ==> Done(book[n], Dedup.Note(seen, f))
  {
    if n == m {
      assert Index(book[n], j) !in seen;
    } else if book[m].reliability.IsReliable() {
      OthersUnchanged(book, seen, m, j, n);
    }
  }

  /** How often a reliable message comes out of a run that takes the noted set from `seen` to `seen'`. */
  ghost function Completions(e: Sent, seen: set<nat>, seen': set<nat>): nat {
    if Done(e, seen') && !Done(e, seen) then 1 else 0
  }

  /** The first frame of a set and the rest of it, counted for one message. */
  lemma FirstCounts(book: seq<Sent>, seen: set<nat>, f: Frame, m: nat, j: nat, n: nat, outcome: Defragment.Outcome,
                    rest: seq<Frame>, end: set<nat>)
    requires WellBook(book) && IsFrame(book, f, m, j) && !Dedup.Repeated(seen, f) && n < |book|
             && book[n].reliability.IsReliable()
    requires outcome == if book[m].id.None? || All(book[m], Dedup.Note(seen, f))
                        then Defragment.Emitted(book[m].Expected()) else Defragment.Held
    requires Done(book[n], Dedup.Note(seen, f)) ==> Done(book[n], end)
    requires multiset(rest)[book[n].Expected()] == Completions(book[n], Dedup.Note(seen, f), end)
    ensures multiset((if outcome.Emitted? then [outcome.frame] else []) + rest)[book[n].Expected()]
            == Completions(book[n], seen, end)
  {
    DoneAfter(book, seen, f, m, j, n);
    if n != m {
      ExpectedDistinct(book, m, n);
    }
  }

  lemma DoneGrows(e: Sent, seen: set<nat>, seen': set<nat>)
    requires seen <= seen'
    ensures Done(e, seen) ==> Done(e, seen')
  {
  }

  /** What is fresh stays so when less is known. */
  lemma {:induction false} FreshLess(seen: set<nat>, got: set<nat>, frames: seq<Frame>)
    requires Fresh(seen, frames) && got <= seen
    ensures Fresh(got, frames)
    decreases |frames|
  {
    if frames != [] {
      FreshLess(Dedup.Note(seen, frames[0]), Dedup.Note(got, frames[0]), frames[1..]);
    }
  }

  lemma {:induction false} NoteAllLess(seen: set<nat>, got: set<nat>, frames: seq<Frame>, n: nat)
    requires got <= seen && n <= |frames|
    ensures NoteAll(got, frames[..n]) <= NoteAll(seen, frames)
    decreases |frames|
  {
    if n > 0 {
      NoteAllLess(Dedup.Note(seen, frames[0]), Dedup.Note(got, frames[0]), frames[1..], n - 1);
      assert frames[..n][1..] == frames[1..][..n - 1];
    }
  }

  lemma {:induction false} NoteAllGrows(seen: set<nat>, frames: seq<Frame>)
    ensures seen <= NoteAll(seen, frames)
    decreases |frames|
  {
    if frames != [] {
      NoteAllGrows(Dedup.Note(seen, frames[0]), frames[1..]);
    }
  }

  /** A noted index was known before or belongs to one of the frames. */
  lemma {:induction false} NotedBy(seen: set<nat>, frames: seq<Frame>, k: nat) returns (f: Frame)
    requires k in NoteAll(seen, frames) && k !in seen
    ensures f in frames && f.reliableIndex == Some(k)
    decreases |frames|
  {
    if k in Dedup.Note(seen, frames[0]) {
      f := frames[0];
    } else {
      f := NotedBy(Dedup.Note(seen, frames[0]), frames[1..], k);
    }
  }

  lemma {:induction false} FreshMeansNew(seen: set<nat>, frames: seq<Frame>, f: Frame)
    requires Fresh(seen, frames) && f in frames && f.reliableIndex.Some?
    ensures f.reliableIndex.value !in seen
    decreases |frames|
  {
    if f != frames[0] {
      FreshMeansNew(Dedup.Note(seen, frames[0]), frames[1..], f);
    }
  }

  /** A frame of the book with an index of message `m` is that frame of it. */
  lemma OwnerByIndex(book: seq<Sent>, f: Frame, m: nat, j: nat)
    requires WellBook(book) && InBook(book, f) && m < |book| && book[m].reliability.IsReliable() && j < |book[m].pieces|
    requires f.reliableIndex.Some? && f.reliableIndex.value == Index(book[m], j)
    ensures f == book[m].FrameAt(j)
  {
    var n: nat, i: nat :| IsFrame(book, f, n, i);
    assert n < m ==> Disjoint(book[n], book[m]);
    assert m < n ==> Disjoint(book[m], book[n]);
  }

  lemma {:induction false} NoteAllAppend(seen: set<nat>, a: seq<Frame>, b: seq<Frame>)
    ensures NoteAll(seen, a + b) == NoteAll(NoteAll(seen, a), b)
    decreases |a|
  {
    if a == [] {
      assert a + b == b;
    } else {
      NoteAllAppend(Dedup.Note(seen, a[0]), a[1..], b);
      assert (a + b)[1..] == a[1..] + b;
    }
  }

  lemma {:induction false} RoomyAppend(book: seq<Sent>, limit: nat, seen: set<nat>, a: seq<Frame>, b: seq<Frame>)
    requires Roomy(book, limit, seen, a + b)
    ensures Roomy(book, limit, seen, a) && Roomy(book, limit, NoteAll(seen, a), b)
    decreases |a|
  {
    if a == [] {
      assert a + b == b;
    } else {
      assert (a + b)[1..] == a[1..] + b;
      RoomyAppend(book, limit, Dedup.Note(seen, a[0]), a[1..], b);
    }
  }

  /** A cache with room for every split message is roomy whatever arrives. */
  lemma {:induction false} RoomyWhenFew(book: seq<Sent>, limit: nat, seen: set<nat>, frames: seq<Frame>)
    requires Splits(book) <= limit
    ensures Roomy(book, limit, seen, frames)
    decreases |frames|
  {
    LiveAtMostSplits(book, seen);
    if frames != [] {
      RoomyWhenFew(book, limit, Dedup.Note(seen, frames[0]), frames[1..]);
    }
  }

  lemma {:induction false} LiveAtMostSplits(book: seq<Sent>, seen: set<nat>)
    ensures |LiveIds(book, seen)| <= Splits(book)
  {
    if book != [] {
      var front, last := book[..|book| - 1], book[|book| - 1];
      LiveAtMostSplits(front, seen);
      var extra := if Live(last, seen) then {last.id.value} else {};
      forall q | q in LiveIds(book, seen)
        ensures q in LiveIds(front, seen) + extra
      {
        var m: nat :| m < |book| && Live(book[m], seen) && book[m].id.value == q;
        if m < |front| {
          assert front[m] == book[m];
        }
      }
      SubsetCount(LiveIds(book, seen), LiveIds(front, seen) + extra);
    }
  }

  lemma SubsetCount<T>(a: set<T>, b: set<T>)
    requires a <= b
    ensures |a| <= |b|
  {
    assert b == a + (b - a);
  }
}
