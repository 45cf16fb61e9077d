/** The deduplication layer: a sliding window over reliable frame indices, and the stream filtered by it. */
module Dedup {
  import opened Types
  import BitQueue
  import Streams

  /** A window has passed everything below `first`, and the marked numbers from there on. */
  predicate Marked(first: nat, bits: seq<bool>, n: nat) {
    n < first || (n - first < |bits| && bits[n - first])
  }

  ghost function PassedBy(first: nat, bits: seq<bool>): (passed: set<nat>) {
    set n: nat | n < first + |bits| && Marked(first, bits, n)
  }

  /**
   * `first` is the least number missing from `passed`, and `length` more numbers reach the greatest
   * one in it.
   */
  ghost predicate Spans(first: nat, length: nat, passed: set<nat>) {
    && first !in passed
    && (forall n: nat :: n < first ==> n in passed)
    && (forall n :: n in passed ==> n < first + length)
    && (length > 0 ==> first + length - 1 in passed)
  }

  lemma WindowSpans(first: nat, bits: seq<bool>)
    requires |bits| > 0 ==> !bits[0] && bits[|bits| - 1]
    ensures Spans(first, |bits|, PassedBy(first, bits))
  {
    assert |bits| > 0 ==> Marked(first, bits, first + |bits| - 1);
  }

  /** The window with the number `gap` places above its start marked, grown if it was too short. */
  ghost function Marking(bits: seq<bool>, gap: nat): seq<bool> {
    if gap < |bits| then bits[gap := true] else bits + seq(gap - |bits|, _ => false) + [true]
  }

  lemma MarkingPassed(first: nat, bits: seq<bool>, gap: nat)
    ensures PassedBy(first, Marking(bits, gap)) == PassedBy(first, bits) + {first + gap}
  {
    assert forall n: nat :: Marked(first, Marking(bits, gap), n) <==> n == first + gap || Marked(first, bits, n);
  }

  lemma PassedHere(first: nat, bits: seq<bool>, n: nat)
    ensures n in PassedBy(first, bits) <==> Marked(first, bits, n)
    ensures n in PassedBy(first, bits) ==> PassedBy(first, bits) + {n} == PassedBy(first, bits)
  {
  }

  lemma MarkingEnds(bits: seq<bool>, gap: nat)
    requires |bits| > 0 ==> bits[|bits| - 1]
    ensures var marked := Marking(bits, gap);
            marked[|marked| - 1] && |marked| == if gap < |bits| then |bits| else gap + 1
  {
  }

  lemma PassedAdvance(first: nat, bits: seq<bool>)
    requires bits != [] && bits[0]
    ensures PassedBy(first + 1, bits[1..]) == PassedBy(first, bits)
  {
    assert forall n: nat :: Marked(first + 1, bits[1..], n) <==> Marked(first, bits, n);
  }

  class DuplicateWindow {
    var firstUnreceived: nat
    const receivedStatus: BitQueue.BitVecQueue

    ghost predicate Valid()
      reads this, receivedStatus
    {
      && receivedStatus.Valid()
      && var bits := receivedStatus.Bits();
         && firstUnreceived + |bits| < U24_LIMIT
         && (|bits| > 0 ==> !bits[0] && bits[|bits| - 1])
    }

    ghost function Passed(): (passed: set<nat>)
      requires Valid()
      reads this, receivedStatus
    {
      PassedBy(firstUnreceived, receivedStatus.Bits())
    }

    constructor ()
      ensures Valid() && fresh(receivedStatus)
      ensures Passed() == {}
    {
      firstUnreceived := 0;
      receivedStatus := new BitQueue.BitVecQueue();
    }

    /**
     * True exactly when the number was passed before. The window always starts at the least number
     * never passed and ends at the greatest number passed.
     */
    method Duplicate(seqNum: nat) returns (duplicate: bool)
      requires Valid()
      requires seqNum < U24_LIMIT - 1
      modifies this, receivedStatus
      ensures Valid()
      ensures duplicate == (seqNum in old(Passed()))
      ensures Passed() == old(Passed()) + {seqNum}
      ensures Spans(firstUnreceived, receivedStatus.Len(), Passed())
    {
      hide PassedBy;
      hide Marking;
      hide Spans;
      hide BitQueue.BitVecQueue.Valid;
      hide BitQueue.BitVecQueue.Bits;
      hide BitQueue.BitVecQueue.Get;
      hide BitQueue.BitVecQueue.Len;
      WindowSpans(firstUnreceived, receivedStatus.Bits());
      PassedHere(firstUnreceived, receivedStatus.Bits(), seqNum);
      if seqNum < firstUnreceived {
        return true;
      }
      var gap := seqNum - firstUnreceived;
      if receivedStatus.Get(gap) == Some(true) {
        return true;
      }
      ghost var bits := receivedStatus.Bits();
      MarkReceived(gap);
      MarkingEnds(bits, gap);
      MarkingPassed(firstUnreceived, bits, gap);
      Advance();
      WindowSpans(firstUnreceived, receivedStatus.Bits());
      return false;
    }

    /** Record the status of the number `gap` above the first unreceived one, extending the window to it. */
    method MarkReceived(gap: nat)
      requires receivedStatus.Valid()
      modifies receivedStatus
      ensures receivedStatus.Valid()
      ensures receivedStatus.Bits() == Marking(old(receivedStatus.Bits()), gap)
    {
      if gap < receivedStatus.Len() {
        receivedStatus.Set(gap, true);
      } else {
        var missing := gap - receivedStatus.Len();
        for i := 0 to missing
          invariant receivedStatus.Valid()
          invariant receivedStatus.Bits() == old(receivedStatus.Bits()) + seq(i, _ => false)
        {
          receivedStatus.PushBack(false);
        }
        receivedStatus.PushBack(true);
      }
    }

    /** Drop the received prefix of the window. */
    method Advance()
      requires receivedStatus.Valid()
      requires firstUnreceived + |receivedStatus.Bits()| < U24_LIMIT
      requires var bits := receivedStatus.Bits(); |bits| > 0 ==> bits[|bits| - 1]
      modifies this, receivedStatus
      ensures Valid()
      ensures Passed() == PassedBy(old(firstUnreceived), old(receivedStatus.Bits()))
    {
      hide PassedBy;
      while receivedStatus.Front() == Some(true)
        invariant receivedStatus.Valid()
        invariant PassedBy(firstUnreceived, receivedStatus.Bits())
                  == PassedBy(old(firstUnreceived), old(receivedStatus.Bits()))
        invariant firstUnreceived + |receivedStatus.Bits()| < U24_LIMIT
        invariant var bits := receivedStatus.Bits(); |bits| > 0 ==> bits[|bits| - 1]
        decreases receivedStatus.Len()
      {
        ghost var bits := receivedStatus.Bits();
        receivedStatus.PopFront();
        firstUnreceived := firstUnreceived + 1;
        PassedAdvance(firstUnreceived - 1, bits);
      }
    }
  }

  /** The frame carries a reliable index that was passed before. */
  predicate Repeated(seen: set<nat>, f: Frame) {
    f.reliableIndex.Some? && f.reliableIndex.value in seen
  }

  function Note(seen: set<nat>, f: Frame): set<nat> {
    if f.reliableIndex.Some? then seen + {f.reliableIndex.value} else seen
  }

  /**
   * Filtering one frame set against the set of numbers seen so far: frames without a reliable index
   * pass, the others pass the first time only.
   */
  function Keep(seen: set<nat>, frames: seq<Frame>): (r: (seq<Frame>, set<nat>))
    decreases |frames|
  {
    if frames == [] then ([], seen)
    else if Repeated(seen, frames[0]) then Keep(seen, frames[1..])
    else
      var (kept, seen') := Keep(Note(seen, frames[0]), frames[1..]);
      ([frames[0]] + kept, seen')
  }

  lemma KeepStep(seen: set<nat>, frames: seq<Frame>, i: nat)
    requires i < |frames|
    ensures var r, rest := Keep(seen, frames[i..]), Keep(Note(seen, frames[i]), frames[i + 1..]);
            && r.0 == (if Repeated(seen, frames[i]) then [] else [frames[i]]) + rest.0
            && r.1 == rest.1
  {
    assert frames[i..][1..] == frames[i + 1..];
    if Repeated(seen, frames[i]) {
      assert Note(seen, frames[i]) == seen;
    }
  }

  lemma KeepEnd(seen: set<nat>, frames: seq<Frame>)
    ensures Keep(seen, frames[|frames|..]) == ([], seen)
  {
  }

  lemma KeptThen(kept: seq<Frame>, f: Frame, more: seq<Frame>)
    ensures kept + ([f] + more) == kept + [f] + more && kept + ([] + more) == kept + more
  {
  }

  /** One frame set through the layer; a set that loses every frame is swallowed. */
  function Step(seen: set<nat>, frames: seq<Frame>): (r: (seq<seq<Frame>>, set<nat>)) {
    var (kept, seen') := Keep(seen, frames);
    (if kept == [] then [] else [kept], seen')
  }

  /** Every index is one the window can take without its counter leaving 24 bits. */
  predicate Indexable(frames: seq<Frame>) {
    forall i :: 0 <= i < |frames| ==> (frames[i].reliableIndex.Some? ==> frames[i].reliableIndex.value < U24_LIMIT - 1)
  }

  class Dedup {
    const frame: Streams.Source<seq<Frame>>
    const window: DuplicateWindow

    ghost predicate Valid()
      reads this, frame, window, window.receivedStatus
    {
      && window.Valid()
      && forall i :: 0 <= i < |frame.queue| ==> Indexable(frame.queue[i])
    }

    /** What polling until the input runs dry would yield, and the numbers seen by then. */
    ghost function Remaining(): (r: (seq<seq<Frame>>, set<nat>))
      requires Valid()
      reads this, frame, window, window.receivedStatus
    {
      Streams.Run(Step, window.Passed(), frame.queue)
    }

    constructor (inner: Streams.Source<seq<Frame>>)
      requires forall i :: 0 <= i < |inner.queue| ==> Indexable(inner.queue[i])
      ensures Valid() && frame == inner && fresh(window) && fresh(window.receivedStatus)
      ensures window.Passed() == {}
    {
      frame := inner;
      window := new DuplicateWindow();
    }

    /** The retain loop over one frame set. */
    method Retain(frames: seq<Frame>) returns (kept: seq<Frame>)
      requires window.Valid() && Indexable(frames)
      modifies window, window.receivedStatus
      ensures window.Valid()
      ensures kept == Keep(old(window.Passed()), frames).0
      ensures window.Passed() == Keep(old(window.Passed()), frames).1
    {
      hide Keep;
      hide DuplicateWindow.Valid;
      hide DuplicateWindow.Passed;
      kept := [];
      assert frames[0..] == frames;
      for i := 0 to |frames|
        invariant window.Valid()
        invariant kept + Keep(window.Passed(), frames[i..]).0 == Keep(old(window.Passed()), frames).0
        invariant Keep(window.Passed(), frames[i..]).1 == Keep(old(window.Passed()), frames).1
      {
        var f := frames[i];
        ghost var seen := window.Passed();
        KeepStep(seen, frames, i);
        KeptThen(kept, f, Keep(Note(seen, f), frames[i + 1..]).0);
        var duplicate := false;
        if f.reliableIndex.Some? {
          duplicate := window.Duplicate(f.reliableIndex.value);
          assert duplicate ==> window.Passed() == seen;
        }
        assert window.Passed() == Note(seen, f);
        if !duplicate {
          kept := kept + [f];
        }
      }
      KeepEnd(window.Passed(), frames);
    }

    method PollNext() returns (r: Poll<seq<Frame>>)
      requires Valid()
      modifies frame`queue, window, window.receivedStatus
      ensures Valid()
      ensures Remaining().1 == old(Remaining()).1
      ensures match r
              case Item(frames) => old(Remaining()).0 == [frames] + Remaining().0 && frames != []
              case Finished => old(Remaining()).0 == [] && frame.queue == [] && frame.closed
              case Pending => old(Remaining()).0 == [] && frame.queue == [] && !frame.closed
    {
      while true
        invariant Valid()
        invariant Remaining().0 == old(Remaining()).0 && Remaining().1 == old(Remaining()).1
        decreases |frame.queue|
      {
        var next := frame.PollNext();
        match next
        case Finished => return Finished;
        case Pending => return Pending;
        case Item(frames) =>
          var kept := Retain(frames);
          if kept != [] {
            return Item(kept);
          }
      }
    }
  }
}
