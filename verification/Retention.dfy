/**
 * What the defragmenter remembers of a known history: a reference for its cache on parted ids and reliable
 * indices alone, without frames, and the exact outcome of every arrival, evictions included.
 */
module Retention {
  import opened Types
  import opened Book
  import opened Reassembly
  import Dedup
  import Defragment

  /**
   * The ids of the messages parts are gathered for, from least to most recently used, and the reliable
   * indices that got into the defragmenter and were not evicted.
   */
  datatype Memory = Memory(live: seq<nat>, got: set<nat>)

  const NOTHING: Memory := Memory([], {})

  /** Index `k` belongs to message `m`, which was split under `id`. */
  ghost predicate PartOf(book: seq<Sent>, id: nat, k: nat, m: nat) {
    m < |book| && book[m].id == Some(id) && book[m].base <= k < book[m].base + |book[m].pieces|
  }

  ghost function Forget(book: seq<Sent>, got: set<nat>, id: nat): set<nat> {
    set k | k in got && !exists m: nat :: PartOf(book, id, k, m)
  }

  /** All parts of the message split under `id` are there. */
  ghost predicate Complete(book: seq<Sent>, id: nat, got: set<nat>) {
    exists m: nat :: m < |book| && book[m].id == Some(id) && All(book[m], got)
  }

  /** Make `id` the one to be touched: a full cache forgets the id used least recently. */
  ghost function MakeRoom(book: seq<Sent>, limit: nat, mem: Memory, id: nat): Memory {
    if id in mem.live then Memory(Defragment.Without(mem.live, id), mem.got)
    else if mem.live != [] && |mem.live| >= limit then Memory(mem.live[1..], Forget(book, mem.got, mem.live[0]))
    else mem
  }

  ghost function Remember(book: seq<Sent>, limit: nat, mem: Memory, f: Frame): Memory {
    match f.fragment
    case None => Memory(mem.live, Dedup.Note(mem.got, f))
    case Some(fragment) =>
      var room := MakeRoom(book, limit, mem, fragment.partedId);
      var got := Dedup.Note(room.got, f);
      Memory(if Complete(book, fragment.partedId, got) then room.live else room.live + [fragment.partedId], got)
  }

  /** The frames of a set in turn, up to the first refused one. */
  ghost function RememberAll(book: seq<Sent>, lim: Defragment.Limits, mem: Memory, frames: seq<Frame>): Memory
    decreases |frames|
  {
    if frames == [] || Defragment.Rejected(lim, frames[0]) then mem
    else RememberAll(book, lim, Remember(book, lim.limitParted, mem, frames[0]), frames[1..])
  }

  /** The cache holds exactly the remembered parts of exactly the live messages, in order of use. */
  ghost predicate Exact(book: seq<Sent>, limit: nat, mem: Memory, parts: Defragment.Parts) {
    ExactParts(book, limit, mem.got, parts) && parts.recency == mem.live
  }

  lemma NothingExact(book: seq<Sent>, limit: nat)
    ensures Exact(book, limit, NOTHING, Defragment.Parts(map[], []))
  {
    assert LiveIds(book, {}) == {};
  }

  /** Forgetting one message leaves the others as they are. */
  lemma ForgetOthers(book: seq<Sent>, got: set<nat>, id: nat, n: nat)
    requires WellBook(book) && n < |book| && book[n].reliability.IsReliable() && book[n].id != Some(id)
    ensures var less := Forget(book, got, id);
            && (forall i: nat :: i < |book[n].pieces| ==> (Index(book[n], i) in less <==> Index(book[n], i) in got))
            && (All(book[n], less) <==> All(book[n], got)) && (Live(book[n], less) <==> Live(book[n], got))
  {
    var less := Forget(book, got, id);
    forall i: nat | i < |book[n].pieces|
      ensures Index(book[n], i) in less <==> Index(book[n], i) in got
    {
      if m: nat :| PartOf(book, id, Index(book[n], i), m) {
        SplitIsReliable(book, m);
        assert false;
      }
    }
  }

  lemma SplitIsReliable(book: seq<Sent>, m: nat)
    requires WellBook(book) && m < |book|
    ensures book[m].Well() && (book[m].id.Some? ==> book[m].reliability.IsReliable())
  {
  }

  lemma ForgottenNotLive(book: seq<Sent>, got: set<nat>, id: nat, m: nat)
    requires m < |book| && book[m].id == Some(id)
    ensures !Live(book[m], Forget(book, got, id))
  {
    forall j: nat | j < |book[m].pieces|
      ensures Index(book[m], j) !in Forget(book, got, id)
    {
      assert PartOf(book, id, Index(book[m], j), m);
    }
  }

  lemma ForgetLive(book: seq<Sent>, got: set<nat>, id: nat)
    requires WellBook(book)
    ensures LiveIds(book, Forget(book, got, id)) == LiveIds(book, got) - {id}
  {
    hide WellBook;
    hide Forget;
    hide Live;
    var less := Forget(book, got, id);
    forall m: nat | m < |book| && book[m].id.Some?
      ensures Live(book[m], less) <==> Live(book[m], got) && book[m].id != Some(id)
    {
      SplitIsReliable(book, m);
      if book[m].id == Some(id) {
        ForgottenNotLive(book, got, id, m);
      } else {
        ForgetOthers(book, got, id, m);
      }
    }
    LiveSplit(book, less);
    LiveSplit(book, got);
  }

  /** Only split messages are live. */
  lemma LiveSplit(book: seq<Sent>, got: set<nat>)
    ensures forall m: nat :: m < |book| && Live(book[m], got) ==> book[m].id.Some?
  {
  }

  lemma ForgetSafe(book: seq<Sent>, got: set<nat>, parts: Defragment.Parts, id: nat, rest: seq<nat>)
    requires WellBook(book) && SafeParts(book, got, parts)
    ensures SafeParts(book, Forget(book, got, id), Defragment.Parts(parts.heaps - {id}, rest))
  {
    hide WellBook;
    hide Forget;
    var less := Forget(book, got, id);
    forall p | p in parts.heaps && p != id
      ensures exists m: nat :: Owns(book, less, parts.heaps[p], p, m)
    {
      var m: nat :| Owns(book, got, parts.heaps[p], p, m);
      ForgetOthers(book, got, id, m);
      assert Owns(book, less, parts.heaps[p], p, m);
    }
  }

  /** Evicting the oldest entry of an exact cache leaves one that is exact for what is still remembered. */
  lemma EvictedExact(book: seq<Sent>, limit: nat, got: set<nat>, parts: Defragment.Parts)
    requires WellBook(book) && ExactParts(book, limit, got, parts) && parts.recency != []
    ensures var id := parts.recency[0];
            ExactParts(book, limit, Forget(book, got, id), Defragment.Parts(parts.heaps - {id}, parts.recency[1..]))
  {
    hide WellBook;
    hide Forget;
    hide Live;
    hide SafeParts;
    var id, less := parts.recency[0], Forget(book, got, parts.recency[0]);
    var parts' := Defragment.Parts(parts.heaps - {id}, parts.recency[1..]);
    ForgetSafe(book, got, parts, id, parts.recency[1..]);
    ForgetLive(book, got, id);
    OldestGone(parts, limit);
    LiveSplit(book, less);
    forall m: nat, j: nat | m < |book| && j < |book[m].pieces| && Live(book[m], less) && Index(book[m], j) in less
      ensures HoldsPart(book, parts', m, j)
    {
      SplitIsReliable(book, m);
      LiveById(book, less, m);
      ForgetOthers(book, got, id, m);
      assert HoldsPart(book, parts, m, j);
    }
  }

  lemma OldestGone(parts: Defragment.Parts, limit: nat)
    requires parts.Valid(limit) && parts.recency != []
    ensures Defragment.Parts(parts.heaps - {parts.recency[0]}, parts.recency[1..]).Valid(limit)
  {
    assert forall x :: x in parts.recency <==> x == parts.recency[0] || x in parts.recency[1..];
    assert parts.recency[0] !in parts.recency[1..];
  }

  /** A full cache treats the part of a new message as if the oldest entry had been evicted before. */
  lemma EvictedStep(lim: Defragment.Limits, parts: Defragment.Parts, f: Frame)
    requires f.fragment.Some? && f.fragment.value.partedId !in parts.heaps && lim.limitParted > 0
    requires !Defragment.Rejected(lim, f)
    requires parts.recency != [] && |parts.recency| == lim.limitParted
    ensures var less := Defragment.Parts(parts.heaps - {parts.recency[0]}, parts.recency[1..]);
            Defragment.Step(lim, parts, f) == Defragment.Step(lim, less, f)
  {
    hide Defragment.Push;
    hide Defragment.Merge;
    hide Defragment.Without;
    var id, limit := f.fragment.value.partedId, lim.limitParted;
    var less := Defragment.Parts(parts.heaps - {parts.recency[0]}, parts.recency[1..]);
    assert parts.Touch(id, limit) == less.Touch(id, limit);
  }

  /** When its id is there or the cache is not full, one more part leaves no more live messages than fit. */
  lemma FitsAfter(book: seq<Sent>, limit: nat, got: set<nat>, parts: Defragment.Parts, f: Frame, m: nat, j: nat)
    requires WellBook(book) && ExactParts(book, limit, got, parts) && IsFrame(book, f, m, j) && !Dedup.Repeated(got, f)
    requires book[m].id.Some? ==> book[m].id.value in parts.heaps || |parts.recency| < limit
    ensures |LiveIds(book, Dedup.Note(got, f))| <= limit
  {
    hide WellBook;
    hide LiveIds;
    hide SafeParts;
    SplitIsReliable(book, m);
    NoDuplicatesCount(parts.recency, LiveIds(book, got));
    if book[m].id.Some? {
      LiveAfter(book, got, m, j);
      var p := book[m].id.value;
      assert p in LiveIds(book, got) ==> LiveIds(book, got) + {p} == LiveIds(book, got);
      SubsetCount(LiveIds(book, Dedup.Note(got, f)), LiveIds(book, got) + {p});
    } else {
      UnsplitKeepsExact(book, limit, got, parts, f, m, j);
      assert LiveIds(book, Dedup.Note(got, f)) == parts.heaps.Keys == LiveIds(book, got);
    }
  }

  /** The order of use after a part that is not refused, when nothing has to be evicted. */
  lemma StepRecency(lim: Defragment.Limits, parts: Defragment.Parts, f: Frame)
    requires parts.Valid(lim.limitParted) && f.fragment.Some? && !Defragment.Rejected(lim, f)
    requires f.fragment.value.partedId in parts.heaps || |parts.recency| < lim.limitParted
    ensures var (parts', outcome) := Defragment.Step(lim, parts, f);
            var id := f.fragment.value.partedId;
            parts'.recency
            == Defragment.Without(parts.recency, id) + if outcome.Emitted? then [] else [id]
  {
    hide Defragment.Push;
    hide Defragment.Merge;
    var id := f.fragment.value.partedId;
    WithoutNone(parts.recency, id);
    WithoutLast(parts.recency, id);
    WithoutLast(Defragment.Without(parts.recency, id), id);
    WithoutNone(Defragment.Without(parts.recency, id), id);
    Defragment.WithoutMembers(parts.recency, id);
  }

  lemma {:induction false} WithoutNone(s: seq<nat>, id: nat)
    ensures id !in s ==> Defragment.Without(s, id) == s
  {
    if s != [] {
      WithoutNone(s[1..], id);
    }
  }

  lemma {:induction false} WithoutLast(s: seq<nat>, id: nat)
    ensures Defragment.Without(s + [id], id) == Defragment.Without(s, id)
  {
    if s == [] {
      assert [] + [id] == [id] && [id][1..] == [];
    } else {
      WithoutLast(s[1..], id);
      assert (s + [id])[1..] == s[1..] + [id];
    }
  }

  /** The cache after making room, and what a frame does to it. */
  ghost function Roomier(limit: nat, parts: Defragment.Parts, f: Frame): Defragment.Parts {
    if f.fragment.Some? && f.fragment.value.partedId !in parts.heaps && parts.recency != [] && |parts.recency| >= limit
    then Defragment.Parts(parts.heaps - {parts.recency[0]}, parts.recency[1..])
    else parts
  }

  /** What is remembered when room has been made, before the frame goes in. */
  ghost function Kept(book: seq<Sent>, limit: nat, mem: Memory, f: Frame): set<nat> {
    if f.fragment.None? then mem.got else MakeRoom(book, limit, mem, f.fragment.value.partedId).got
  }

  lemma RoomierExact(book: seq<Sent>, lim: Defragment.Limits, mem: Memory, parts: Defragment.Parts, f: Frame, m: nat,
                     j: nat)
    requires WellBook(book) && Exact(book, lim.limitParted, mem, parts) && lim.limitParted > 0 && IsFrame(book, f, m, j)
    requires !Defragment.Rejected(lim, f)
    ensures var parts' := Roomier(lim.limitParted, parts, f);
            && ExactParts(book, lim.limitParted, Kept(book, lim.limitParted, mem, f), parts')
            && Defragment.Step(lim, parts, f) == Defragment.Step(lim, parts', f)
            && (f.fragment.Some? ==> f.fragment.value.partedId in parts'.heaps || |parts'.recency| < lim.limitParted)
  {
    hide WellBook;
    hide SafeParts;
    hide LiveIds;
    hide Forget;
    hide Defragment.Step;
    if Roomier(lim.limitParted, parts, f) != parts {
      EvictedExact(book, lim.limitParted, mem.got, parts);
      EvictedStep(lim, parts, f);
    }
  }

  lemma CompleteIs(book: seq<Sent>, got: set<nat>, m: nat)
    requires WellBook(book) && m < |book| && book[m].id.Some?
    ensures Complete(book, book[m].id.value, got) <==> All(book[m], got)
  {
    if n: nat :| n < |book| && book[n].id == book[m].id && All(book[n], got) {
      if n != m {
        DistinctEntries(book, n, m);
      }
    }
  }

  /**
   * One fresh frame that is not refused: the message comes out exactly when, with this frame, all of it is
   * remembered; and the cache is again exactly what is remembered.
   */
  lemma StepRemembers(book: seq<Sent>, lim: Defragment.Limits, mem: Memory, parts: Defragment.Parts, f: Frame, m: nat,
                      j: nat)
    requires WellBook(book) && Exact(book, lim.limitParted, mem, parts) && lim.limitParted > 0
    requires IsFrame(book, f, m, j) && !Dedup.Repeated(mem.got, f) && !Defragment.Rejected(lim, f)
    ensures var (parts', outcome) := Defragment.Step(lim, parts, f);
            var kept := Kept(book, lim.limitParted, mem, f);
            && Exact(book, lim.limitParted, Remember(book, lim.limitParted, mem, f), parts')
            && kept <= mem.got && Remember(book, lim.limitParted, mem, f).got == Dedup.Note(kept, f)
            && outcome == if book[m].id.None? || All(book[m], Dedup.Note(kept, f))
                          then Defragment.Emitted(book[m].Expected()) else Defragment.Held
  {
    hide WellBook;
    hide ExactParts;
    hide Defragment.Step;
    hide LiveIds;
    hide All;
    var limit := lim.limitParted;
    var room, kept := Roomier(limit, parts, f), Kept(book, limit, mem, f);
    RoomierExact(book, lim, mem, parts, f, m, j);
    FitsAfter(book, limit, kept, room, f, m, j);
    StepExact(book, lim, kept, room, f, m, j);
    ExactValid(book, limit, kept, room);
    ExactValid(book, limit, mem.got, parts);
    if book[m].id.Some? {
      CompleteIs(book, Dedup.Note(kept, f), m);
      StepRecency(lim, room, f);
      WithoutNone(room.recency, book[m].id.value);
    } else {
      UnsplitStep(lim, parts, f);
    }
  }

  lemma ExactValid(book: seq<Sent>, limit: nat, got: set<nat>, parts: Defragment.Parts)
    requires ExactParts(book, limit, got, parts)
    ensures parts.Valid(limit)
  {
  }

  lemma UnsplitStep(lim: Defragment.Limits, parts: Defragment.Parts, f: Frame)
    requires f.fragment.None?
    ensures Defragment.Step(lim, parts, f) == (parts, Defragment.Emitted(f))
  {
  }

  /** Making room forgets no finished message. */
  lemma DoneKept(book: seq<Sent>, limit: nat, mem: Memory, parts: Defragment.Parts, f: Frame, n: nat)
    requires WellBook(book) && Exact(book, limit, mem, parts) && n < |book| && book[n].reliability.IsReliable()
    ensures Done(book[n], Kept(book, limit, mem, f)) <==> Done(book[n], mem.got)
  {
    hide WellBook;
    hide SafeParts;
    hide LiveIds;
    var kept := Kept(book, limit, mem, f);
    if kept != mem.got {
      var id := mem.live[0];
      assert id in parts.recency && kept == Forget(book, mem.got, id);
      hide Forget;
      if book[n].id == Some(id) {
        LiveById(book, mem.got, n);
        ForgottenNotDone(book, mem.got, n);
      } else {
        ForgetOthers(book, mem.got, id, n);
      }
    }
  }

  lemma ForgottenNotDone(book: seq<Sent>, got: set<nat>, n: nat)
    requires WellBook(book) && n < |book| && book[n].id.Some? && Live(book[n], got)
    ensures !Done(book[n], got) && !Done(book[n], Forget(book, got, book[n].id.value))
  {
    assert book[n].Well();
    assert PartOf(book, book[n].id.value, Index(book[n], 0), n);
  }

  lemma {:induction false} RememberLess(book: seq<Sent>, lim: Defragment.Limits, mem: Memory, frames: seq<Frame>)
    ensures RememberAll(book, lim, mem, frames).got <= NoteAll(mem.got, frames)
    decreases |frames|
  {
    hide Forget;
    if frames == [] || Defragment.Rejected(lim, frames[0]) {
      NoteAllGrows(mem.got, frames);
    } else {
      var next := Remember(book, lim.limitParted, mem, frames[0]);
      RememberOne(book, lim.limitParted, mem, frames[0]);
      RememberLess(book, lim, next, frames[1..]);
      NoteAllLess(Dedup.Note(mem.got, frames[0]), next.got, frames[1..], |frames| - 1);
      assert frames[1..][..|frames| - 1] == frames[1..];
    }
  }

  lemma RememberOne(book: seq<Sent>, limit: nat, mem: Memory, f: Frame)
    ensures Remember(book, limit, mem, f).got == Dedup.Note(Kept(book, limit, mem, f), f)
    ensures Kept(book, limit, mem, f) <= mem.got && Remember(book, limit, mem, f).got <= Dedup.Note(mem.got, f)
  {
  }

  /**
   * One deduplicated set, whatever it evicts: it fails exactly when a frame is refused; each message comes
   * out once, when all of it is remembered; and the cache is again exactly what is remembered.
   */
  lemma {:induction false} RunSetExact(book: seq<Sent>, lim: Defragment.Limits, mem: Memory, parts: Defragment.Parts,
                                       frames: seq<Frame>)
    requires WellBook(book) && Exact(book, lim.limitParted, mem, parts) && lim.limitParted > 0
    requires Fresh(mem.got, frames) && forall f :: f in frames ==> InBook(book, f)
    ensures var r, mem' := Defragment.RunSet(lim, parts, frames), RememberAll(book, lim, mem, frames);
            && (r.failed <==> Defragment.Cut(lim, frames) != frames)
            && Exact(book, lim.limitParted, mem', r.parts)
            && forall n: nat :: n < |book| && book[n].reliability.IsReliable() ==>
                 && (Done(book[n], mem.got) ==> Done(book[n], mem'.got))
                 && multiset(r.frames)[book[n].Expected()] == Completions(book[n], mem.got, mem'.got)
    decreases |frames|
  {
    hide WellBook;
    hide InBook;
    hide IsFrame;
    hide Exact;
    hide Remember;
    hide Kept;
    hide Defragment.Step;
    hide Done;
    hide All;
    hide Dedup.Note;
    Defragment.RunSetCut(lim, parts, frames);
    if frames != [] {
      if Defragment.Rejected(lim, frames[0]) {
        RefusedStep(lim, parts, frames[0]);
      } else {
        var f := frames[0];
        assert f in frames;
        var m, j := Owner(book, f);
        var kept, next := Kept(book, lim.limitParted, mem, f), Remember(book, lim.limitParted, mem, f);
        StepRemembers(book, lim, mem, parts, f, m, j);
        RememberOne(book, lim.limitParted, mem, f);
        var (parts', outcome) := Defragment.Step(lim, parts, f);
        FreshLess(Dedup.Note(mem.got, f), next.got, frames[1..]);
        RunSetExact(book, lim, next, parts', frames[1..]);
        var r, rest := Defragment.RunSet(lim, parts, frames), Defragment.RunSet(lim, parts', frames[1..]);
        assert r.frames == (if outcome.Emitted? then [outcome.frame] else []) + rest.frames;
        var end := RememberAll(book, lim, next, frames[1..]).got;
        forall n: nat | n < |book| && book[n].reliability.IsReliable()
          ensures Done(book[n], mem.got) ==> Done(book[n], end)
          ensures multiset(r.frames)[book[n].Expected()] == Completions(book[n], mem.got, end)
        {
          EntryWithin(book, n);
          StepCounts(book, lim.limitParted, mem, parts, f, m, j, n, outcome, rest.frames, end);
        }
      }
    }
  }

  lemma Owner(book: seq<Sent>, f: Frame) returns (m: nat, j: nat)
    requires InBook(book, f)
    ensures IsFrame(book, f, m, j)
  {
    m, j :| IsFrame(book, f, m, j);
  }

  lemma EntryWithin(book: seq<Sent>, n: nat)
    requires WellBook(book) && n < |book|
    ensures book[n].Well()
  {
  }

  /** One frame and the rest of its set, counted for one message. */
  lemma StepCounts(book: seq<Sent>, limit: nat, mem: Memory, parts: Defragment.Parts, f: Frame, m: nat, j: nat, n: nat,
                   outcome: Defragment.Outcome, rest: seq<Frame>, end: set<nat>)
    requires WellBook(book) && Exact(book, limit, mem, parts) && IsFrame(book, f, m, j) && !Dedup.Repeated(mem.got, f)
    requires n < |book| && book[n].reliability.IsReliable()
    requires var kept := Kept(book, limit, mem, f);
             && kept <= mem.got
             && outcome == (if book[m].id.None? || All(book[m], Dedup.Note(kept, f))
                            then Defragment.Emitted(book[m].Expected()) else Defragment.Held)
             && (Done(book[n], Dedup.Note(kept, f)) ==> Done(book[n], end))
             && multiset(rest)[book[n].Expected()] == Completions(book[n], Dedup.Note(kept, f), end)
    ensures Done(book[n], mem.got) ==> Done(book[n], end)
    ensures multiset((if outcome.Emitted? then [outcome.frame] else []) + rest)[book[n].Expected()]
            == Completions(book[n], mem.got, end)
  {
    hide WellBook;
    hide IsFrame;
    hide Exact;
    hide Kept;
    hide Done;
    var kept := Kept(book, limit, mem, f);
    DoneKept(book, limit, mem, parts, f, n);
    FirstCounts(book, kept, f, m, j, n, outcome, rest, end);
    DoneGrows(book[n], kept, Dedup.Note(kept, f));
  }

  lemma RefusedStep(lim: Defragment.Limits, parts: Defragment.Parts, f: Frame)
    requires Defragment.Rejected(lim, f)
    ensures Defragment.Step(lim, parts, f) == (parts, Defragment.Failed)
  {
  }

  /** While no more messages are partly noted than the cache can hold, nothing is forgotten. */
  lemma {:induction false} RoomyRemembers(book: seq<Sent>, lim: Defragment.Limits, mem: Memory, parts: Defragment.Parts,
                                          frames: seq<Frame>)
    requires WellBook(book) && Exact(book, lim.limitParted, mem, parts) && lim.limitParted > 0
    requires Fresh(mem.got, frames) && forall f :: f in frames ==> InBook(book, f)
    requires Roomy(book, lim.limitParted, mem.got, Defragment.Cut(lim, frames))
    ensures RememberAll(book, lim, mem, frames).got == NoteAll(mem.got, Defragment.Cut(lim, frames))
    decreases |frames|
  {
    hide WellBook;
    hide InBook;
    hide IsFrame;
    hide Exact;
    hide Remember;
    hide Kept;
    hide Defragment.Step;
    hide LiveIds;
    if frames != [] && !Defragment.Rejected(lim, frames[0]) {
      var f := frames[0];
      assert f in frames;
      var m, j := Owner(book, f);
      var cut := Defragment.Cut(lim, frames);
      assert cut[0] == f && cut[1..] == Defragment.Cut(lim, frames[1..]);
      StepRemembers(book, lim, mem, parts, f, m, j);
      NothingForgotten(book, lim.limitParted, mem, parts, f, m, j);
      RoomyRemembers(book, lim, Remember(book, lim.limitParted, mem, f), Defragment.Step(lim, parts, f).0, frames[1..]);
    }
  }

  lemma NothingForgotten(book: seq<Sent>, limit: nat, mem: Memory, parts: Defragment.Parts, f: Frame, m: nat, j: nat)
    requires WellBook(book) && Exact(book, limit, mem, parts) && IsFrame(book, f, m, j) && !Dedup.Repeated(mem.got, f)
    requires |LiveIds(book, Dedup.Note(mem.got, f))| <= limit
    ensures Kept(book, limit, mem, f) == mem.got
  {
    hide WellBook;
    hide SafeParts;
    hide LiveIds;
    hide Forget;
    SplitIsReliable(book, m);
    if book[m].id.Some? && book[m].id.value !in parts.heaps {
      RoomForOne(book, limit, mem.got, parts, m, j);
    }
  }
}
