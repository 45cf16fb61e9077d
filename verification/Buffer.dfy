/** The send buffer: four tiers of frames waiting to be packed. */
module Buffer {
  import opened Types
  import Codec
  import Sender

  datatype PenaltyFrame = PenaltyFrame(penalty: Byte, frame: Frame)

  function FramesOf(heap: seq<PenaltyFrame>): (frames: seq<Frame>)
    ensures |frames| == |heap|
  {
    seq(|heap|, i requires 0 <= i < |heap| => heap[i].frame)
  }

  function Without<T>(s: seq<T>, i: nat): seq<T>
    requires i < |s|
  {
    s[..i] + s[i + 1..]
  }

  lemma WithoutFacts<T>(s: seq<T>, i: nat)
    requires i < |s|
    ensures multiset(s) == multiset(Without(s, i)) + multiset{s[i]}
  {
    assert s == s[..i] + [s[i]] + s[i + 1..];
  }

  /** A heap yields a frame of least penalty; which of several is not determined. */
  predicate IsTop(heap: seq<PenaltyFrame>, i: nat) {
    i < |heap| && forall j :: 0 <= j < |heap| ==> heap[i].penalty <= heap[j].penalty
  }

  lemma {:induction false} TopExists(heap: seq<PenaltyFrame>)
    requires heap != []
    ensures exists i: nat :: IsTop(heap, i)
  {
    if |heap| == 1 {
      assert IsTop(heap, 0);
    } else {
      var last := |heap| - 1;
      TopExists(heap[..last]);
      var i: nat :| IsTop(heap[..last], i);
      assert IsTop(heap, i) || IsTop(heap, last);
    }
  }

  function SumOf(popped: seq<PenaltyFrame>): nat {
    if popped == [] then 0 else SumOf(popped[..|popped| - 1]) + popped[|popped| - 1].penalty
  }

  lemma {:induction false} SizeAppend(a: seq<Frame>, b: seq<Frame>)
    ensures Codec.SizeOf(a + b) == Codec.SizeOf(a) + Codec.SizeOf(b)
  {
    if a == [] {
      assert a + b == b;
    } else {
      SizeAppend(a[1..], b);
      assert (a + b)[1..] == a[1..] + b;
    }
  }

  /** The tier was emptied, or its next frame does not fit what is left. */
  ghost predicate Stuck(rest: seq<PenaltyFrame>, left: nat) {
    rest == [] || exists i: nat :: IsTop(rest, i) && rest[i].frame.Size() > left
  }

  /** Take frames off a heap while the next one fits. */
  method PopFitting(heap: seq<PenaltyFrame>, remain: nat)
    returns (rest: seq<PenaltyFrame>, popped: seq<PenaltyFrame>, left: nat)
    ensures TierServed(heap, rest, popped, left)
    ensures Codec.SizeOf(FramesOf(popped)) + left == remain
  {
    rest, popped, left := heap, [], remain;
    while rest != []
      invariant multiset(heap) == multiset(rest) + multiset(popped)
      invariant multiset(FramesOf(heap)) == multiset(FramesOf(rest)) + multiset(FramesOf(popped))
      invariant Codec.SizeOf(FramesOf(popped)) + left == remain
      invariant forall i, j :: 0 <= i < j < |popped| ==> popped[i].penalty <= popped[j].penalty
      invariant forall p, q :: p in popped && q in rest ==> p.penalty <= q.penalty
      invariant |rest| + |popped| == |heap|
      decreases |rest|
    {
      TopExists(rest);
      var i: nat :| IsTop(rest, i);
      var top := rest[i];
      if left < top.frame.Size() {
        return;
      }
      PopOne(rest, popped, i);
      left := left - top.frame.Size();
      popped := popped + [top];
      rest := Without(rest, i);
    }
  }

  lemma PopOne(rest: seq<PenaltyFrame>, popped: seq<PenaltyFrame>, i: nat)
    requires IsTop(rest, i)
    requires forall i, j :: 0 <= i < j < |popped| ==> popped[i].penalty <= popped[j].penalty
    requires forall p, q :: p in popped && q in rest ==> p.penalty <= q.penalty
    ensures var rest', popped' := Without(rest, i), popped + [rest[i]];
            && multiset(rest) + multiset(popped) == multiset(rest') + multiset(popped')
            && multiset(FramesOf(rest)) + multiset(FramesOf(popped))
               == multiset(FramesOf(rest')) + multiset(FramesOf(popped'))
            && Codec.SizeOf(FramesOf(popped')) == Codec.SizeOf(FramesOf(popped)) + rest[i].frame.Size()
            && (forall i, j :: 0 <= i < j < |popped'| ==> popped'[i].penalty <= popped'[j].penalty)
            && (forall p, q :: p in popped' && q in rest' ==> p.penalty <= q.penalty)
  {
    var top, rest', popped' := rest[i], Without(rest, i), popped + [rest[i]];
    assert top in rest;
    assert FramesOf(popped') == FramesOf(popped) + [top.frame];
    assert FramesOf(rest') == Without(FramesOf(rest), i);
    WithoutFacts(rest, i);
    WithoutFacts(FramesOf(rest), i);
    SizeAppend(FramesOf(popped), [top.frame]);
    assert [top.frame][1..] == [];
    assert Codec.SizeOf([top.frame]) == top.frame.Size();
    assert forall q :: q in rest' ==> q in rest;
    forall q | q in rest
      ensures top.penalty <= q.penalty
    {
      var j :| 0 <= j < |rest| && rest[j] == q;
    }
  }

  /** Exponential backoff while resending, saturating at the width of a penalty. */
  function Backoff(penalty: Byte): (r: Byte)
    ensures r >= 2 && (penalty > 0 ==> r == 255 || r == 2 * penalty)
  {
    var p := if penalty < 1 then 1 else penalty as int;
    if 2 * p > 255 then 255 else 2 * p
  }

  /** The frames of a lost set as the resend tier takes them. */
  function Penalized(penalty: Byte, frames: seq<Frame>): (r: seq<PenaltyFrame>)
    ensures FramesOf(r) == frames
  {
    seq(|frames|, i requires 0 <= i < |frames| => PenaltyFrame(Backoff(penalty), frames[i]))
  }

  /** A packed set: what each tier gave, in the order the tiers are served. */
  datatype Packed = Packed(resent: seq<PenaltyFrame>, high: seq<PenaltyFrame>, medium: seq<Frame>,
        low: seq<PenaltyFrame>)
  {
    function Frames(): seq<Frame> {
      FramesOf(resent) + FramesOf(high) + medium + FramesOf(low)
    }

    /** The mean resend penalty, or none when a frame is sent for the first time. */
    function Penalty(): nat {
      if Frames() == [] || high != [] || medium != [] || low != [] then 0 else SumOf(resent) / |Frames()|
    }
  }

  datatype Tiers = Tiers(resend: seq<PenaltyFrame>, high: seq<PenaltyFrame>, medium: seq<Frame>, low: seq<PenaltyFrame>)
  {
    ghost function Contents(): (m: multiset<Frame>) {
      multiset(FramesOf(resend)) + multiset(FramesOf(high)) + multiset(medium) + multiset(FramesOf(low))
    }

    /** Nothing can be packed: each tier is empty or its next frame is too large for any set. */
    ghost predicate Blocked(room: nat) {
      Stuck(resend, room) && Stuck(high, room) && (medium == [] || medium[0].Size() > room) && Stuck(low, room)
    }
  }

  lemma MoreToResend(t: Tiers, t': Tiers, more: seq<PenaltyFrame>)
    requires t' == t.(resend := t.resend + more)
    ensures t'.Contents() == t.Contents() + multiset(FramesOf(more))
  {
    assert FramesOf(t'.resend) == FramesOf(t.resend) + FramesOf(more);
  }

  /**
   * A heap gave `popped`, least penalties first, and kept the rest, `after`; it stopped only at a frame
   * larger than `left`.
   */
  ghost predicate TierServed(before: seq<PenaltyFrame>, after: seq<PenaltyFrame>, popped: seq<PenaltyFrame>,
                             left: nat) {
    && multiset(before) == multiset(after) + multiset(popped)
    && multiset(FramesOf(before)) == multiset(FramesOf(after)) + multiset(FramesOf(popped))
    && (forall i, j :: 0 <= i < j < |popped| ==> popped[i].penalty <= popped[j].penalty)
    && (forall p, q :: p in popped && q in after ==> p.penalty <= q.penalty)
    && |after| + |popped| == |before|
    && Stuck(after, left)
  }

  /** Room left after the frames of a tier. */
  ghost function Left(room: int, frames: seq<Frame>): int {
    room - Codec.SizeOf(frames)
  }

  /**
   * The tiers are served in order of priority: resends, then high, medium (first in, first out) and
   * low, each until it is empty or its next frame does not fit what the tiers before it left.
   */
  ghost predicate Served(before: Tiers, after: Tiers, p: Packed, room: nat) {
    var r1 := Left(room, FramesOf(p.resent));
    var r2 := Left(r1, FramesOf(p.high));
    var r3 := Left(r2, p.medium);
    var r4 := Left(r3, FramesOf(p.low));
    && r1 >= 0 && r2 >= 0 && r3 >= 0 && r4 >= 0
    && TierServed(before.resend, after.resend, p.resent, r1)
    && TierServed(before.high, after.high, p.high, r2)
    && before.medium == p.medium + after.medium && (after.medium == [] || after.medium[0].Size() > r3)
    && TierServed(before.low, after.low, p.low, r4)
  }

  /**
   * What serving the tiers means for the buffer: nothing is lost, the set fits, and an empty set means
   * nothing fits.
   */
  lemma ServedFacts(before: Tiers, after: Tiers, p: Packed, room: nat)
    requires Served(before, after, p, room)
    ensures after.Contents() + multiset(p.Frames()) == before.Contents()
    ensures Codec.SizeOf(p.Frames()) <= room
    ensures p.Frames() == [] ==> after.Blocked(room)
  {
    hide TierServed;
    hide Tiers.Contents;
    hide Packed.Frames;
    ServedConserves(before, after, p, room);
    PackedFacts(p);
    if p.Frames() == [] {
      ServedBlocked(before, after, p, room);
    }
  }

  lemma ServedConserves(before: Tiers, after: Tiers, p: Packed, room: nat)
    requires Served(before, after, p, room)
    ensures after.Contents() + multiset(p.Frames()) == before.Contents()
  {
    hide Stuck;
    hide FramesOf;
    hide Codec.SizeOf;
    PackedFacts(p);
    assert multiset(before.medium) == multiset(p.medium) + multiset(after.medium);
    Regroup(
      multiset(FramesOf(after.resend)), multiset(FramesOf(after.high)), multiset(after.medium),
          multiset(FramesOf(after.low)),
      multiset(FramesOf(p.resent)), multiset(FramesOf(p.high)), multiset(p.medium), multiset(FramesOf(p.low)));
  }

  lemma ServedBlocked(before: Tiers, after: Tiers, p: Packed, room: nat)
    requires Served(before, after, p, room) && p.Frames() == []
    ensures after.Blocked(room)
  {
    hide Stuck;
    hide FramesOf;
    hide Codec.SizeOf;
    hide TierServed;
    NoFrames();
    NoneInside(p);
    TierStuck(before.resend, after.resend, p.resent, room);
    TierStuck(before.high, after.high, p.high, room);
    TierStuck(before.low, after.low, p.low, room);
  }

  lemma NoneInside(p: Packed)
    requires p.Frames() == []
    ensures p.resent == [] && p.high == [] && p.medium == [] && p.low == []
    ensures FramesOf(p.resent) == [] && FramesOf(p.high) == [] && FramesOf(p.low) == []
  {
    PackedFacts(p);
    assert |p.Frames()| == 0;
  }

  lemma TierStuck(before: seq<PenaltyFrame>, after: seq<PenaltyFrame>, popped: seq<PenaltyFrame>, left: nat)
    requires TierServed(before, after, popped, left)
    ensures Stuck(after, left)
  {
  }

  lemma {:induction false} SizePermuted(a: seq<Frame>, b: seq<Frame>)
    requires multiset(a) == multiset(b)
    ensures Codec.SizeOf(a) == Codec.SizeOf(b)
    decreases |a|
  {
    if a == [] {
      assert |multiset(b)| == |b|;
    } else {
      assert a[0] in multiset(a);
      var i: nat :| i < |b| && b[i] == a[0];
      WithoutFacts(a, 0);
      WithoutFacts(b, i);
      Cancel(multiset(Without(a, 0)), multiset(Without(b, i)), a[0]);
      SizePermuted(Without(a, 0), Without(b, i));
      WithoutSize(a, 0);
      WithoutSize(b, i);
    }
  }

  lemma Cancel<T>(x: multiset<T>, y: multiset<T>, f: T)
    requires x + multiset{f} == y + multiset{f}
    ensures x == y
  {
    assert x == (x + multiset{f}) - multiset{f};
    assert y == (y + multiset{f}) - multiset{f};
  }

  lemma WithoutSize(frames: seq<Frame>, i: nat)
    requires i < |frames|
    ensures Codec.SizeOf(frames) == frames[i].Size() + Codec.SizeOf(Without(frames, i))
  {
    hide Codec.SizeOf;
    SizeAppend(frames[..i], frames[i + 1..]);
    SizeAppend(frames[..i], frames[i..]);
    assert frames == frames[..i] + frames[i..];
    SizeFrom(frames, i);
  }

  lemma SizeFrom(frames: seq<Frame>, i: nat)
    requires i < |frames|
    ensures Codec.SizeOf(frames[i..]) == frames[i].Size() + Codec.SizeOf(frames[i + 1..])
  {
    assert frames[i..][1..] == frames[i + 1..];
  }

  lemma {:induction false} SizeAtLeast(frames: seq<Frame>, i: nat)
    requires i < |frames|
    ensures frames[i].Size() <= Codec.SizeOf(frames)
  {
    if i > 0 {
      SizeAtLeast(frames[1..], i - 1);
    }
  }

  lemma TierWhole(rest: seq<PenaltyFrame>, left: nat)
    requires Stuck(rest, left) && Codec.SizeOf(FramesOf(rest)) <= left
    ensures rest == []
  {
    if rest != [] {
      var i: nat :| IsTop(rest, i) && rest[i].frame.Size() > left;
      SizeAtLeast(FramesOf(rest), i);
    }
  }

  lemma MediumWhole(rest: seq<Frame>, left: nat)
    requires (rest == [] || rest[0].Size() > left) && Codec.SizeOf(rest) <= left
    ensures rest == []
  {
  }

  /** When all that waits fits the room, all of it is packed. */
  lemma ServedWhole(before: Tiers, after: Tiers, p: Packed, room: nat, frames: seq<Frame>)
    requires Served(before, after, p, room) && multiset(frames) == before.Contents() && Codec.SizeOf(frames) <= room
    ensures multiset(p.Frames()) == before.Contents()
  {
    hide TierServed;
    hide Tiers.Contents;
    hide Packed.Frames;
    hide FramesOf;
    ServedConserves(before, after, p, room);
    PackedFacts(p);
    var rest := FramesOf(after.resend) + FramesOf(after.high) + after.medium + FramesOf(after.low);
    RestFrames(after);
    assert multiset(p.Frames() + rest) == multiset(frames);
    SizePermuted(p.Frames() + rest, frames);
    SizeAppend(p.Frames(), rest);
    EmptiedTiers(before, after, p, room);
  }

  lemma RestFrames(t: Tiers)
    ensures var rest := FramesOf(t.resend) + FramesOf(t.high) + t.medium + FramesOf(t.low);
            && multiset(rest) == t.Contents()
            && Codec.SizeOf(rest) == Codec.SizeOf(FramesOf(t.resend)) + Codec.SizeOf(FramesOf(t.high))
               + Codec.SizeOf(t.medium) + Codec.SizeOf(FramesOf(t.low))
  {
    hide FramesOf;
    SizeAppend(FramesOf(t.resend), FramesOf(t.high));
    SizeAppend(FramesOf(t.resend) + FramesOf(t.high), t.medium);
    SizeAppend(FramesOf(t.resend) + FramesOf(t.high) + t.medium, FramesOf(t.low));
  }

  lemma EmptiedTiers(before: Tiers, after: Tiers, p: Packed, room: nat)
    requires Served(before, after, p, room)
    requires Codec.SizeOf(FramesOf(p.resent)) + Codec.SizeOf(FramesOf(p.high)) + Codec.SizeOf(p.medium)
             + Codec.SizeOf(FramesOf(p.low))
             + Codec.SizeOf(FramesOf(after.resend)) + Codec.SizeOf(FramesOf(after.high)) + Codec.SizeOf(after.medium)
                 + Codec.SizeOf(FramesOf(after.low)) <= room
    ensures after.Contents() == multiset{}
  {
    hide FramesOf;
    hide Stuck;
    TierWhole(after.resend, Left(room, FramesOf(p.resent)));
    TierWhole(after.high, Left(Left(room, FramesOf(p.resent)), FramesOf(p.high)));
    MediumWhole(after.medium, Left(Left(Left(room, FramesOf(p.resent)), FramesOf(p.high)), p.medium));
    TierWhole(after.low, Left(Left(Left(Left(room, FramesOf(p.resent)), FramesOf(p.high)), p.medium), FramesOf(p.low)));
    NoFrames();
  }

  lemma NoFrames()
    ensures FramesOf([]) == [] && Codec.SizeOf([]) == 0
  {
  }

  lemma Regroup(a: multiset<Frame>, b: multiset<Frame>, c: multiset<Frame>, d: multiset<Frame>,
                w: multiset<Frame>, x: multiset<Frame>, y: multiset<Frame>, z: multiset<Frame>)
    ensures (a + b + c + d) + (w + x + y + z) == (a + w) + (b + x) + (y + c) + (d + z)
  {
  }

  /** The contents grow by the frame, whichever tier it joins. */
  lemma OneMore(t: Tiers, priority: Priority, f: Frame)
    ensures var t' := match priority
                      case High(penalty) => t.(high := t.high + [PenaltyFrame(penalty, f)])
                      case Medium => t.(medium := t.medium + [f])
                      case Low(penalty) => t.(low := t.low + [PenaltyFrame(penalty, f)]);
            t'.Contents() == t.Contents() + multiset{f}
  {
    match priority
    case High(penalty) => assert FramesOf(t.high + [PenaltyFrame(penalty, f)]) == FramesOf(t.high) + [f];
    case Medium =>
    case Low(penalty) => assert FramesOf(t.low + [PenaltyFrame(penalty, f)]) == FramesOf(t.low) + [f];
  }

  class SendBuffer {
    var sendHigh: seq<PenaltyFrame>
    var sendMedium: seq<Frame>
    var sendLow: seq<PenaltyFrame>
    var resend: seq<PenaltyFrame>

    function AsTiers(): Tiers
      reads this
    {
      Tiers(resend, sendHigh, sendMedium, sendLow)
    }

    ghost function Contents(): (m: multiset<Frame>)
      reads this
    {
      AsTiers().Contents()
    }

    constructor ()
      ensures Contents() == multiset{} && Len() == 0
    {
      sendHigh, sendMedium, sendLow, resend := [], [], [], [];
    }

    function Len(): (n: nat)
      reads this
      ensures n == |Contents()|
    {
      |sendHigh| + |sendMedium| + |sendLow| + |resend|
    }

    method Send(priority: Priority, frame: Frame)
      modifies this
      ensures Contents() == old(Contents()) + multiset{frame}
      ensures priority.High? ==> sendHigh == old(sendHigh) + [PenaltyFrame(priority.penalty, frame)]
      ensures priority.Medium? ==> sendMedium == old(sendMedium) + [frame]
      ensures priority.Low? ==> sendLow == old(sendLow) + [PenaltyFrame(priority.penalty, frame)]
    {
      hide FramesOf;
      hide Tiers.Contents;
      OneMore(AsTiers(), priority, frame);
      match priority
      case High(penalty) =>
        sendHigh := sendHigh + [PenaltyFrame(penalty, frame)];
      case Medium =>
        sendMedium := sendMedium + [frame];
      case Low(penalty) =>
        sendLow := sendLow + [PenaltyFrame(penalty, frame)];
    }

    /** Queue a lost set again, its frames inheriting the penalty of the set with backoff. */
    method Resend(penalty: Byte, frames: seq<Frame>)
      modifies this`resend
      ensures Contents() == old(Contents()) + multiset(frames)
      ensures resend == old(resend) + Penalized(penalty, frames)
    {
      resend := resend + Penalized(penalty, frames);
      assert FramesOf(resend) == FramesOf(old(resend)) + frames;
    }

    method PopMedium(remain: nat) returns (popped: seq<Frame>, left: nat)
      modifies this`sendMedium
      ensures old(sendMedium) == popped + sendMedium
      ensures Codec.SizeOf(popped) + left == remain
      ensures sendMedium == [] || sendMedium[0].Size() > left
    {
      popped, left := [], remain;
      while sendMedium != [] && left >= sendMedium[0].Size()
        invariant old(sendMedium) == popped + sendMedium
        invariant Codec.SizeOf(popped) + left == remain
        decreases |sendMedium|
      {
        SizeAppend(popped, [sendMedium[0]]);
        assert [sendMedium[0]][1..] == [];
        left := left - sendMedium[0].Size();
        popped := popped + [sendMedium[0]];
        sendMedium := sendMedium[1..];
      }
    }

    /** Serve the tiers in order of priority, each while its next frame fits. */
    method Pack(mtu: nat) returns (p: Packed)
      requires mtu >= FRAME_SET_HEADER_SIZE
      modifies this
      ensures Served(old(AsTiers()), AsTiers(), p, mtu - FRAME_SET_HEADER_SIZE)
    {
      hide Stuck;
      hide TierServed;
      hide FramesOf;
      hide Codec.SizeOf;
      var remain := mtu - FRAME_SET_HEADER_SIZE;
      var resent, high, medium, low;
      resend, resent, remain := PopFitting(resend, remain);
      sendHigh, high, remain := PopFitting(sendHigh, remain);
      medium, remain := PopMedium(remain);
      sendLow, low, remain := PopFitting(sendLow, remain);
      p := Packed(resent, high, medium, low);
    }

    /** One set: its frames, whether any is reliable, and the penalty it carries. */
    method Pop(mtu: nat) returns (frames: seq<Frame>, reliable: bool, penalty: Byte, ghost p: Packed)
      requires mtu >= FRAME_SET_HEADER_SIZE
      modifies this
      ensures Served(old(AsTiers()), AsTiers(), p, mtu - FRAME_SET_HEADER_SIZE)
      ensures frames == p.Frames() && penalty == p.Penalty()
      ensures reliable == Sender.AnyReliable(frames)
    {
      hide Served;
      var packed := Pack(mtu);
      p := packed;
      frames := packed.Frames();
      reliable := false;
      for i := 0 to |frames|
        invariant reliable <==> exists k :: 0 <= k < i && frames[k].IsReliable()
      {
        if frames[i].IsReliable() {
          reliable := true;
        }
      }
      PenaltyFits(packed);
      penalty := packed.Penalty();
    }
  }

  lemma PackedFacts(p: Packed)
    ensures multiset(p.Frames())
            == multiset(FramesOf(p.resent)) + multiset(FramesOf(p.high)) + multiset(p.medium)
            + multiset(FramesOf(p.low))
    ensures Codec.SizeOf(p.Frames())
            == Codec.SizeOf(FramesOf(p.resent)) + Codec.SizeOf(FramesOf(p.high)) + Codec.SizeOf(p.medium)
            + Codec.SizeOf(FramesOf(p.low))
    ensures |p.Frames()| == |p.resent| + |p.high| + |p.medium| + |p.low|
  {
    SizeAppend(FramesOf(p.resent), FramesOf(p.high));
    SizeAppend(FramesOf(p.resent) + FramesOf(p.high), p.medium);
    SizeAppend(FramesOf(p.resent) + FramesOf(p.high) + p.medium, FramesOf(p.low));
  }

  lemma {:induction false} SumBound(popped: seq<PenaltyFrame>)
    ensures SumOf(popped) <= 255 * |popped|
  {
    if popped != [] {
      SumBound(popped[..|popped| - 1]);
    }
  }

  lemma PenaltyFits(p: Packed)
    ensures p.Penalty() <= 255
  {
    if p.Frames() != [] && p.high == [] && p.medium == [] && p.low == [] {
      SumBound(p.resent);
      var n := |p.Frames()|;
      assert n == |p.resent|;
      DivBound(SumOf(p.resent), n);
    }
  }

  lemma DivBound(x: nat, n: nat)
    requires n > 0 && x <= 255 * n
    ensures x / n <= 255
  {
    var q := x / n;
    assert q * n <= x;
    assert q >= 256 ==> q * n >= 256 * n;
  }

  /** When every waiting frame fits a set by itself, only an empty buffer yields an empty set. */
  lemma NeverBlocked(t: Tiers, room: nat)
    requires t.Blocked(room) && forall f :: f in t.Contents() ==> f.Size() <= room
    ensures t.Contents() == multiset{}
  {
    TierEmpty(t.resend, room);
    TierEmpty(t.high, room);
    TierEmpty(t.low, room);
    MediumEmpty(t.medium, room);
  }

  lemma MediumEmpty(tier: seq<Frame>, room: nat)
    requires tier == [] || tier[0].Size() > room
    ensures (forall f :: f in multiset(tier) ==> f.Size() <= room) ==> tier == []
  {
    if tier != [] {
      assert tier[0] in multiset(tier);
    }
  }

  lemma TierEmpty(tier: seq<PenaltyFrame>, room: nat)
    requires Stuck(tier, room)
    ensures (forall f :: f in multiset(FramesOf(tier)) ==> f.Size() <= room) ==> tier == []
  {
    if tier != [] {
      var i: nat :| IsTop(tier, i) && tier[i].frame.Size() > room;
      assert FramesOf(tier)[i] in multiset(FramesOf(tier));
    }
  }
}
