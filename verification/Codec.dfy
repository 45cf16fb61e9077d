/** The wire form of frame sets: every field as bytes, and the reader that takes them apart again. */
module Codec {
  import opened Types

  type Bytes = seq<Byte>

  function U24Le(n: U24): (b: Bytes)
    ensures |b| == 3
  {
    [n % 256, n / 256 % 256, n / 65536]
  }

  function U16Be(n: U16): (b: Bytes)
    ensures |b| == 2
  {
    [n / 256, n % 256]
  }

  function U32Be(n: U32): (b: Bytes)
    ensures |b| == 4
  {
    [n / 0x100_0000, n / 65536 % 256, n / 256 % 256, n % 256]
  }

  function GetU24Le(b: Bytes, at: nat): (n: U24)
    requires at + 3 <= |b|
  {
    b[at] as int + 256 * (b[at + 1] as int) + 65536 * (b[at + 2] as int)
  }

  function GetU16Be(b: Bytes, at: nat): (n: U16)
    requires at + 2 <= |b|
  {
    256 * (b[at] as int) + b[at + 1] as int
  }

  function GetU32Be(b: Bytes, at: nat): (n: U32)
    requires at + 4 <= |b|
  {
    0x100_0000 * (b[at] as int) + 65536 * (b[at + 1] as int) + 256 * (b[at + 2] as int) + b[at + 3] as int
  }

  /** The fields the flags announce are present, and no others. */
  predicate FieldsMatch(f: Frame) {
    && (f.reliableIndex.Some? <==> f.flags.reliability.IsReliable())
    && (f.seqIndex.Some? <==> f.flags.reliability.IsSequenced())
    && (f.ordered.Some? <==> f.flags.reliability.IsSequencedOrOrdered())
    && (f.fragment.Some? <==> f.flags.parted)
  }

  /** The body length is written in bits in 16 bits, and zero is rejected. */
  predicate WellFormed(f: Frame) {
    FieldsMatch(f) && f.flags == Flags.Parse(f.flags.raw) && 0 < |f.body| < 8192
  }

  function OptionalU24(n: Option<U24>): Bytes {
    if n.Some? then U24Le(n.value) else []
  }

  function OrderedBytes(o: Option<Ordered>): Bytes {
    if o.Some? then U24Le(o.value.frameIndex) + [o.value.channel] else []
  }

  function FragmentBytes(f: Option<Fragment>): Bytes {
    if f.Some? then U32Be(f.value.partedSize) + U16Be(f.value.partedId) + U32Be(f.value.partedIndex) else []
  }

  /** The fields after the fixed header. */
  function FieldBytes(f: Frame): (b: Bytes) {
    OptionalU24(f.reliableIndex)
        + (OptionalU24(f.seqIndex) + (OrderedBytes(f.ordered) + (FragmentBytes(f.fragment) + f.body)))
  }

  function FrameBytes(f: Frame): (b: Bytes) {
    [f.flags.raw] + U16Be(8 * |f.body| % 0x1_0000) + FieldBytes(f)
  }

  /** The written length is the size the packing loop budgets with. */
  lemma FrameSize(f: Frame)
    requires FieldsMatch(f)
    ensures |FrameBytes(f)| == f.Size()
  {
  }

  /** One field taken off the front of a buffer. */
  function TakeU24(present: bool, b: Bytes): (r: Result<(Option<U24>, Bytes)>) {
    if !present then Ok((None, b))
    else if |b| < 3 then Err(InvalidPacketLength)
    else Ok((Some(GetU24Le(b, 0)), b[3..]))
  }

  function TakeOrdered(present: bool, b: Bytes): (r: Result<(Option<Ordered>, Bytes)>) {
    if !present then Ok((None, b))
    else if |b| < 4 then Err(InvalidPacketLength)
    else Ok((Some(Ordered(GetU24Le(b, 0), b[3])), b[4..]))
  }

  function TakeFragment(present: bool, b: Bytes): (r: Result<(Option<Fragment>, Bytes)>) {
    if !present then Ok((None, b))
    else if |b| < 10 then Err(InvalidPacketLength)
    else Ok((Some(Fragment(GetU32Be(b, 0), GetU16Be(b, 4), GetU32Be(b, 6))), b[10..]))
  }

  /** One frame off the front of a buffer, and the bytes after it. */
  function ReadFrame(b: Bytes): (r: Result<(Frame, Bytes)>)
    ensures r.Ok? ==> WellFormed(r.value.0) && |r.value.1| < |b|
  {
    if |b| < 3 then Err(InvalidPacketLength)
    else
      var flags, length := Flags.Parse(b[0]), GetU16Be(b, 1) / 8;
      if length == 0 then Err(InvalidPacketLength)
      else
        var rel := flags.reliability;
        match TakeU24(rel.IsReliable(), b[3..])
        case Err(e) => Err(e)
        case Ok((reliableIndex, b1)) =>
          match TakeU24(rel.IsSequenced(), b1)
          case Err(e) => Err(e)
          case Ok((seqIndex, b2)) =>
            match TakeOrdered(rel.IsSequencedOrOrdered(), b2)
            case Err(e) => Err(e)
            case Ok((ordered, b3)) =>
              match TakeFragment(flags.parted, b3)
              case Err(e) => Err(e)
              case Ok((fragment, b4)) =>
                if |b4| < length then Err(InvalidPacketLength)
                else Ok((Frame(flags, reliableIndex, seqIndex, ordered, fragment, b4[..length]), b4[length..]))
  }

  lemma U16RoundTrip(n: U16, rest: Bytes)
    ensures GetU16Be(U16Be(n) + rest, 0) == n && (U16Be(n) + rest)[2..] == rest
  {
  }

  lemma U24Digits(n: U24)
    ensures n == n % 256 + 256 * (n / 256 % 256) + 65536 * (n / 65536)
  {
    var a := n / 256;
    assert n == 256 * a + n % 256 && a / 256 == n / 65536 && a == 256 * (a / 256) + a % 256;
  }

  lemma U24Read(n: U24, b: Bytes)
    requires 3 <= |b| && b[0] == U24Le(n)[0] && b[1] == U24Le(n)[1] && b[2] == U24Le(n)[2]
    ensures GetU24Le(b, 0) == n
  {
    U24Digits(n);
  }

  lemma U24RoundTrip(n: U24, rest: Bytes)
    ensures TakeU24(true, U24Le(n) + rest) == Ok((Some(n), rest))
  {
    hide U24Le;
    hide GetU24Le;
    U24Read(n, U24Le(n) + rest);
    assert (U24Le(n) + rest)[3..] == rest;
  }

  lemma OptionalRoundTrip(n: Option<U24>, rest: Bytes)
    ensures TakeU24(n.Some?, OptionalU24(n) + rest) == Ok((n, rest))
  {
    if n.Some? {
      U24RoundTrip(n.value, rest);
    } else {
      assert OptionalU24(n) + rest == rest;
    }
  }

  lemma OrderedRoundTrip(o: Option<Ordered>, rest: Bytes)
    ensures TakeOrdered(o.Some?, OrderedBytes(o) + rest) == Ok((o, rest))
  {
    hide U24Le;
    hide GetU24Le;
    var b := OrderedBytes(o) + rest;
    if o.Some? {
      U24Read(o.value.frameIndex, b);
      assert b[4..] == rest;
    } else {
      assert b == rest;
    }
  }

  lemma U32Digits(n: U32)
    ensures n == 0x100_0000 * (n / 0x100_0000) + 65536 * (n / 65536 % 256) + 256 * (n / 256 % 256) + n % 256
  {
    var a, b := n / 256, n / 65536;
    assert a / 256 == b && b / 256 == n / 0x100_0000;
    assert n == 256 * a + n % 256 && a == 256 * b + a % 256 && b == 256 * (b / 256) + b % 256;
  }

  lemma U32RoundTrip(n: U32, b: Bytes, at: nat)
    requires at + 4 <= |b| && b[at..at + 4] == U32Be(n)
    ensures GetU32Be(b, at) == n
  {
    U32Digits(n);
    var w := b[at..at + 4];
    assert w[0] == b[at] && w[1] == b[at + 1] && w[2] == b[at + 2] && w[3] == b[at + 3];
  }

  lemma FragmentRoundTrip(f: Option<Fragment>, rest: Bytes)
    ensures TakeFragment(f.Some?, FragmentBytes(f) + rest) == Ok((f, rest))
  {
    var b := FragmentBytes(f) + rest;
    if f.Some? {
      assert b[10..] == rest;
      assert b[0..4] == U32Be(f.value.partedSize);
      assert b[6..10] == U32Be(f.value.partedIndex);
      U32RoundTrip(f.value.partedSize, b, 0);
      U32RoundTrip(f.value.partedIndex, b, 6);
      assert b[4] == U16Be(f.value.partedId)[0] && b[5] == U16Be(f.value.partedId)[1];
    } else {
      assert b == rest;
    }
  }

  /** Reading back a well-formed frame, whatever follows it. */
  lemma FrameRoundTrip(f: Frame, rest: Bytes)
    requires WellFormed(f)
    ensures ReadFrame(FrameBytes(f) + rest) == Ok((f, rest))
  {
    hide OptionalU24;
    hide OrderedBytes;
    hide FragmentBytes;
    hide TakeU24;
    hide TakeOrdered;
    hide TakeFragment;
    hide FieldBytes;
    hide FrameBytes;
    var b := FrameBytes(f) + rest;
    var t4 := f.body + rest;
    var t3 := FragmentBytes(f.fragment) + t4;
    var t2 := OrderedBytes(f.ordered) + t3;
    var t1 := OptionalU24(f.seqIndex) + t2;
    FrameHead(f, rest);
    FieldsThen(f, rest);
    OptionalRoundTrip(f.reliableIndex, t1);
    OptionalRoundTrip(f.seqIndex, t2);
    OrderedRoundTrip(f.ordered, t3);
    FragmentRoundTrip(f.fragment, t4);
    assert t4[..|f.body|] == f.body && t4[|f.body|..] == rest;
  }

  lemma FrameHead(f: Frame, rest: Bytes)
    requires WellFormed(f)
    ensures var b := FrameBytes(f) + rest;
            |b| >= 3 && b[3..] == FieldBytes(f) + rest && b[0] == f.flags.raw && GetU16Be(b, 1) == 8 * |f.body|
  {
    hide FieldBytes;
  }

  /** The fields and whatever follows, regrouped the way the reader takes them. */
  lemma FieldsThen(f: Frame, rest: Bytes)
    ensures FieldBytes(f) + rest
            == OptionalU24(f.reliableIndex)
                + (OptionalU24(f.seqIndex) + (OrderedBytes(f.ordered) + (FragmentBytes(f.fragment) + (f.body + rest))))
  {
    hide OptionalU24;
    hide OrderedBytes;
    hide FragmentBytes;
    var t3 := FragmentBytes(f.fragment) + f.body;
    var t2 := OrderedBytes(f.ordered) + t3;
    var t1 := OptionalU24(f.seqIndex) + t2;
    Associate(FragmentBytes(f.fragment), f.body, rest);
    Associate(OrderedBytes(f.ordered), t3, rest);
    Associate(OptionalU24(f.seqIndex), t2, rest);
    Associate(OptionalU24(f.reliableIndex), t1, rest);
  }

  /** A frame without a body is rejected. */
  lemma EmptyBodyRejected(f: Frame, rest: Bytes)
    requires f.body == []
    ensures ReadFrame(FrameBytes(f) + rest).Err?
  {
    var b := FrameBytes(f) + rest;
    assert b[1] == 0 && b[2] == 0;
  }

  lemma FrameNotEmpty(f: Frame)
    ensures FrameBytes(f) != []
  {
  }

  function FramesBytes(frames: seq<Frame>): (b: Bytes) {
    if frames == [] then [] else FrameBytes(frames[0]) + FramesBytes(frames[1..])
  }

  /** Frames until the buffer is used up. */
  function ReadFrames(b: Bytes): (r: Result<seq<Frame>>)
    decreases |b|
  {
    if b == [] then Ok([])
    else
      match ReadFrame(b)
      case Err(e) => Err(e)
      case Ok((f, rest)) =>
        match ReadFrames(rest)
        case Err(e) => Err(e)
        case Ok(frames) => Ok([f] + frames)
  }

  lemma {:induction false} FramesRoundTrip(frames: seq<Frame>)
    requires forall f :: f in frames ==> WellFormed(f)
    ensures ReadFrames(FramesBytes(frames)).Ok? && ReadFrames(FramesBytes(frames)).value == frames
  {
    hide FrameBytes;
    hide ReadFrame;
    if frames != [] {
      FrameNotEmpty(frames[0]);
      FrameRoundTrip(frames[0], FramesBytes(frames[1..]));
      FramesRoundTrip(frames[1..]);
    }
  }

  lemma {:induction false} ReadFramesWellFormed(b: Bytes)
    ensures ReadFrames(b).Ok? ==> forall f :: f in ReadFrames(b).value ==> WellFormed(f)
    decreases |b|
  {
    if b != [] && ReadFrame(b).Ok? {
      ReadFramesWellFormed(ReadFrame(b).value.1);
    }
  }

  /** One frame without a body makes its whole set unreadable. */
  lemma {:induction false} EmptyBodyPoisons(frames: seq<Frame>)
    requires forall f :: f in frames ==> f.body == [] || WellFormed(f)
    requires exists f :: f in frames && f.body == []
    ensures ReadFrames(FramesBytes(frames)).Err?
  {
    if frames[0].body == [] {
      EmptyBodyRejected(frames[0], FramesBytes(frames[1..]));
    } else {
      FrameRoundTrip(frames[0], FramesBytes(frames[1..]));
      EmptyBodyPoisons(frames[1..]);
    }
  }

  datatype FrameSet = FrameSet(seqNum: U24, frames: seq<Frame>)

  function FrameSetBytes(s: FrameSet): (b: Bytes) {
    U24Le(s.seqNum) + FramesBytes(s.frames)
  }

  function ParseFrameSet(b: Bytes): (r: Result<FrameSet>) {
    if |b| < 3 then Err(InvalidPacketLength)
    else
      match ReadFrames(b[3..])
      case Err(e) => Err(e)
      case Ok(frames) => if frames == [] then Err(InvalidPacketLength) else Ok(FrameSet(GetU24Le(b, 0), frames))
  }

  /** A written set reads back as itself exactly when it holds frames and all of them are well formed. */
  lemma FrameSetRoundTrip(s: FrameSet)
    ensures ParseFrameSet(FrameSetBytes(s)) == Ok(s) <==> s.frames != [] && forall f :: f in s.frames ==> WellFormed(f)
  {
    var b := FrameSetBytes(s);
    assert b[3..] == FramesBytes(s.frames) && GetU24Le(b, 0) == s.seqNum;
    ReadFramesWellFormed(b[3..]);
    if forall f :: f in s.frames ==> WellFormed(f) {
      FramesRoundTrip(s.frames);
    }
  }

  /** Total size of a run of frames as the packing loop counts it. */
  function SizeOf(frames: seq<Frame>): nat {
    if frames == [] then 0 else frames[0].Size() + SizeOf(frames[1..])
  }

  lemma SizeOfOne(f: Frame)
    ensures SizeOf([f]) == f.Size()
  {
    assert [f][1..] == [];
  }

  lemma {:induction false} FramesSize(frames: seq<Frame>)
    requires forall f :: f in frames ==> FieldsMatch(f)
    ensures |FramesBytes(frames)| == SizeOf(frames)
  {
    if frames != [] {
      FrameSize(frames[0]);
      FramesSize(frames[1..]);
    }
  }

  /** The loop that writes a frame set. */
  method WriteFrameSet(s: FrameSet) returns (buf: Bytes)
    ensures buf == FrameSetBytes(s)
  {
    hide FrameBytes;
    hide U24Le;
    buf := U24Le(s.seqNum);
    for i := 0 to |s.frames|
      invariant buf + FramesBytes(s.frames[i..]) == FrameSetBytes(s)
    {
      assert s.frames[i..][1..] == s.frames[i + 1..];
      Associate(buf, FrameBytes(s.frames[i]), FramesBytes(s.frames[i + 1..]));
      buf := buf + FrameBytes(s.frames[i]);
    }
    assert FramesBytes(s.frames[|s.frames|..]) == [];
  }

  /** The loop that reads a frame set. */
  method ReadFrameSet(input: Bytes) returns (r: Result<FrameSet>)
    ensures r == ParseFrameSet(input)
  {
    hide ReadFrame;
    if |input| < 3 {
      return Err(InvalidPacketLength);
    }
    var seqNum := GetU24Le(input, 0);
    var frames: seq<Frame> := [];
    var buf := input[3..];
    while buf != []
      invariant match ReadFrames(buf)
                case Err(e) => ReadFrames(input[3..]) == Err(e)
                case Ok(more) => ReadFrames(input[3..]).Ok? && ReadFrames(input[3..]).value == frames + more
      decreases |buf|
    {
      var next := ReadFrame(buf);
      if next.Err? {
        return Err(next.error);
      }
      assert forall more: seq<Frame> :: frames + ([next.value.0] + more) == frames + [next.value.0] + more;
      frames := frames + [next.value.0];
      buf := next.value.1;
    }
    assert frames + [] == frames;
    if frames == [] {
      return Err(InvalidPacketLength);
    }
    return Ok(FrameSet(seqNum, frames));
  }
}
