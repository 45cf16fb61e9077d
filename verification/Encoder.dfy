/** The encoder: messages become frames, split to the MTU, with reliable, order and parted indices assigned. */
module Encoder {
  import opened Types

  /** The write counters of the encoder. */
  datatype Counters = Counters(reliableNext: nat, orderNext: seq<nat>, partedNext: nat)

  function Initial(channels: nat): Counters {
    Counters(0, seq(channels, _ => 0), 0)
  }

  function MaxLen(mtu: nat, r: Reliability): int {
    mtu - FRAME_SET_HEADER_SIZE - r.Size()
  }

  /** A message that must be split cannot stay unreliable. */
  function Upgraded(r: Reliability): (r': Reliability)
    ensures r'.IsReliable() && (r.IsReliable() ==> r' == r)
    ensures r'.IsSequencedOrOrdered() == r.IsSequencedOrOrdered() && r'.IsSequenced() == r.IsSequenced()
  {
    match r
    case Unreliable => Reliable
    case UnreliableSequenced => ReliableSequenced
    case UnreliableWithAckReceipt => ReliableWithAckReceipt
    case _ => r
  }

  /** The reliability a message is sent with. */
  function Effective(mtu: nat, msg: Message): Reliability {
    if |msg.data| > MaxLen(mtu, msg.reliability) then Upgraded(msg.reliability) else msg.reliability
  }

  predicate NeedsSplit(mtu: nat, msg: Message) {
    |msg.data| > MaxLen(mtu, Effective(mtu, msg))
  }

  /** The upgrade never turns a message that must be split into one that need not be, nor the other way round. */
  lemma UpgradeIffSplit(mtu: nat, msg: Message)
    ensures NeedsSplit(mtu, msg) <==> |msg.data| > MaxLen(mtu, msg.reliability)
    ensures NeedsSplit(mtu, msg) ==> Effective(mtu, msg).IsReliable()
    ensures !NeedsSplit(mtu, msg) ==> Effective(mtu, msg) == msg.reliability
  {
  }

  /** Body bytes carried by one part. */
  function PerLen(mtu: nat, msg: Message): int {
    MaxLen(mtu, Effective(mtu, msg)) - FRAGMENT_PART_SIZE
  }

  /** The data cut into pieces of `per` bytes, the last one possibly shorter. */
  function Chunks(data: seq<Byte>, per: nat): (c: seq<seq<Byte>>)
    requires per > 0
    ensures |c| >= 1
    ensures forall i :: 0 <= i < |c| ==> |c[i]| <= per && (data != [] ==> c[i] != [])
  {
    if |data| <= per then [data] else [data[..per]] + Chunks(data[per..], per)
  }

  lemma ChunkStep(body: seq<Byte>, per: nat)
    requires per > 0
    ensures var cut, chunks := if per <= |body| then per else |body|, Chunks(body, per);
            && chunks[0] == body[..cut]
            && (|chunks| == 1 ==> body[cut..] == [])
            && (|chunks| > 1 ==> Chunks(body[cut..], per) == chunks[1..])
  {
  }

  function Concat(c: seq<seq<Byte>>): (data: seq<Byte>) {
    if c == [] then [] else c[0] + Concat(c[1..])
  }

  lemma {:induction false} ChunksConcat(data: seq<Byte>, per: nat)
    requires per > 0
    ensures Concat(Chunks(data, per)) == data
  {
    if |data| > per {
      ChunksConcat(data[per..], per);
      assert Chunks(data, per)[1..] == Chunks(data[per..], per);
    } else {
      assert [data][1..] == [];
    }
  }

  lemma DivShift(x: nat, d: nat)
    requires d > 0
    ensures (x + d) / d == x / d + 1
  {
    var q, r := x / d, x % d;
    assert x + d == (q + 1) * d + r;
    DivUnique(x + d, d, q + 1, r);
  }

  lemma DivUnique(x: nat, d: nat, q: nat, r: nat)
    requires d > 0 && x == q * d + r && r < d
    ensures x / d == q
  {
    var q', r' := x / d, x % d;
    assert x == q' * d + r';
    assert (q - q') * d == q * d - q' * d == -((q' - q) * d);
    if q > q' {
      MultipleAtLeast(q - q', d);
    } else if q < q' {
      MultipleAtLeast(q' - q, d);
    }
  }

  lemma MultipleAtLeast(k: nat, d: nat)
    requires k >= 1
    ensures k * d >= d
  {
  }

  /** The rounded-up quotient the source computes is the number of pieces. */
  lemma {:induction false} ChunkCount(data: seq<Byte>, per: nat)
    requires per > 0 && data != []
    ensures |Chunks(data, per)| == (|data| + per - 1) / per
  {
    if |data| > per {
      ChunkCount(data[per..], per);
      DivShift(|data| - 1, per);
    } else {
      DivUnique(|data| + per - 1, per, 1, |data| - 1);
    }
  }

  /**
   * What the source demands of a send: the channel exists, an MTU above the headers, and counters
   * that stay inside their width (the checked additions panic otherwise).
   */
  predicate CanSend(mtu: nat, st: Counters, msg: Message) {
    && msg.orderChannel < |st.orderNext|
    && PerLen(mtu, msg) > 0
    && st.reliableNext + |Pieces(mtu, msg)| < U24_LIMIT
    && st.orderNext[msg.orderChannel] + 1 < U24_LIMIT
    && st.partedNext < U16_LIMIT
    && |msg.data| < 0x1_0000_0000
  }

  /** The bodies of the frames of a message. */
  function Pieces(mtu: nat, msg: Message): (p: seq<seq<Byte>>)
    requires PerLen(mtu, msg) > 0
    ensures |p| >= 1
    ensures NeedsSplit(mtu, msg) ==> |p| >= 2
  {
    if NeedsSplit(mtu, msg) then Chunks(msg.data, PerLen(mtu, msg)) else [msg.data]
  }

  lemma {:induction false} ChunksAtMost(data: seq<Byte>, per: nat)
    requires per > 0
    ensures |Chunks(data, per)| <= |data| + 1
    ensures data != [] ==> |Chunks(data, per)| <= |data|
  {
    if |data| > per {
      ChunksAtMost(data[per..], per);
    }
  }

  function OrderedPart(st: Counters, mtu: nat, msg: Message): Option<Ordered>
    requires CanSend(mtu, st, msg)
  {
    if Effective(mtu, msg).IsSequencedOrOrdered() then Some(Ordered(st.orderNext[msg.orderChannel], msg.orderChannel))
        else None
  }

  /** Piece `i` of a message as a frame. */
  function Piece(r: Reliability, base: nat, ordered: Option<Ordered>, id: Option<U16>, pieces: seq<seq<Byte>>,
                 i: nat): (f: Frame)
    requires base + |pieces| <= U24_LIMIT && i < |pieces|
  {
    Frame(
      Flags.New(r, id.Some?),
      if r.IsReliable() then Some(base + i) else None,
      None,
      ordered,
      if id.Some? then Some(Fragment(|pieces|, id.value, i)) else None,
      pieces[i])
  }

  function PieceFrames(r: Reliability, base: nat, ordered: Option<Ordered>, id: Option<U16>,
                       pieces: seq<seq<Byte>>): (frames: seq<Frame>)
    requires base + |pieces| <= U24_LIMIT
  {
    seq(|pieces|, i requires 0 <= i < |pieces| => Piece(r, base, ordered, id, pieces, i))
  }

  /** The frames of a message, in the order they are handed down. */
  function Frames(mtu: nat, st: Counters, msg: Message): (frames: seq<Frame>)
    requires CanSend(mtu, st, msg)
  {
    PieceFrames(
      Effective(mtu, msg), st.reliableNext, OrderedPart(st, mtu, msg),
      if NeedsSplit(mtu, msg) then Some(st.partedNext) else None, Pieces(mtu, msg))
  }

  function Tagged(priority: Priority, frames: seq<Frame>): seq<(Priority, Frame)> {
    seq(|frames|, i requires 0 <= i < |frames| => (priority, frames[i]))
  }

  /** The counters after a message; the parted id wraps at 16 bits. */
  function After(mtu: nat, st: Counters, msg: Message): Counters
    requires CanSend(mtu, st, msg)
  {
    var r := Effective(mtu, msg);
    Counters(
      if r.IsReliable() then st.reliableNext + |Pieces(mtu, msg)| else st.reliableNext,
      if r.IsSequencedOrOrdered() then st.orderNext[msg.orderChannel := st.orderNext[msg.orderChannel] + 1]
          else st.orderNext,
      if NeedsSplit(mtu, msg) then (st.partedNext + 1) % 0x1_0000 else st.partedNext)
  }

  /** Every frame of a message fits a frame set, so the sender can always pack it. */
  lemma FramesFit(mtu: nat, st: Counters, msg: Message)
    requires CanSend(mtu, st, msg)
    ensures forall f :: f in Frames(mtu, st, msg) ==> f.Size() + FRAME_SET_HEADER_SIZE <= mtu
    ensures msg.data != [] ==> forall f :: f in Frames(mtu, st, msg) ==> f.body != []
  {
  }

  /** A message that need not be split, as it is handed down. */
  lemma WholeSend(mtu: nat, st: Counters, msg: Message)
    requires CanSend(mtu, st, msg)
    ensures var r := Effective(mtu, msg);
            !NeedsSplit(mtu, msg) ==>
              && Tagged(msg.priority, Frames(mtu, st, msg)) == [(msg.priority, Frame(
                   Flags.New(r, false), if r.IsReliable() then Some(st.reliableNext) else None, None,
                   OrderedPart(st, mtu, msg), None, msg.data))]
              && After(mtu, st, msg).reliableNext == (if r.IsReliable() then st.reliableNext + 1 else st.reliableNext)
              && After(mtu, st, msg).partedNext == st.partedNext
    ensures After(mtu, st, msg).orderNext
            == if Effective(mtu, msg).IsSequencedOrOrdered()
               then st.orderNext[msg.orderChannel := st.orderNext[msg.orderChannel] + 1] else st.orderNext
  {
  }

  /** A message that is split, as it is handed down. */
  lemma SplitSend(mtu: nat, st: Counters, msg: Message)
    requires CanSend(mtu, st, msg)
    ensures var r := Effective(mtu, msg);
            NeedsSplit(mtu, msg) ==>
              && st.reliableNext + |Chunks(msg.data, PerLen(mtu, msg))| < U24_LIMIT
              && Frames(mtu, st, msg) == PieceFrames(r, st.reliableNext, OrderedPart(st, mtu, msg), Some(st.partedNext),
                   Chunks(msg.data, PerLen(mtu, msg)))
              && After(mtu, st, msg).reliableNext
                 == (if r.IsReliable() then st.reliableNext + |Chunks(msg.data, PerLen(mtu, msg))| else st.reliableNext)
              && After(mtu, st, msg).partedNext == (st.partedNext + 1) % 0x1_0000
  {
    hide Chunks;
    hide PieceFrames;
  }

  lemma TaggedNone(priority: Priority, frames: seq<Frame>)
    ensures Tagged(priority, frames[..0]) == []
  {
  }

  lemma TaggedSnoc(before: seq<(Priority, Frame)>, priority: Priority, frames: seq<Frame>, i: nat)
    requires i < |frames|
    ensures before + Tagged(priority, frames[..i + 1])
            == before + Tagged(priority, frames[..i]) + [(priority, frames[i])]
  {
    assert Tagged(priority, frames[..i + 1]) == Tagged(priority, frames[..i]) + [(priority, frames[i])];
  }

  lemma PieceAt(r: Reliability, base: nat, ordered: Option<Ordered>, id: U16, chunks: seq<seq<Byte>>, i: nat)
    requires base + |chunks| < U24_LIMIT && i < |chunks|
    ensures var frames := PieceFrames(r, base, ordered, Some(id), chunks);
            && |frames| == |chunks|
            && frames[i] == Frame(
                 Flags.New(r, true), if r.IsReliable() then Some(base + i) else None, None, ordered,
                 Some(Fragment(|chunks|, id, i)), chunks[i])
  {
  }

  class Fragmenter {
    const mtu: nat
    var reliableWriteIndex: nat
    var orderWriteIndex: seq<nat>
    var partedIdWrite: nat
    var buf: seq<(Priority, Frame)>

    function State(): Counters
      reads this
    {
      Counters(reliableWriteIndex, orderWriteIndex, partedIdWrite)
    }

    constructor (mtu: nat, maxChannels: nat)
      ensures this.mtu == mtu && State() == Initial(maxChannels) && buf == []
    {
      this.mtu := mtu;
      reliableWriteIndex := 0;
      orderWriteIndex := seq(maxChannels, _ => 0);
      partedIdWrite := 0;
      buf := [];
    }

    /**
     * Buffer one frame with its indices: the reliable one is consumed, the order one is shared by
     * all parts of a message.
     */
    method PushFrame(priority: Priority, reliability: Reliability, channel: Byte, fragment: Option<Fragment>,
                     body: seq<Byte>)
      requires channel < |orderWriteIndex| && orderWriteIndex[channel] < U24_LIMIT
      requires reliableWriteIndex + 1 < U24_LIMIT
      modifies this`reliableWriteIndex, this`buf
      ensures reliableWriteIndex == old(reliableWriteIndex) + if reliability.IsReliable() then 1 else 0
      ensures buf == old(buf) + [(priority, Frame(
        Flags.New(reliability, fragment.Some?),
        if reliability.IsReliable() then Some(old(reliableWriteIndex)) else None,
        None,
        if reliability.IsSequencedOrOrdered() then Some(Ordered(orderWriteIndex[channel], channel)) else None,
        fragment,
        body))]
    {
      var index: Option<U24> := None;
      if reliability.IsReliable() {
        index := Some(reliableWriteIndex);
        reliableWriteIndex := reliableWriteIndex + 1;
      }
      var ordered := if reliability.IsSequencedOrOrdered() then Some(Ordered(orderWriteIndex[channel], channel))
                     else None;
      var frame := Frame(Flags.New(reliability, fragment.Some?), index, None, ordered, fragment, body);
      buf := buf + [(priority, frame)];
    }

    method StartSend(msg: Message)
      requires CanSend(mtu, State(), msg)
      modifies this
      ensures State() == After(mtu, old(State()), msg)
      ensures buf == old(buf) + Tagged(msg.priority, Frames(mtu, old(State()), msg))
    {
      hide Chunks;
      hide PieceFrames;
      hide Piece;
      hide Tagged;
      hide Frames;
      hide After;
      WholeSend(mtu, State(), msg);
      SplitSend(mtu, State(), msg);
      var reliability := msg.reliability;
      var maxLen := mtu - FRAME_SET_HEADER_SIZE - reliability.Size();
      if |msg.data| > maxLen {
        reliability := Upgraded(reliability);
        maxLen := mtu - FRAME_SET_HEADER_SIZE - reliability.Size();
      }
      assert reliability == Effective(mtu, msg);

      if |msg.data| <= maxLen {
        PushFrame(msg.priority, reliability, msg.orderChannel, None, msg.data);
        BumpOrder(reliability, msg.orderChannel);
        return;
      }

      var perLen := maxLen - FRAGMENT_PART_SIZE;
      ChunkCount(msg.data, perLen);
      ChunksAtMost(msg.data, perLen);
      var partedSize := (|msg.data| + perLen - 1) / perLen;
      var partedId := partedIdWrite;
      partedIdWrite := (partedIdWrite + 1) % 0x1_0000;
      SplitBody(msg, reliability, perLen, partedSize, partedId);
      BumpOrder(reliability, msg.orderChannel);
    }

    method BumpOrder(reliability: Reliability, channel: Byte)
      requires channel < |orderWriteIndex|
      modifies this`orderWriteIndex
      ensures orderWriteIndex == if reliability.IsSequencedOrOrdered()
                                 then old(orderWriteIndex)[channel := old(orderWriteIndex)[channel] + 1]
                                   else old(orderWriteIndex)
    {
      if reliability.IsSequencedOrOrdered() {
        orderWriteIndex := orderWriteIndex[channel := orderWriteIndex[channel] + 1];
      }
    }

    /** The loop that cuts the body into parts. */
    method SplitBody(msg: Message, reliability: Reliability, perLen: nat, partedSize: U32, partedId: U16)
      requires perLen > 0 && partedSize == |Chunks(msg.data, perLen)|
      requires msg.orderChannel < |orderWriteIndex| && orderWriteIndex[msg.orderChannel] < U24_LIMIT
      requires reliableWriteIndex + partedSize < U24_LIMIT
      modifies this`reliableWriteIndex, this`buf
      ensures reliableWriteIndex == old(reliableWriteIndex) + if reliability.IsReliable() then partedSize else 0
      ensures var ordered := if reliability.IsSequencedOrOrdered()
                             then Some(Ordered(orderWriteIndex[msg.orderChannel], msg.orderChannel)) else None;
              buf == old(buf) + Tagged(msg.priority,
                    PieceFrames(reliability, old(reliableWriteIndex), ordered, Some(partedId),
                      Chunks(msg.data, perLen)))
    {
      hide Chunks;
      hide PieceFrames;
      hide Tagged;
      hide Piece;
      ghost var chunks := Chunks(msg.data, perLen);
      ghost var o := if reliability.IsSequencedOrOrdered()
                     then Some(Ordered(orderWriteIndex[msg.orderChannel], msg.orderChannel)) else None;
      ghost var base := reliableWriteIndex;
      ghost var frames := PieceFrames(reliability, base, o, Some(partedId), chunks);
      TaggedNone(msg.priority, frames);
      PieceAt(reliability, base, o, partedId, chunks, 0);
      var body := msg.data;
      for partedIndex := 0 to partedSize
        invariant partedIndex < partedSize ==> Chunks(body, perLen) == chunks[partedIndex..]
        invariant partedIndex == partedSize ==> body == []
        invariant reliableWriteIndex == base + if reliability.IsReliable() then partedIndex else 0
        invariant |frames| == partedSize && buf == old(buf) + Tagged(msg.priority, frames[..partedIndex])
      {
        var cut := if perLen <= |body| then perLen else |body|;
        ChunkStep(body, perLen);
        assert body[..cut] == chunks[partedIndex];
        PieceAt(reliability, base, o, partedId, chunks, partedIndex);
        TaggedSnoc(old(buf), msg.priority, frames, partedIndex);
        PushFrame(msg.priority, reliability, msg.orderChannel, Some(Fragment(partedSize, partedId, partedIndex)),
              body[..cut]);
        body := body[cut..];
      }
      assert frames[..partedSize] == frames;
    }
  }
}
