/** Entities shared by every layer: integer widths, reliabilities, frames, messages and priorities. */
module Types {

  datatype Option<+T> = None | Some(value: T)

  datatype Result<+T> = Ok(value: T) | Err(error: CodecError)

  /** `Overflow` stands for the arithmetic and buffer panics of the source's checked operations. */
  datatype CodecError =
    | InvalidPacketLength
    | InvalidPacketType
    | InvalidRecordType
    | AckCountExceed
    | PartedFrame
    | OrderedFrame
    | Overflow

  const U24_LIMIT: nat := 0x100_0000
  const U16_LIMIT: nat := 0x1_0000

  type Byte = b: int | 0 <= b < 0x100
  type U16 = n: int | 0 <= n < 0x1_0000
  type U24 = n: int | 0 <= n < 0x100_0000
  type U32 = n: int | 0 <= n < 0x1_0000_0000

  /** Pack type and sequence number at the head of every frame set. */
  const FRAME_SET_HEADER_SIZE: nat := 4
  /** Size, id and index of a part. */
  const FRAGMENT_PART_SIZE: nat := 10

  datatype Reliability =
    | Unreliable
    | UnreliableSequenced
    | Reliable
    | ReliableOrdered
    | ReliableSequenced
    | UnreliableWithAckReceipt
    | ReliableWithAckReceipt
    | ReliableOrderedWithAckReceipt
  {
    predicate IsReliable() {
      Reliable? || ReliableSequenced? || ReliableOrdered? || ReliableWithAckReceipt? || ReliableOrderedWithAckReceipt?
    }

    predicate IsSequencedOrOrdered() {
      ReliableSequenced? || ReliableOrdered? || UnreliableSequenced? || ReliableOrderedWithAckReceipt?
    }

    predicate IsSequenced() {
      UnreliableSequenced? || ReliableSequenced?
    }

    /** The wire code, held in the top three bits of a frame's flags. */
    function Code(): (c: nat)
      ensures c < 8
    {
      match this
      case Unreliable => 0
      case UnreliableSequenced => 1
      case Reliable => 2
      case ReliableOrdered => 3
      case ReliableSequenced => 4
      case UnreliableWithAckReceipt => 5
      case ReliableWithAckReceipt => 6
      case ReliableOrderedWithAckReceipt => 7
    }

    static function FromCode(c: nat): (r: Reliability)
      requires c < 8
      ensures r.Code() == c
    {
      match c
      case 0 => Unreliable
      case 1 => UnreliableSequenced
      case 2 => Reliable
      case 3 => ReliableOrdered
      case 4 => ReliableSequenced
      case 5 => UnreliableWithAckReceipt
      case 6 => ReliableWithAckReceipt
      case 7 => ReliableOrderedWithAckReceipt
    }

    /** Header size implied by the reliability: flags and length, then the indices it carries. */
    function Size(): nat {
      3
      + (if IsReliable() then 3 else 0)
      + (if IsSequenced() then 3 else 0)
      + (if IsSequencedOrOrdered() then 4 else 0)
    }
  }

  datatype Flags = Flags(raw: Byte, reliability: Reliability, parted: bool)
  {
    /** Reliability in bits 5 to 7, the parted flag in bit 4, and bit 2 always set. */
    static function New(reliability: Reliability, parted: bool): (f: Flags)
      ensures Parse(f.raw) == f
    {
      Flags(32 * reliability.Code() + 4 + (if parted then 16 else 0), reliability, parted)
    }

    static function Parse(raw: Byte): Flags {
      Flags(raw, Reliability.FromCode(raw / 32), raw / 16 % 2 == 1)
    }
  }

  datatype Ordered = Ordered(frameIndex: U24, channel: Byte)

  datatype Fragment = Fragment(partedSize: U32, partedId: U16, partedIndex: U32)

  datatype Frame = Frame(
    flags: Flags,
    reliableIndex: Option<U24>,
    seqIndex: Option<U24>,
    ordered: Option<Ordered>,
    fragment: Option<Fragment>,
    body: seq<Byte>)
  {
    function Size(): nat {
      flags.reliability.Size() + (if fragment.Some? then FRAGMENT_PART_SIZE else 0) + |body|
    }

    predicate IsReliable() {
      flags.reliability.IsReliable()
    }
  }

  datatype Priority = High(penalty: Byte) | Medium | Low(penalty: Byte)

  datatype Message = Message(reliability: Reliability, orderChannel: Byte, priority: Priority, data: seq<Byte>)

  /** Outcome of polling a stream: an item, the end of the stream, or nothing yet. */
  datatype Poll<+T> = Item(item: T) | Finished | Pending

  lemma Associate<T>(a: seq<T>, b: seq<T>, c: seq<T>)
    ensures (a + b) + c == a + (b + c)
  {
  }
}
