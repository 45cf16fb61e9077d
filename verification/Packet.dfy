/** Connected packets: the first byte tells frame sets, acknowledgements and negative acknowledgements apart. */
module Packet {
  import opened Types
  import opened Codec
  import Ack

  /** `Unconnected` stands for every packet outside a connection; its fields are not part of this model. */
  datatype Packet =
    | Frames(frameSet: FrameSet)
    | Acks(acks: seq<Ack.Record>)
    | Nacks(nacks: seq<Ack.Record>)
    | Unconnected

  const VALID_FLAG: Byte := 0x80
  const ACK_FLAG: Byte := 0xC0
  const NACK_FLAG: Byte := 0xA0
  const CONTINUOUS_SEND_FLAG: nat := 0x08
  const NEEDS_B_AND_AS_FLAG: nat := 0x04

  function Write(p: Packet): (b: Bytes)
    requires !p.Unconnected? && (p.Frames? ==> p.frameSet.frames != [])
  {
    match p
    case Frames(s) =>
      [VALID_FLAG + NEEDS_B_AND_AS_FLAG + (if s.frames[0].flags.parted then CONTINUOUS_SEND_FLAG else 0)]
          + FrameSetBytes(s)
    case Acks(records) => [ACK_FLAG] + Ack.AckBytes(records)
    case Nacks(records) => [NACK_FLAG] + Ack.AckBytes(records)
  }

  function Read(b: Bytes): (r: Result<Packet>) {
    if |b| < 1 then Err(InvalidPacketLength)
    else if b[0] >= ACK_FLAG then
      match Ack.ParseAck(b[1..]) case Err(e) => Err(e) case Ok(records) => Ok(Acks(records))
    else if b[0] >= NACK_FLAG then
      match Ack.ParseAck(b[1..]) case Err(e) => Err(e) case Ok(records) => Ok(Nacks(records))
    else if b[0] >= VALID_FLAG then
      match ParseFrameSet(b[1..]) case Err(e) => Err(e) case Ok(s) => Ok(Frames(s))
    else Ok(Unconnected)
  }

  /** The packets a peer reads back as they were written. */
  ghost predicate Readable(p: Packet) {
    match p
    case Frames(s) => s.frames != [] && forall f :: f in s.frames ==> WellFormed(f)
    case Acks(records) => ReadableRecords(records)
    case Nacks(records) => ReadableRecords(records)
    case Unconnected => false
  }

  ghost predicate ReadableRecords(records: seq<Ack.Record>) {
    |records| < U16_LIMIT && Ack.Ordered(records) && Ack.Total(records) <= Ack.MAX_ACKNOWLEDGEMENT_PACKETS
  }

  lemma RoundTrip(p: Packet)
    requires !p.Unconnected? && (p.Frames? ==> p.frameSet.frames != [])
    ensures Read(Write(p)) == Ok(p) <==> Readable(p)
  {
    hide Ack.AckBytes;
    hide Ack.ParseAck;
    hide FrameSetBytes;
    hide ParseFrameSet;
    hide Ack.Total;
    hide WellFormed;
    match p
    case Frames(s) =>
      FrameSetRoundTrip(s);
      assert Write(p)[1..] == FrameSetBytes(s);
    case Acks(records) =>
      Ack.AckRoundTrip(records);
      assert Write(p)[1..] == Ack.AckBytes(records);
    case Nacks(records) =>
      Ack.AckRoundTrip(records);
      assert Write(p)[1..] == Ack.AckBytes(records);
  }

  /** Reports read back as themselves or not at all. */
  lemma ReportSameOrErr(records: seq<Ack.Record>)
    requires |records| < U16_LIMIT
    ensures Read(Write(Acks(records))).Ok? ==> Read(Write(Acks(records))).value == Acks(records)
    ensures Read(Write(Nacks(records))).Ok? ==> Read(Write(Nacks(records))).value == Nacks(records)
  {
    hide Ack.AckBytes;
    hide Ack.ParseAck;
    hide ParseFrameSet;
    Ack.AckSameOrErr(records);
    assert Write(Acks(records))[1..] == Ack.AckBytes(records);
    assert Write(Nacks(records))[1..] == Ack.AckBytes(records);
  }

  /** A set whose frames are well formed but for missing bodies reads back as itself or not at all. */
  lemma FramesSameOrErr(s: FrameSet)
    requires s.frames != [] && forall f :: f in s.frames ==> f.body == [] || WellFormed(f)
    ensures Read(Write(Frames(s))).Ok? ==> Read(Write(Frames(s))).value == Frames(s) && forall f :: f in s.frames ==>
              WellFormed(f)
  {
    hide WellFormed;
    if exists f :: f in s.frames && f.body == [] {
      EmptyBodyPoisons(s.frames);
      var b := Write(Frames(s))[1..];
      assert b == FrameSetBytes(s) && b[3..] == FramesBytes(s.frames);
    } else {
      RoundTrip(Frames(s));
    }
  }
}
