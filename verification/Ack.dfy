/** Acknowledgements: sequence numbers compressed into records under a byte budget, and their wire form. */
module Ack {
  import opened Types
  import opened Codec

  datatype Record = Range(start: U24, end: U24) | Single(num: U24)
  {
    function First(): U24 {
      if Range? then start else num
    }

    function Last(): U24 {
      if Range? then end else num
    }

    function WireSize(): nat {
      if Range? then 7 else 4
    }

    /** A range of at least one number whose count fits 24 bits; the source's arithmetic panics otherwise. */
    predicate Countable() {
      First() <= Last() && Last() - First() + 1 < U24_LIMIT
    }

    /** The numbers the record stands for. */
    function Numbers(): (r: seq<nat>) {
      if First() <= Last() then seq(Last() - First() + 1, i requires 0 <= i < Last() - First() + 1 => First() + i)
          else []
    }
  }

  predicate Ordered(records: seq<Record>) {
    forall i :: 0 <= i < |records| ==> records[i].First() <= records[i].Last()
  }

  function Expand(records: seq<Record>): (nums: seq<nat>) {
    if records == [] then [] else Expand(records[..|records| - 1]) + records[|records| - 1].Numbers()
  }

  function WireSize(records: seq<Record>): nat {
    if records == [] then 0 else WireSize(records[..|records| - 1]) + records[|records| - 1].WireSize()
  }

  /** Runs are as long as they can be: ranges hold two numbers or more and no record continues its predecessor. */
  ghost predicate Canonical(records: seq<Record>) {
    && (forall i :: 0 <= i < |records| ==> (records[i].Range? ==> records[i].start < records[i].end))
    && (forall i :: 0 < i < |records| ==> records[i].First() != records[i - 1].Last() + 1)
  }

  function RecordOf(first: U24, last: U24): Record {
    if first != last then Range(first, last) else Single(first)
  }

  lemma Snoc(records: seq<Record>, r: Record)
    requires Ordered(records) && r.First() <= r.Last()
    ensures Ordered(records + [r])
    ensures Expand(records + [r]) == Expand(records) + r.Numbers()
    ensures WireSize(records + [r]) == WireSize(records) + r.WireSize()
  {
    hide Record.Numbers;
    hide Record.WireSize;
    assert (records + [r])[..|records|] == records;
  }

  lemma SnocCanonical(records: seq<Record>, r: Record)
    ensures Canonical(records) && (r.Range? ==> r.start < r.end)
            && (records != [] ==> r.First() != records[|records| - 1].Last() + 1) ==>
              Canonical(records + [r])
  {
  }

  lemma RunGrows(first: U24, last: U24)
    requires first <= last < U24_LIMIT - 1
    ensures RecordOf(first, last + 1).Numbers() == RecordOf(first, last).Numbers() + [last + 1]
  {
  }

  /**
   * The records stand for exactly the numbers taken off the stream, in order and with repeats; runs are
   * as long as they can be; with the three bytes of the packet head they fit the budget; and the stream
   * is left with numbers only when no further record would have fitted.
   */
  ghost predicate Compressed(nums: seq<nat>, mtu: nat, records: seq<Record>, consumed: nat) {
    && 1 <= consumed <= |nums|
    && Ordered(records) && Expand(records) == nums[..consumed] && Canonical(records)
    && 3 + WireSize(records) <= mtu
    && (consumed < |nums| ==> mtu < 3 + WireSize(records) + 4)
  }

  /** Compression of a stream of sequence numbers. */
  method ExtendFrom(nums: seq<U24>, mtu: U16) returns (r: Option<seq<Record>>, consumed: nat)
    requires mtu >= 7
    requires forall n :: n in nums ==> n < U24_LIMIT - 1
    ensures nums == [] <==> r == None
    ensures if r.Some? then Compressed(nums, mtu, r.value, consumed) else consumed == 0
  {
    hide Progress;
    hide Expand;
    hide WireSize;
    hide Canonical;
    if nums == [] {
      return None, 0;
    }
    var first: U24 := nums[0];
    consumed := 1;
    var records: seq<Record> := [];
    var last: U24 := first;
    var upgrade := true;
    var budget: nat := mtu - 7;
    ProgressStart(first, mtu);
    assert first in nums;
    assert nums[..consumed] == [first];
    while budget >= 4 && consumed < |nums|
      invariant 1 <= consumed <= |nums|
      invariant first <= last < U24_LIMIT - 1 && upgrade == (first == last)
      invariant Progress(nums[..consumed], records, first, last, budget, mtu)
      decreases |nums| - consumed
    {
      var seqNum := nums[consumed];
      assert seqNum in nums;
      assert nums[..consumed + 1] == nums[..consumed] + [seqNum];
      consumed := consumed + 1;
      if seqNum == last + 1 {
        ProgressRun(nums[..consumed - 1], records, first, last, budget, mtu);
        if upgrade {
          budget := budget - 3;
          upgrade := false;
        }
        last := seqNum;
      } else {
        ProgressBreak(nums[..consumed - 1], records, first, last, budget, mtu, seqNum);
        budget := budget - 4;
        upgrade := true;
        records := records + [RecordOf(first, last)];
        first := seqNum;
        last := seqNum;
      }
    }
    ProgressEnd(nums[..consumed], records, first, last, budget, mtu);
    r := Some(records + [RecordOf(first, last)]);
  }

  /** The finished records and the open run stand for the numbers taken so far, within the budget spent. */
  ghost predicate Progress(taken: seq<nat>, records: seq<Record>, first: U24, last: U24, budget: nat, mtu: nat) {
    && first <= last
    && Ordered(records) && Expand(records) + RecordOf(first, last).Numbers() == taken
    && budget + 3 + WireSize(records) + RecordOf(first, last).WireSize() == mtu
    && Canonical(records) && (records != [] ==> first != records[|records| - 1].Last() + 1)
  }

  lemma ProgressStart(first: U24, mtu: nat)
    requires mtu >= 7
    ensures Progress([first], [], first, first, mtu - 7, mtu)
  {
    assert RecordOf(first, first).Numbers() == [first];
  }

  lemma ProgressEnd(taken: seq<nat>, records: seq<Record>, first: U24, last: U24, budget: nat, mtu: nat)
    requires Progress(taken, records, first, last, budget, mtu)
    ensures var all := records + [RecordOf(first, last)];
            Ordered(all) && Expand(all) == taken && budget + 3 + WireSize(all) == mtu && Canonical(all)
  {
    hide Expand;
    hide WireSize;
    hide Canonical;
    hide Record.Numbers;
    Snoc(records, RecordOf(first, last));
    SnocCanonical(records, RecordOf(first, last));
  }

  lemma ProgressRun(taken: seq<nat>, records: seq<Record>, first: U24, last: U24, budget: nat, mtu: nat)
    requires Progress(taken, records, first, last, budget, mtu) && last < U24_LIMIT - 1 && budget >= 4
    ensures Progress(taken + [last + 1], records, first, last + 1, if first == last then budget - 3 else budget, mtu)
  {
    RunGrows(first, last);
  }

  lemma ProgressBreak(taken: seq<nat>, records: seq<Record>, first: U24, last: U24, budget: nat, mtu: nat, next: U24)
    requires Progress(taken, records, first, last, budget, mtu) && next != last + 1 && budget >= 4
    ensures Progress(taken + [next], records + [RecordOf(first, last)], next, next, budget - 4, mtu)
  {
    hide Expand;
    hide WireSize;
    hide Canonical;
    hide Record.Numbers;
    Snoc(records, RecordOf(first, last));
    SnocCanonical(records, RecordOf(first, last));
    OneNumber(next);
  }

  lemma OneNumber(n: U24)
    ensures RecordOf(n, n).Numbers() == [n]
  {
  }

  /** Numbers taken so far can be taken on to the end of the stream or of the budget. */
  lemma {:induction false} CompressOn(nums: seq<U24>, mtu: nat, taken: nat, records: seq<Record>, first: U24, last: U24,
                                      budget: nat)
    returns (all: seq<Record>, consumed: nat)
    requires 1 <= taken <= |nums| && last < U24_LIMIT - 1 && forall n :: n in nums ==> n < U24_LIMIT - 1
    requires Progress(nums[..taken], records, first, last, budget, mtu)
    ensures Compressed(nums, mtu, all, consumed)
    decreases |nums| - taken
  {
    hide Progress;
    hide Expand;
    hide WireSize;
    hide Canonical;
    if budget >= 4 && taken < |nums| {
      var next := nums[taken];
      assert next in nums;
      assert nums[..taken + 1] == nums[..taken] + [next];
      if next == last + 1 {
        ProgressRun(nums[..taken], records, first, last, budget, mtu);
        var left := if first == last then budget - 3 else budget;
        all, consumed := CompressOn(nums, mtu, taken + 1, records, first, next, left);
      } else {
        ProgressBreak(nums[..taken], records, first, last, budget, mtu, next);
        all, consumed := CompressOn(nums, mtu, taken + 1, records + [RecordOf(first, last)], next, next, budget - 4);
      }
    } else {
      ProgressEnd(nums[..taken], records, first, last, budget, mtu);
      all, consumed := records + [RecordOf(first, last)], taken;
    }
  }

  /** Every stream has a compression. */
  lemma CompressSome(nums: seq<U24>, mtu: nat) returns (records: seq<Record>, consumed: nat)
    requires nums != [] && mtu >= 7 && forall n :: n in nums ==> n < U24_LIMIT - 1
    ensures Compressed(nums, mtu, records, consumed)
  {
    hide Compressed;
    ProgressStart(nums[0], mtu);
    assert nums[..1] == [nums[0]] && nums[0] in nums;
    records, consumed := CompressOn(nums, mtu, 1, [], nums[0], nums[0], mtu - 7);
  }

  const MAX_ACKNOWLEDGEMENT_PACKETS: nat := 16384

  function RecordBytes(r: Record): (b: Bytes)
    ensures |b| == r.WireSize()
  {
    match r
    case Range(start, end) => [0] + U24Le(start) + U24Le(end)
    case Single(num) => [1] + U24Le(num)
  }

  function ReadRecord(b: Bytes): (r: Result<(Record, Bytes)>)
    ensures r.Ok? ==> |r.value.1| < |b|
  {
    if |b| < 1 then Err(InvalidPacketLength)
    else if b[0] == 0 then
      if |b| < 7 then Err(InvalidPacketLength) else Ok((Range(GetU24Le(b, 1), GetU24Le(b, 4)), b[7..]))
    else if b[0] == 1 then
      if |b| < 4 then Err(InvalidPacketLength) else Ok((Single(GetU24Le(b, 1)), b[4..]))
    else Err(InvalidRecordType)
  }

  lemma RecordRoundTrip(r: Record, rest: Bytes)
    ensures ReadRecord(RecordBytes(r) + rest).Ok?
    ensures ReadRecord(RecordBytes(r) + rest).value == (r, rest)
  {
    match r
    case Range(start, end) => RangeRoundTrip(start, end, rest);
    case Single(num) => SingleRoundTrip(num, rest);
  }

  lemma RangeRoundTrip(start: U24, end: U24, rest: Bytes)
    ensures var r := ReadRecord(RecordBytes(Range(start, end)) + rest); r.Ok? && r.value == (Range(start, end), rest)
  {
    var b := RecordBytes(Range(start, end)) + rest;
    assert b[1..4] == U24Le(start) && b[4..7] == U24Le(end) && b[7..] == rest;
  }

  lemma SingleRoundTrip(num: U24, rest: Bytes)
    ensures var r := ReadRecord(RecordBytes(Single(num)) + rest); r.Ok? && r.value == (Single(num), rest)
  {
    var b := RecordBytes(Single(num)) + rest;
    assert b[1..4] == U24Le(num) && b[4..] == rest;
  }

  function RecordsBytes(records: seq<Record>): (b: Bytes) {
    if records == [] then [] else RecordBytes(records[0]) + RecordsBytes(records[1..])
  }

  function Total(records: seq<Record>): int {
    if records == [] then 0 else records[0].Last() - records[0].First() + 1 + Total(records[1..])
  }

  /** Every count is computable, and no prefix of the records exceeds what a reader accepts. */
  predicate Acceptable(records: seq<Record>, before: nat) {
    records == []
    || (records[0].Countable()
        && before + records[0].Last() - records[0].First() + 1 <= MAX_ACKNOWLEDGEMENT_PACKETS
        && Acceptable(records[1..], before + records[0].Last() - records[0].First() + 1))
  }

  /** `n` records off a buffer, after `before` acknowledged numbers. */
  function ReadRecords(n: nat, b: Bytes, before: nat): (r: Result<seq<Record>>)
    ensures r.Ok? ==> |r.value| == n && Acceptable(r.value, before)
  {
    if n == 0 then Ok([])
    else
      match ReadRecord(b)
      case Err(e) => Err(e)
      case Ok((record, rest)) =>
        if !record.Countable() then Err(Overflow)
        else
          var count := before + record.Last() - record.First() + 1;
          if count > MAX_ACKNOWLEDGEMENT_PACKETS then Err(AckCountExceed)
          else
            match ReadRecords(n - 1, rest, count)
            case Err(e) => Err(e)
            case Ok(records) => Ok([record] + records)
  }

  function AckBytes(records: seq<Record>): (b: Bytes) {
    U16Be(|records| % 0x1_0000) + RecordsBytes(records)
  }

  function ParseAck(b: Bytes): (r: Result<seq<Record>>) {
    if |b| < 2 then Err(Overflow) else ReadRecords(GetU16Be(b, 0), b[2..], 0)
  }

  lemma {:induction false} RecordsRoundTrip(records: seq<Record>, before: nat)
    requires Acceptable(records, before)
    ensures var r := ReadRecords(|records|, RecordsBytes(records), before); r.Ok? && r.value == records
  {
    hide RecordBytes;
    hide ReadRecord;
    if records != [] {
      RecordRoundTrip(records[0], RecordsBytes(records[1..]));
      RecordsRoundTrip(records[1..], before + records[0].Last() - records[0].First() + 1);
    }
  }

  /** Written records read back as themselves or not at all. */
  lemma {:induction false} RecordsSameOrErr(records: seq<Record>, before: nat)
    ensures var r := ReadRecords(|records|, RecordsBytes(records), before); r.Ok? ==> r.value == records
  {
    hide RecordBytes;
    hide ReadRecord;
    if records != [] {
      RecordRoundTrip(records[0], RecordsBytes(records[1..]));
      if records[0].Countable() {
        RecordsSameOrErr(records[1..], before + records[0].Last() - records[0].First() + 1);
      }
    }
  }

  lemma AckSameOrErr(records: seq<Record>)
    requires |records| < U16_LIMIT
    ensures ParseAck(AckBytes(records)).Ok? ==> ParseAck(AckBytes(records)).value == records
  {
    hide ParseAck;
    hide ReadRecords;
    hide RecordsBytes;
    hide AckBytes;
    AckHead(records);
    RecordsSameOrErr(records, 0);
  }

  lemma {:induction false} AcceptableTotal(records: seq<Record>, before: nat)
    requires Ordered(records)
    ensures Acceptable(records, before) <==> records == [] || before + Total(records) <= MAX_ACKNOWLEDGEMENT_PACKETS
    ensures Total(records) >= |records|
  {
    if records != [] {
      var count := records[0].Last() - records[0].First() + 1;
      AcceptableTotal(records[1..], before + count);
    }
  }

  lemma {:induction false} AcceptableOrdered(records: seq<Record>, before: nat)
    requires Acceptable(records, before)
    ensures Ordered(records)
  {
    if records != [] {
      AcceptableOrdered(records[1..], before + records[0].Last() - records[0].First() + 1);
      assert records == [records[0]] + records[1..];
    }
  }

  /**
   * A written acknowledgement reads back as itself exactly when the record count fits 16 bits, every
   * range is ordered, and it acknowledges at most 16384 numbers.
   */
  lemma AckRoundTrip(records: seq<Record>)
    ensures ParseAck(AckBytes(records)) == Ok(records)
            <==> |records| < U16_LIMIT && Ordered(records) && Total(records) <= MAX_ACKNOWLEDGEMENT_PACKETS
  {
    hide ParseAck;
    hide Total;
    if |records| < U16_LIMIT && Ordered(records) && Total(records) <= MAX_ACKNOWLEDGEMENT_PACKETS {
      AckReadBack(records);
    }
    if ParseAck(AckBytes(records)) == Ok(records) {
      AckReadImplies(records);
    }
  }

  lemma AckReadBack(records: seq<Record>)
    requires |records| < U16_LIMIT && Ordered(records) && Total(records) <= MAX_ACKNOWLEDGEMENT_PACKETS
    ensures ParseAck(AckBytes(records)) == Ok(records)
  {
    hide ParseAck;
    hide ReadRecords;
    hide RecordsBytes;
    hide Total;
    hide Acceptable;
    hide AckBytes;
    AckHead(records);
    AcceptableTotal(records, 0);
    RecordsRoundTrip(records, 0);
  }

  /** Reading the head of a written acknowledgement. */
  lemma AckHead(records: seq<Record>)
    ensures ParseAck(AckBytes(records)) == ReadRecords(|records| % 0x1_0000, RecordsBytes(records), 0)
  {
    hide ReadRecords;
    hide RecordsBytes;
    U16RoundTrip(|records| % 0x1_0000, RecordsBytes(records));
    hide U16Be;
    hide GetU16Be;
  }

  lemma AckReadImplies(records: seq<Record>)
    requires ParseAck(AckBytes(records)) == Ok(records)
    ensures |records| < U16_LIMIT && Ordered(records) && Total(records) <= MAX_ACKNOWLEDGEMENT_PACKETS
  {
    hide ParseAck;
    hide ReadRecords;
    hide RecordsBytes;
    AckHead(records);
    assert Acceptable(records, 0) && |records| == |records| % 0x1_0000;
    AcceptableOrdered(records, 0);
    AcceptableTotal(records, 0);
    TotalOfNothing();
  }

  lemma TotalOfNothing()
    ensures Total([]) == 0
  {
  }

  lemma {:induction false} ExpandCons(records: seq<Record>)
    requires Ordered(records) && records != []
    ensures Ordered(records[1..]) && Expand(records) == records[0].Numbers() + Expand(records[1..])
  {
    hide Record.Numbers;
    var last := |records| - 1;
    if last == 0 {
      assert records[..last] == [] && records[1..] == [];
    } else {
      ExpandCons(records[..last]);
      var middle := records[1..last];
      assert records[..last][1..] == middle && records[1..][..last - 1] == middle;
      Associate(records[0].Numbers(), Expand(middle), records[last].Numbers());
    }
  }

  lemma {:induction false} TotalIsCount(records: seq<Record>)
    requires Ordered(records)
    ensures Total(records) == |Expand(records)|
  {
    if records != [] {
      ExpandCons(records);
      TotalIsCount(records[1..]);
    }
  }

  lemma {:induction false} FewRecords(records: seq<Record>)
    ensures 4 * |records| <= WireSize(records)
  {
    if records != [] {
      FewRecords(records[..|records| - 1]);
    }
  }

  lemma {:induction false} RecordsLength(records: seq<Record>)
    ensures |RecordsBytes(records)| == WireSize(records)
  {
    if records != [] {
      RecordsLength(records[1..]);
      WireSizeCons(records);
    }
  }

  lemma {:induction false} WireSizeCons(records: seq<Record>)
    requires records != []
    ensures WireSize(records) == records[0].WireSize() + WireSize(records[1..])
  {
    var last := |records| - 1;
    if last > 0 {
      WireSizeCons(records[..last]);
      assert records[..last][1..] == records[1..][..last - 1];
    } else {
      assert records[..last] == [] && records[1..] == [];
    }
  }

  /**
   * What compression under an MTU produces can be read by the peer exactly when it stands for at most
   * 16384 numbers; nothing in the compression itself bounds that.
   */
  lemma CompressedReadable(records: seq<Record>, nums: seq<nat>, mtu: U16)
    requires Ordered(records) && Expand(records) == nums && 3 + WireSize(records) <= mtu
    ensures ParseAck(AckBytes(records)) == Ok(records) <==> |nums| <= MAX_ACKNOWLEDGEMENT_PACKETS
    ensures 1 + |AckBytes(records)| <= mtu
  {
    FewRecords(records);
    TotalIsCount(records);
    AckRoundTrip(records);
    RecordsLength(records);
  }

  function Run(first: nat, n: nat): (nums: seq<nat>) {
    seq(n, i requires 0 <= i < n => first + i)
  }

  lemma {:induction false} NonEmpty(records: seq<Record>)
    requires Ordered(records)
    ensures records == [] <==> Expand(records) == []
  {
  }

  /** The only maximal records for consecutive numbers are one record. */
  lemma {:induction false} OneRun(records: seq<Record>, first: U24, n: nat)
    requires Ordered(records) && Canonical(records) && n >= 1 && first + n <= U24_LIMIT
             && Expand(records) == Run(first, n)
    ensures records == [RecordOf(first, first + n - 1)]
    decreases |records|
  {
    hide Record.Numbers;
    hide Run;
    NonEmpty(records);
    RunLength(first, n);
    var front, last := records[..|records| - 1], records[|records| - 1];
    var k := |Expand(front)|;
    LastOfRun(Expand(front), last, first, n);
    if front == [] {
      assert records == [last] && k == 0;
      assert last == RecordOf(first, first + n - 1);
    } else {
      NonEmpty(front);
      var before := records[|records| - 2];
      assert before == front[|front| - 1] && last.First() != before.Last() + 1;
      OneRun(front, first, k);
      assert false;
    }
  }

  lemma RunLength(first: nat, n: nat)
    ensures |Run(first, n)| == n
  {
  }

  /** The last record of a run starts where the others end. */
  lemma LastOfRun(before: seq<nat>, last: Record, first: U24, n: nat)
    requires before + last.Numbers() == Run(first, n) && last.First() <= last.Last()
    ensures before == Run(first, |before|) && last.First() == first + |before| && last.Last() == first + n - 1
  {
    var all := before + last.Numbers();
    assert all[|before|] == last.Numbers()[0] == last.First();
    assert all[n - 1] == last.Numbers()[|last.Numbers()| - 1] == last.Last();
    assert forall i :: 0 <= i < |before| ==> before[i] == all[i];
  }

  /**
   * Every run of more than 16384 numbers is compressed into one range, within any MTU of 14 or more, that no
   * peer reads.
   */
  lemma LongRunRejected(first: U24, n: nat, mtu: U16, records: seq<Record>, consumed: nat)
    requires n > MAX_ACKNOWLEDGEMENT_PACKETS && first + n < U24_LIMIT && mtu >= 14
             && Compressed(Run(first, n), mtu, records, consumed)
    ensures consumed == n && records == [Range(first, first + n - 1)] && ParseAck(AckBytes(records)).Err?
  {
    hide ParseAck;
    hide AckBytes;
    hide Expand;
    assert Run(first, n)[..consumed] == Run(first, consumed);
    OneRun(records, first, consumed);
    assert records[..0] == [] && WireSize(records) == records[0].WireSize() <= 7;
    assert consumed == n;
    CompressedReadable(records, Run(first, n), mtu);
    AckSameOrErr(records);
  }

  /** The failure at a concrete input: 16385 numbers in a row, compressed under an MTU of 1500. */
  method CompressLongRun() returns (records: seq<Record>)
    ensures records == [Range(0, 16384)] && ParseAck(AckBytes(records)).Err?
  {
    hide ParseAck;
    hide AckBytes;
    hide Compressed;
    var nums := seq(16385, i requires 0 <= i < 16385 => i as U24);
    var r, consumed := ExtendFrom(nums, 1500);
    assert nums == Run(0, 16385);
    LongRunRejected(0, 16385, 1500, r.value, consumed);
    records := r.value;
  }

  method WriteAck(records: seq<Record>) returns (buf: Bytes)
    ensures buf == AckBytes(records)
  {
    buf := U16Be(|records| % 0x1_0000);
    for i := 0 to |records|
      invariant buf + RecordsBytes(records[i..]) == AckBytes(records)
    {
      assert records[i..][1..] == records[i + 1..];
      buf := buf + RecordBytes(records[i]);
    }
    assert RecordsBytes(records[|records|..]) == [];
  }

  method ReadAck(input: Bytes) returns (r: Result<seq<Record>>)
    ensures r == ParseAck(input)
  {
    hide ReadRecord;
    hide Acceptable;
    if |input| < 2 {
      return Err(Overflow);
    }
    var recordCnt := GetU16Be(input, 0);
    var buf := input[2..];
    var ackCnt: nat := 0;
    var records: seq<Record> := [];
    for i := 0 to recordCnt
      invariant match ReadRecords(recordCnt - i, buf, ackCnt)
                case Err(e) => ParseAck(input) == Err(e)
                case Ok(more) => ParseAck(input).Ok? && ParseAck(input).value == records + more
    {
      var next := ReadRecord(buf);
      if next.Err? {
        return Err(next.error);
      }
      var record := next.value.0;
      if !record.Countable() {
        return Err(Overflow);
      }
      ackCnt := ackCnt + record.Last() - record.First() + 1;
      if ackCnt > MAX_ACKNOWLEDGEMENT_PACKETS {
        return Err(AckCountExceed);
      }
      records := records + [record];
      buf := next.value.1;
    }
    assert records + [] == records;
    return Ok(records);
  }
}
