/** The resend map: sets kept until acknowledged, reported lost, or timed out. */
module Resend {
  import opened Types
  import Ack
  import Buffer
  import Estimator
  import Sender

  const SECOND: nat := 1_000_000_000
  const MAX_PENALTY_DUR: nat := 30 * SECOND
  const MAX_SKIP_SCAN_RTO: nat := 3 * SECOND

  datatype Entry = Entry(penalty: Byte, frames: seq<Frame>, sendAt: nat, expiredAt: nat)

  function Min(a: nat, b: nat): nat {
    if a <= b then a else b
  }

  function FrameMap(m: map<nat, Entry>): (r: map<nat, seq<Frame>>)
    ensures r.Keys == m.Keys
  {
    map n | n in m :: m[n].frames
  }

  /** A lost entry as the resend tier takes it. */
  function Again(e: Entry): seq<Buffer.PenaltyFrame> {
    Buffer.Penalized(e.penalty, e.frames)
  }

  type Entries = map<nat, Entry>

  /** Acknowledging numbers in order: each hit removes its entry and feeds one round trip to the estimator. */
  function AckAll(m: Entries, e: Estimator.Estimate, nums: seq<nat>,
                  receivedAt: nat): (r: (Entries, Estimator.Estimate)) {
    if nums == [] then (m, e)
    else
      var before := AckAll(m, e, nums[..|nums| - 1], receivedAt);
      var n := nums[|nums| - 1];
      if n in before.0 then (before.0 - {n}, before.1.Updated(Since(receivedAt, before.0[n].sendAt))) else before
  }

  /** Elapsed time, zero when the clock readings are the wrong way round. */
  function Since(later: nat, earlier: nat): nat {
    if later >= earlier then later - earlier else 0
  }

  /** Giving up on numbers in order: each hit moves its frames to the resend tier. */
  function LoseAll(m: Entries, nums: seq<nat>): (r: (Entries, seq<Buffer.PenaltyFrame>)) {
    if nums == [] then (m, [])
    else
      var before := LoseAll(m, nums[..|nums| - 1]);
      var n := nums[|nums| - 1];
      if n in before.0 then (before.0 - {n}, before.1 + Again(before.0[n])) else before
  }

  lemma AckSnoc(m: Entries, e: Estimator.Estimate, nums: seq<nat>, n: nat, receivedAt: nat)
    ensures var before := AckAll(m, e, nums, receivedAt);
            AckAll(m, e, nums + [n], receivedAt)
            == if n in before.0 then (before.0 - {n}, before.1.Updated(Since(receivedAt, before.0[n].sendAt)))
                else before
  {
    assert (nums + [n])[..|nums|] == nums;
  }

  lemma LoseNothing(m: Entries, queue: seq<Buffer.PenaltyFrame>)
    ensures Lost(m, queue, [], m, queue)
  {
  }

  lemma LoseSnoc(m: Entries, nums: seq<nat>, n: nat)
    ensures var before := LoseAll(m, nums);
            LoseAll(m, nums + [n]) == if n in before.0 then (before.0 - {n}, before.1 + Again(before.0[n])) else before
  {
    assert (nums + [n])[..|nums|] == nums;
  }

  /** Entries and resend tier after giving up on `nums`, from entries `m` and tier `queue`. */
  ghost predicate Lost(m: Entries, queue: seq<Buffer.PenaltyFrame>, nums: seq<nat>, entries: Entries,
                       resend: seq<Buffer.PenaltyFrame>) {
    entries == LoseAll(m, nums).0 && resend == queue + LoseAll(m, nums).1
  }

  lemma LostSnoc(m: Entries, queue: seq<Buffer.PenaltyFrame>, nums: seq<nat>, n: nat, entries: Entries,
                 resend: seq<Buffer.PenaltyFrame>)
    requires Lost(m, queue, nums, entries, resend)
    ensures if n in entries then Lost(m, queue, nums + [n], entries - {n}, resend + Again(entries[n]))
            else Lost(m, queue, nums + [n], entries, resend)
  {
    hide Again;
    LoseSnoc(m, nums, n);
  }

  /** The numbers of a record, taken one at a time. */
  lemma NextNumber(done: seq<nat>, record: Ack.Record, k: nat)
    requires k < |record.Numbers()|
    ensures done + record.Numbers()[..k + 1] == (done + record.Numbers()[..k]) + [record.First() + k]
  {
  }

  function Confirms(nums: seq<nat>): (log: seq<Sender.Action>)
    ensures |log| == |nums|
  {
    seq(|nums|, i requires 0 <= i < |nums| => Sender.Confirming(nums[i]))
  }

  function Requeues(nums: seq<nat>): (log: seq<Sender.Action>)
    ensures |log| == |nums|
  {
    seq(|nums|, i requires 0 <= i < |nums| => Sender.Requeueing(nums[i]))
  }

  /** Acknowledging is confirming, in the sender's history. */
  lemma {:induction false} AckIsConfirm(v: Sender.View, m: Entries, e: Estimator.Estimate, nums: seq<nat>, at: nat)
    requires v.recorded == FrameMap(m)
    ensures var v' := Sender.Replay(v, Confirms(nums));
            && Sender.IsRun(v, Confirms(nums))
            && v'.recorded == FrameMap(AckAll(m, e, nums, at).0) && v'.queued == v.queued && v'.next == v.next
  {
    if nums != [] {
      var front := nums[..|nums| - 1];
      AckIsConfirm(v, m, e, front, at);
      assert Confirms(nums)[..|nums| - 1] == Confirms(front);
    }
  }

  /** Giving up is requeueing, in the sender's history. */
  lemma {:induction false} LoseIsRequeue(v: Sender.View, m: Entries, nums: seq<nat>)
    requires v.recorded == FrameMap(m)
    ensures var v' := Sender.Replay(v, Requeues(nums));
            && Sender.IsRun(v, Requeues(nums))
            && v'.recorded == FrameMap(LoseAll(m, nums).0) && v'.next == v.next
            && v'.queued == v.queued + multiset(Buffer.FramesOf(LoseAll(m, nums).1))
  {
    hide Again;
    hide Buffer.FramesOf;
    if nums == [] {
      Buffer.NoFrames();
    } else {
      var front, n := nums[..|nums| - 1], nums[|nums| - 1];
      LoseIsRequeue(v, m, front);
      assert Requeues(nums)[..|nums| - 1] == Requeues(front);
      var before := LoseAll(m, front);
      if n in before.0 {
        FramesOfAgain(before.1, before.0[n]);
        assert FrameMap(before.0 - {n}) == FrameMap(before.0) - {n};
      }
    }
  }

  lemma FramesOfAgain(s: seq<Buffer.PenaltyFrame>, e: Entry)
    ensures Buffer.FramesOf(s + Again(e)) == Buffer.FramesOf(s) + e.frames
  {
  }

  /** The frame count of the entries numbered below `bound`. */
  ghost function Inflight(m: Entries, bound: nat): nat {
    |Sender.Recorded(FrameMap(m), bound)|
  }

  lemma InflightAdd(m: Entries, bound: nat, bound': nat, n: nat, e: Entry)
    requires n !in m && n < bound' && bound <= bound' && forall k :: k in m ==> k < bound
    ensures Inflight(m[n := e], bound') == Inflight(m, bound) + |e.frames|
    ensures FrameMap(m[n := e]) == FrameMap(m)[n := e.frames]
  {
    assert FrameMap(m[n := e]) == FrameMap(m)[n := e.frames];
    Sender.RecordedAdd(FrameMap(m), bound', n, e.frames);
    RecordedBeyond(FrameMap(m), bound, bound');
  }

  lemma {:induction false} RecordedBeyond(m: map<nat, seq<Frame>>, bound: nat, bound': nat)
    requires bound <= bound' && forall k :: k in m ==> k < bound
    ensures Sender.Recorded(m, bound') == Sender.Recorded(m, bound)
  {
    if bound < bound' {
      RecordedBeyond(m, bound, bound' - 1);
    }
  }

  lemma InflightRemove(m: Entries, bound: nat, n: nat)
    requires n in m && n < bound
    ensures Inflight(m, bound) == Inflight(m - {n}, bound) + |m[n].frames|
  {
    assert FrameMap(m - {n}) == FrameMap(m) - {n};
    Sender.RecordedRemove(FrameMap(m), bound, n);
  }

  /** When a set sent at `now` expires: after the timeout, stretched by its penalty up to 30 s. */
  function Expiry(now: nat, rto: nat, penalty: Byte): nat {
    now + rto + Min(rto * penalty, MAX_PENALTY_DUR)
  }

  ghost predicate FreshAt(reliable: Entries, recent: set<nat>, lastScan: nat, now: nat) {
    forall n :: n in reliable && reliable[n].expiredAt <= now ==> n in recent && now < lastScan + MAX_SKIP_SCAN_RTO
  }

  lemma RecordFresh(m: Entries, recent: set<nat>, lastScan: nat, now: nat, n: nat, e: Entry,
                    estimate: Estimator.Estimate)
    requires e.expiredAt == Expiry(now, estimate.Rto(), e.penalty)
    ensures FreshAt(m, recent, lastScan, now) ==> FreshAt(m[n := e], recent + {n}, lastScan, now)
  {
    assert e.expiredAt > now;
  }

  class ResendMap {
    var reliable: Entries
    var inflight: nat
    var lastRecordExpiredAt: nat
    const estimator: Estimator.RttEstimator
    ghost var bound: nat      // above every number ever recorded
    ghost var lastScan: nat   // time of the last scan for stale entries
    ghost var recent: set<nat> // numbers recorded since then

    /** The in-flight count is right, and the next scan is due no later than any entry the last scan saw. */
    ghost predicate Valid()
      reads this
    {
      && (forall n :: n in reliable ==> n < bound)
      && inflight == Inflight(reliable, bound)
      && (forall n :: n in reliable && n !in recent ==> lastRecordExpiredAt <= reliable[n].expiredAt)
      && lastRecordExpiredAt <= lastScan + MAX_SKIP_SCAN_RTO
    }

    constructor (now: nat)
      ensures Valid() && reliable == map[] && fresh(estimator) && estimator.State() == Estimator.NEW
      ensures lastScan == now && bound == 0 && lastRecordExpiredAt == now && recent == {}
    {
      reliable, inflight, lastRecordExpiredAt := map[], 0, now;
      estimator := new Estimator.RttEstimator();
      bound, lastScan, recent := 0, now, {};
      new;
      assert FrameMap(map[]) == map[];
    }

    predicate IsEmpty()
      reads this
    {
      reliable == map[]
    }

    /** Keep a transmitted set; it expires after the timeout, stretched by its penalty up to 30 s. */
    method Record(seqNum: nat, penalty: Byte, frames: seq<Frame>, now: nat)
      requires Valid() && seqNum >= bound
      modifies this
      ensures Valid()
      ensures var expiry := Expiry(now, estimator.State().Rto(), penalty);
              reliable == old(reliable)[seqNum := Entry(penalty, frames, now, expiry)]
      ensures FrameMap(reliable) == FrameMap(old(reliable))[seqNum := frames]
      ensures bound == seqNum + 1 && lastScan == old(lastScan) && lastRecordExpiredAt == old(lastRecordExpiredAt)
              && recent == old(recent) + {seqNum}
      ensures inflight == old(inflight) + |frames|
      ensures old(Fresh(now)) ==> Fresh(now)
    {
      hide Expiry;
      hide FrameMap;
      hide Inflight;
      hide FreshAt;
      hide Estimator.Estimate.Rto;
      var rto := estimator.State().Rto();
      var entry := Entry(penalty, frames, now, Expiry(now, rto, penalty));
      RecordFresh(reliable, recent, lastScan, now, seqNum, entry, estimator.State());
      InflightAdd(reliable, bound, seqNum + 1, seqNum, entry);
      inflight := inflight + |frames|;
      reliable := reliable[seqNum := entry];
      bound := seqNum + 1;
      recent := recent + {seqNum};
    }

    /** One acknowledged number. */
    method AckOne(n: nat, receivedAt: nat)
      requires Valid()
      modifies this`reliable, this`inflight, estimator
      ensures Valid()
      ensures n in old(reliable) ==>
                reliable == old(reliable) - {n}
                    && estimator.State() == old(estimator.State()).Updated(Since(receivedAt, old(reliable)[n].sendAt))
      ensures n !in old(reliable) ==> reliable == old(reliable) && estimator.State() == old(estimator.State())
    {
      if n in reliable {
        var entry := reliable[n];
        InflightRemove(reliable, bound, n);
        reliable := reliable - {n};
        estimator.Update(Since(receivedAt, entry.sendAt));
        inflight := inflight - |entry.frames|;
      }
    }

    method OnAck(records: seq<Ack.Record>, receivedAt: nat)
      requires Valid()
      modifies this`reliable, this`inflight, estimator
      ensures Valid()
      ensures (reliable, estimator.State())
              == AckAll(old(reliable), old(estimator.State()), Ack.Expand(records), receivedAt)
    {
      for i := 0 to |records|
        invariant Valid()
        invariant (reliable, estimator.State())
                  == AckAll(old(reliable), old(estimator.State()), Ack.Expand(records[..i]), receivedAt)
      {
        assert records[..i + 1][..i] == records[..i];
        AckRecord(records[i], receivedAt, Ack.Expand(records[..i]), old(reliable), old(estimator.State()));
      }
      assert records[..|records|] == records;
    }

    /** The loop over the numbers of one record, a range or a single number. */
    method AckRecord(record: Ack.Record, receivedAt: nat, ghost done: seq<nat>, ghost m: Entries,
                     ghost e: Estimator.Estimate)
      requires Valid() && (reliable, estimator.State()) == AckAll(m, e, done, receivedAt)
      modifies this`reliable, this`inflight, estimator
      ensures Valid() && (reliable, estimator.State()) == AckAll(m, e, done + record.Numbers(), receivedAt)
    {
      hide AckAll;
      hide LoseAll;
      hide Again;
      hide Inflight;
      var i: nat := record.First();
      ghost var nums := record.Numbers();
      assert done + nums[..0] == done;
      while i <= record.Last()
        invariant record.First() <= i && (record.First() <= record.Last() ==> i <= record.Last() + 1)
        invariant Valid() && i - record.First() <= |nums|
        invariant (reliable, estimator.State()) == AckAll(m, e, done + nums[..i - record.First()], receivedAt)
        decreases record.Last() + 1 - i
      {
        NextNumber(done, record, i - record.First());
        AckSnoc(m, e, done + nums[..i - record.First()], i, receivedAt);
        AckOne(i, receivedAt);
        i := i + 1;
      }
      assert nums[..|nums|] == nums;
    }

    /** One number given up. */
    method LoseOne(n: nat, buf: Buffer.SendBuffer)
      requires Valid()
      modifies this`reliable, this`inflight, buf`resend
      ensures Valid()
      ensures n in old(reliable) ==>
                reliable == old(reliable) - {n} && buf.resend == old(buf.resend) + Again(old(reliable)[n])
      ensures n !in old(reliable) ==> reliable == old(reliable) && buf.resend == old(buf.resend)
    {
      if n in reliable {
        var entry := reliable[n];
        InflightRemove(reliable, bound, n);
        reliable := reliable - {n};
        inflight := inflight - |entry.frames|;
        buf.Resend(entry.penalty, entry.frames);
      }
    }

    method OnNackInto(records: seq<Ack.Record>, buf: Buffer.SendBuffer)
      requires Valid()
      modifies this`reliable, this`inflight, buf`resend
      ensures Valid()
      ensures Lost(old(reliable), old(buf.resend), Ack.Expand(records), reliable, buf.resend)
    {
      for i := 0 to |records|
        invariant Valid()
        invariant Lost(old(reliable), old(buf.resend), Ack.Expand(records[..i]), reliable, buf.resend)
      {
        assert records[..i + 1][..i] == records[..i];
        LoseRecord(records[i], buf, Ack.Expand(records[..i]), old(reliable), old(buf.resend));
      }
      assert records[..|records|] == records;
    }

    method LoseRecord(record: Ack.Record, buf: Buffer.SendBuffer, ghost done: seq<nat>, ghost m: Entries,
                      ghost queue: seq<Buffer.PenaltyFrame>)
      requires Valid() && Lost(m, queue, done, reliable, buf.resend)
      modifies this`reliable, this`inflight, buf`resend
      ensures Valid() && Lost(m, queue, done + record.Numbers(), reliable, buf.resend)
    {
      hide Lost;
      hide Again;
      hide Inflight;
      var i: nat := record.First();
      ghost var nums := record.Numbers();
      assert done + nums[..0] == done;
      while i <= record.Last()
        invariant record.First() <= i && (record.First() <= record.Last() ==> i <= record.Last() + 1)
        invariant Valid() && i - record.First() <= |nums|
        invariant Lost(m, queue, done + nums[..i - record.First()], reliable, buf.resend)
        decreases record.Last() + 1 - i
      {
        NextNumber(done, record, i - record.First());
        LostSnoc(m, queue, done + nums[..i - record.First()], i, reliable, buf.resend);
        LoseOne(i, buf);
        i := i + 1;
      }
      assert nums[..|nums|] == nums;
    }

    /**
     * What a call at `now` leaves behind: an expired entry can only be a recent one, and only until 3 s after
     * the last scan.
     */
    ghost predicate Fresh(now: nat)
      reads this
    {
      FreshAt(reliable, recent, lastScan, now)
    }

    /**
     * Collect expired entries into the resend tier, unless the next scan is not due. `order` lists
     * the collected numbers in the order the map was walked, which is not determined.
     */
    method ProcessStales(buf: Buffer.SendBuffer, now: nat) returns (ghost order: seq<nat>)
      requires Valid() && now >= lastScan
      modifies this, buf`resend, estimator
      ensures Valid() && bound == old(bound)
      ensures Fresh(now)
      ensures Lost(old(reliable), old(buf.resend), order, reliable, buf.resend)
      ensures estimator.State() == if order == [] then old(estimator.State()) else old(estimator.State()).Cleared()
      ensures (exists n :: n in reliable && reliable[n].expiredAt <= now)
              <==> now < old(lastRecordExpiredAt) && exists n :: n in old(reliable) && old(reliable)[n].expiredAt <= now
      ensures old(reliable) == map[] || now < old(lastRecordExpiredAt) ==>
                order == [] && lastScan == old(lastScan) && recent == old(recent)
                    && lastRecordExpiredAt == old(lastRecordExpiredAt)
      ensures old(reliable) != map[] && now >= old(lastRecordExpiredAt) ==>
                && lastScan == now && recent == {}
                && (forall n :: n in order <==> n in old(reliable) && old(reliable)[n].expiredAt <= now)
                && (forall n :: n in reliable ==> reliable[n].expiredAt > now)
                && lastRecordExpiredAt <= now + Min(old(estimator.State()).Rto(), MAX_SKIP_SCAN_RTO)
                && (lastRecordExpiredAt == now + Min(old(estimator.State()).Rto(), MAX_SKIP_SCAN_RTO)
                    || exists n :: n in reliable && lastRecordExpiredAt == reliable[n].expiredAt)
    {
      hide Inflight;
      hide FrameMap;
      hide Again;
      order := [];
      if reliable == map[] || now < lastRecordExpiredAt {
        return;
      }
      var rto := estimator.State().Rto();
      var lenBefore := |reliable|;
      var minExpiredAt;
      minExpiredAt, order := Retain(buf, now, now + Min(rto, MAX_SKIP_SCAN_RTO));
      lastRecordExpiredAt := minExpiredAt;
      lastScan, recent := now, {};
      Collected(old(reliable), order);
      if lenBefore > |reliable| {
        estimator.Clear();
      }
    }

    /** The walk over the map, in any order. */
    method Retain(buf: Buffer.SendBuffer, now: nat, limit: nat) returns (minExpiredAt: nat, ghost order: seq<nat>)
      requires (forall n :: n in reliable ==> n < bound) && inflight == Inflight(reliable, bound)
      modifies this`reliable, this`inflight, buf`resend
      ensures (forall n :: n in reliable ==> n < bound) && inflight == Inflight(reliable, bound)
      ensures Lost(old(reliable), old(buf.resend), order, reliable, buf.resend)
      ensures forall n :: n in order <==> n in old(reliable) && old(reliable)[n].expiredAt <= now
      ensures forall n :: n in reliable ==>
                n in old(reliable) && reliable[n] == old(reliable)[n] && reliable[n].expiredAt > now
      ensures minExpiredAt <= limit && forall n :: n in reliable ==> minExpiredAt <= reliable[n].expiredAt
      ensures minExpiredAt == limit || exists n :: n in reliable && minExpiredAt == reliable[n].expiredAt
    {
      hide Lost;
      hide Inflight;
      LoseNothing(reliable, buf.resend);
      minExpiredAt, order := limit, [];
      ghost var least: nat := 0;
      var todo := reliable.Keys;
      while todo != {}
        invariant todo <= reliable.Keys <= old(reliable).Keys
        invariant inflight == Inflight(reliable, bound)
        invariant Lost(old(reliable), old(buf.resend), order, reliable, buf.resend)
        invariant forall n :: n in order <==> n in old(reliable) && n !in todo && old(reliable)[n].expiredAt <= now
        invariant forall n :: n in reliable ==> reliable[n] == old(reliable)[n]
        invariant forall n :: n in reliable && n !in todo ==>
                    reliable[n].expiredAt > now && minExpiredAt <= reliable[n].expiredAt
        invariant minExpiredAt <= limit
        invariant minExpiredAt == limit
                  || (least in reliable && least !in todo && minExpiredAt == reliable[least].expiredAt)
        decreases |todo|
      {
        var n :| n in todo;
        todo := todo - {n};
        var entry := reliable[n];
        if entry.expiredAt <= now {
          InflightRemove(reliable, bound, n);
          LostSnoc(old(reliable), old(buf.resend), order, n, reliable, buf.resend);
          reliable := reliable - {n};
          inflight := inflight - |entry.frames|;
          buf.Resend(entry.penalty, entry.frames);
          order := order + [n];
        } else {
          least := if minExpiredAt <= entry.expiredAt then least else n;
          minExpiredAt := Min(minExpiredAt, entry.expiredAt);
        }
      }
    }
  }

  lemma {:induction false} LosesSubset(m: Entries, order: seq<nat>)
    ensures LoseAll(m, order).0.Keys <= m.Keys
    ensures forall n :: n in order ==> n !in LoseAll(m, order).0
  {
    if order != [] {
      LosesSubset(m, order[..|order| - 1]);
      assert order == order[..|order| - 1] + [order[|order| - 1]];
    }
  }

  /** The map got smaller exactly when something was collected. */
  lemma Collected(m: Entries, order: seq<nat>)
    requires forall n :: n in order ==> n in m
    ensures |LoseAll(m, order).0| < |m| <==> order != []
  {
    LosesSubset(m, order);
    var after := LoseAll(m, order).0;
    assert |m.Keys| == |m| && |after.Keys| == |after|;
    assert m.Keys == after.Keys + (m.Keys - after.Keys);
    assert order != [] ==> order[0] in m.Keys - after.Keys;
  }

  lemma AckFirst(m: Entries, e: Estimator.Estimate)
    requires 0 in m
    ensures AckAll(m, e, Ack.Expand([Ack.Single(0)]), 1) == (m - {0}, e.Updated(Since(1, m[0].sendAt)))
  {
    var records := [Ack.Single(0)];
    assert records[..0] == [];
    assert Ack.Expand(records) == [0];
    AckSnoc(m, e, [], 0, 1);
  }

  /**
   * A skipped scan that leaves an expired entry: two sets are recorded and scanned under the first,
   * large timeout; an acknowledgement shrinks it to little more than 1 ms; a third set is recorded and
   * expires before the next scan is due.
   */
  method LateEntry(frame: Frame) returns (m: ResendMap, now: nat)
    ensures fresh(m) && m.Valid() && 2 in m.reliable && m.reliable[2].expiredAt < now && m.reliable[2].frames == [frame]
    ensures m.lastScan <= now < m.lastRecordExpiredAt
  {
    hide ResendMap.Valid;
    hide FrameMap;
    hide LoseAll;
    hide AckAll;
    var buf;
    m, buf := TwoScanned(frame);
    AckFirst(m.reliable, m.estimator.State());
    m.OnAck([Ack.Single(0)], 1);
    m.Record(2, 0, [frame], 1);
    now := 2 * Estimator.MILLISECOND;
    ghost var before := m.reliable;
    ghost var order := m.ProcessStales(buf, now);
    SkippedKeeps(before);
  }

  /** Two sets recorded and scanned at the start, under the first timeout. */
  method TwoScanned(frame: Frame) returns (m: ResendMap, buf: Buffer.SendBuffer)
    ensures fresh(m) && fresh(m.estimator) && fresh(buf) && m.Valid() && m.bound == 2 && m.lastScan == 0
    ensures m.reliable.Keys == {0, 1} && m.reliable[0].sendAt == 0 && m.estimator.State() == Estimator.NEW
    ensures m.lastRecordExpiredAt == Estimator.NEW.Rto()
  {
    hide ResendMap.Valid;
    hide FrameMap;
    hide AckAll;
    m := new ResendMap(0);
    buf := new Buffer.SendBuffer();
    m.Record(0, 0, [frame], 0);
    m.Record(1, 0, [frame], 0);
    ghost var before := m.reliable;
    ghost var order := m.ProcessStales(buf, 0);
    NoneCollected(order);
    SkippedKeeps(before);
  }

  lemma NoneCollected(order: seq<nat>)
    ensures (forall n :: n !in order) ==> order == []
  {
    if order != [] {
      assert order[0] in order;
    }
  }

  lemma SkippedKeeps(m: Entries)
    ensures LoseAll(m, []).0 == m
  {
  }
}
