/** The sending side as its history shows it: where every accepted frame is, over every run. */
module Sender {
  import opened Types

  datatype View = View(
    queued: multiset<Frame>,        // waiting in one of the four tiers
    recorded: map<nat, seq<Frame>>, // sets kept for resending, by sequence number
    next: nat,                      // next sequence number
    sent: map<nat, seq<Frame>>,     // every set transmitted
    accepted: multiset<Frame>,      // every frame handed to the layer
    acked: multiset<Frame>,         // frames of acknowledged sets
    confirmed: set<nat>,            // sequence numbers that acknowledged a recorded set
    fired: multiset<Frame>)         // frames sent in sets without a reliable frame
  {
    function Accept(f: Frame): View {
      this.(queued := queued + multiset{f}, accepted := accepted + multiset{f})
    }

    /** One packed set leaves; it is kept for resending when it holds a reliable frame. */
    function Transmit(frames: seq<Frame>): View {
      var v := this.(queued := queued - multiset(frames), sent := sent[next := frames], next := next + 1);
      if AnyReliable(frames) then v.(recorded := recorded[next := frames]) else v.(fired := fired + multiset(frames))
    }

    function Confirm(n: nat): View {
      if n !in recorded then this
      else this.(recorded := recorded - {n}, acked := acked + multiset(recorded[n]), confirmed := confirmed + {n})
    }

    /** A set reported lost, or timed out: its frames are queued again. */
    function Requeue(n: nat): View {
      if n !in recorded then this
      else this.(recorded := recorded - {n}, queued := queued + multiset(recorded[n]))
    }
  }

  predicate AnyReliable(frames: seq<Frame>) {
    exists i :: 0 <= i < |frames| && frames[i].IsReliable()
  }

  const INITIAL: View := View(multiset{}, map[], 0, map[], multiset{}, multiset{}, {}, multiset{})

  datatype Action =
    | Accepting(frame: Frame)
    | Transmitting(frames: seq<Frame>)
    | Confirming(num: nat)
    | Requeueing(num: nat)

  ghost predicate Enabled(v: View, a: Action) {
    a.Transmitting? ==> multiset(a.frames) <= v.queued
  }

  function Apply(v: View, a: Action): View {
    match a
    case Accepting(f) => v.Accept(f)
    case Transmitting(frames) => v.Transmit(frames)
    case Confirming(n) => v.Confirm(n)
    case Requeueing(n) => v.Requeue(n)
  }

  function Replay(v: View, log: seq<Action>): View {
    if log == [] then v else Apply(Replay(v, log[..|log| - 1]), log[|log| - 1])
  }

  ghost predicate IsRun(v: View, log: seq<Action>) {
    log == [] || (IsRun(v, log[..|log| - 1]) && Enabled(Replay(v, log[..|log| - 1]), log[|log| - 1]))
  }

  lemma {:induction false} RunAppend(v: View, a: seq<Action>, b: seq<Action>)
    requires IsRun(v, a) && IsRun(Replay(v, a), b)
    ensures IsRun(v, a + b) && Replay(v, a + b) == Replay(Replay(v, a), b)
    decreases |b|
  {
    hide Apply;
    hide Enabled;
    if b == [] {
      assert a + b == a;
    } else {
      RunAppend(v, a, b[..|b| - 1]);
      assert (a + b)[..|a + b| - 1] == a + b[..|b| - 1];
    }
  }

  /** The frames of the sets recorded under numbers below `n`. */
  ghost function Recorded(m: map<nat, seq<Frame>>, n: nat): (r: multiset<Frame>) {
    if n == 0 then multiset{} else Recorded(m, n - 1) + (if n - 1 in m then multiset(m[n - 1]) else multiset{})
  }

  lemma {:induction false} RecordedAdd(m: map<nat, seq<Frame>>, n: nat, k: nat, frames: seq<Frame>)
    requires k !in m
    ensures Recorded(m[k := frames], n) == Recorded(m, n) + (if k < n then multiset(frames) else multiset{})
  {
    if n > 0 {
      RecordedAdd(m, n - 1, k, frames);
    }
  }

  lemma RecordedRemove(m: map<nat, seq<Frame>>, n: nat, k: nat)
    requires k in m && k < n
    ensures Recorded(m, n) == Recorded(m - {k}, n) + multiset(m[k])
  {
    RecordedAdd(m - {k}, n, k, m[k]);
    assert (m - {k})[k := m[k]] == m;
  }

  /**
   * Conservation: every accepted frame is queued, recorded, acknowledged or was sent in a set without
   * reliable frames, and no reliable frame is in the last part.
   */
  ghost predicate Conserved(v: View) {
    && v.accepted == v.queued + Recorded(v.recorded, v.next) + v.acked + v.fired
    && (forall f :: f in v.fired ==> !f.IsReliable())
  }

  /**
   * Every transmission has its own number, recorded sets are transmissions, and acknowledged frames were in
   * confirmed ones.
   */
  ghost predicate Traced(v: View) {
    && (forall n :: n in v.sent ==> n < v.next)
    && (forall n :: n in v.recorded ==> n in v.sent && v.recorded[n] == v.sent[n])
    && (forall n :: n in v.confirmed ==> n in v.sent)
    && (forall f :: f in v.acked ==> exists n :: n in v.confirmed && f in v.sent[n])
  }

  lemma TransmitConserves(v: View, frames: seq<Frame>)
    requires Conserved(v) && v.next !in v.recorded && multiset(frames) <= v.queued
    ensures Conserved(v.Transmit(frames))
  {
    hide AnyReliable;
    hide Conserved;
    if AnyReliable(frames) {
      RecordConserves(v, frames);
    } else {
      FireConserves(v, frames);
    }
  }

  lemma RecordConserves(v: View, frames: seq<Frame>)
    requires Conserved(v) && v.next !in v.recorded && multiset(frames) <= v.queued && AnyReliable(frames)
    ensures Conserved(v.Transmit(frames))
  {
    hide AnyReliable;
    Shift(v.queued, Recorded(v.recorded, v.next), v.acked, v.fired, multiset(frames));
    RecordedAdd(v.recorded, v.next, v.next, frames);
  }

  lemma FireConserves(v: View, frames: seq<Frame>)
    requires Conserved(v) && v.next !in v.recorded && multiset(frames) <= v.queued && !AnyReliable(frames)
    ensures Conserved(v.Transmit(frames))
  {
    hide AnyReliable;
    var x := multiset(frames);
    Shift(v.queued, Recorded(v.recorded, v.next), v.acked, v.fired, x);
    assert Recorded(v.recorded, v.next + 1) == Recorded(v.recorded, v.next);
    UnreliableOnly(frames);
  }

  lemma Shift(queued: multiset<Frame>, recorded: multiset<Frame>, acked: multiset<Frame>, fired: multiset<Frame>,
              x: multiset<Frame>)
    requires x <= queued
    ensures queued + recorded + acked + fired == (queued - x) + (recorded + x) + acked + fired
    ensures queued + recorded + acked + fired == (queued - x) + recorded + acked + (fired + x)
  {
  }

  lemma UnreliableOnly(frames: seq<Frame>)
    requires !AnyReliable(frames)
    ensures forall f :: f in multiset(frames) ==> !f.IsReliable()
  {
    forall f | f in multiset(frames)
      ensures !f.IsReliable()
    {
      var i :| 0 <= i < |frames| && frames[i] == f;
    }
  }

  lemma MoveConserves(v: View, n: nat)
    requires Conserved(v) && Traced(v)
    ensures Conserved(v.Confirm(n)) && Conserved(v.Requeue(n))
  {
    if n in v.recorded {
      RecordedRemove(v.recorded, v.next, n);
    }
  }

  lemma StepTraced(v: View, a: Action)
    requires Traced(v)
    ensures Traced(Apply(v, a))
  {
    hide Traced;
    match a
    case Accepting(f) => AcceptTraced(v, f);
    case Transmitting(frames) => TransmitTraced(v, frames);
    case Confirming(n) => ConfirmTraced(v, n);
    case Requeueing(n) => RequeueTraced(v, n);
  }

  lemma AcceptTraced(v: View, f: Frame)
    requires Traced(v)
    ensures Traced(v.Accept(f))
  {
  }

  lemma RequeueTraced(v: View, n: nat)
    requires Traced(v)
    ensures Traced(v.Requeue(n))
  {
  }

  lemma TransmitTraced(v: View, frames: seq<Frame>)
    requires Traced(v)
    ensures Traced(v.Transmit(frames))
  {
    var v' := v.Transmit(frames);
    forall f | f in v'.acked
      ensures exists n :: n in v'.confirmed && f in v'.sent[n]
    {
      var n :| n in v.confirmed && f in v.sent[n];
      assert v'.sent[n] == v.sent[n];
    }
  }

  lemma ConfirmTraced(v: View, k: nat)
    requires Traced(v)
    ensures Traced(v.Confirm(k))
  {
    var v' := v.Confirm(k);
    forall f | f in v'.acked
      ensures exists n :: n in v'.confirmed && f in v'.sent[n]
    {
      if f in v.acked {
        var n :| n in v.confirmed && f in v.sent[n];
        assert n in v'.confirmed;
      } else {
        assert k in v'.confirmed && f in v.recorded[k];
      }
    }
  }

  lemma StepConserves(v: View, a: Action)
    requires Conserved(v) && Traced(v) && Enabled(v, a)
    ensures Conserved(Apply(v, a))
  {
    hide Conserved;
    hide Traced;
    match a
    case Accepting(f) => AcceptConserves(v, f);
    case Transmitting(frames) =>
      NextIsFree(v);
      TransmitConserves(v, frames);
    case Confirming(n) => MoveConserves(v, n);
    case Requeueing(n) => MoveConserves(v, n);
  }

  lemma NextIsFree(v: View)
    requires Traced(v)
    ensures v.next !in v.recorded
  {
  }

  lemma AcceptConserves(v: View, f: Frame)
    requires Conserved(v)
    ensures Conserved(v.Accept(f))
  {
  }

  /** Conservation over every interleaving of sends, transmissions, acknowledgements, losses and timeouts. */
  lemma {:induction false} RunConserves(v: View, log: seq<Action>)
    requires Conserved(v) && Traced(v) && IsRun(v, log)
    ensures Conserved(Replay(v, log)) && Traced(Replay(v, log))
  {
    if log != [] {
      var front := log[..|log| - 1];
      RunConserves(v, front);
      StepConserves(Replay(v, front), log[|log| - 1]);
      StepTraced(Replay(v, front), log[|log| - 1]);
    }
  }

  /** How many frames are queued or recorded. */
  ghost function Held(v: View): nat {
    |v.queued| + |Recorded(v.recorded, v.next)|
  }

  lemma HeldCount(v: View)
    requires Conserved(v)
    ensures |v.accepted| == Held(v) + |v.acked| + |v.fired|
  {
  }

  /** No step but accepting a frame makes more frames held. */
  lemma StepHeld(v: View, a: Action)
    requires Conserved(v) && Traced(v) && Enabled(v, a)
    ensures Held(Apply(v, a)) <= Held(v) + if a.Accepting? then 1 else 0
  {
    hide Conserved;
    hide Traced;
    hide Held;
    hide AnyReliable;
    StepConserves(v, a);
    HeldCount(v);
    HeldCount(Apply(v, a));
  }

  /** Frames held over a run that accepts none. */
  lemma {:induction false} RunHeld(v: View, log: seq<Action>)
    requires Conserved(v) && Traced(v) && IsRun(v, log) && forall i :: 0 <= i < |log| ==> !log[i].Accepting?
    ensures Held(Replay(v, log)) <= Held(v)
  {
    hide Conserved;
    hide Traced;
    hide Held;
    if log != [] {
      var front := log[..|log| - 1];
      RunHeld(v, front);
      RunConserves(v, front);
      StepHeld(Replay(v, front), log[|log| - 1]);
    }
  }

  lemma InitialConserved()
    ensures Conserved(INITIAL) && Traced(INITIAL)
  {
  }

  lemma {:induction false} RecordedNothing(n: nat)
    ensures Recorded(map[], n) == multiset{}
  {
    if n > 0 {
      RecordedNothing(n - 1);
    }
  }

  /**
   * With nothing queued and nothing recorded, every reliable frame ever accepted was carried by a
   * transmission whose number was acknowledged.
   */
  lemma DrainedMeansConfirmed(v: View, f: Frame)
    requires Conserved(v) && Traced(v)
    requires v.queued == multiset{} && v.recorded == map[]
    requires f in v.accepted && f.IsReliable()
    ensures exists n :: n in v.confirmed && n in v.sent && f in v.sent[n]
  {
    RecordedNothing(v.next);
    assert f in v.acked;
  }
}
