/** Runs of the shard: what it has put on the air, what it has paid for privacy, and what a
    delta does to its model. */
module ShardRuns {
  import opened Words
  import opened Counters
  import opened RealSums
  import opened Quant
  import opened TopK
  import opened Sparse
  import opened Frame
  import opened Transmission
  import opened FragmentPool
  import opened ShardSteps
  import opened Completion
  import Reassembly
  import TopKLaws
  import ErrorFeedback

  // ----- the uplink

  /** The packets sent since the last update was encoded. */
  function OnAir(s: Shard, run: seq<Step>): seq<bytes> {
    if run == [] then []
    else
      var front, step := run[..|run| - 1], run[|run| - 1];
      if Last(s, front).state == Encoding && step.event.Tick? then [] else OnAir(s, front) + step.sent
  }

  function AllFrames(s: Shard): seq<bytes>
    requires |s.update| <= MAX_ENTRIES
  {
    Frames(UPDATE, s.id, s.round, s.update, FragmentCount(|s.update|))
  }

  /** While transmitting, the air has seen a prefix of the fragments; awaiting the answer, all of them. */
  ghost predicate Carried(s: Shard, air: seq<bytes>)
    requires ShardOk(s)
  {
    && (s.state == Transmitting ==> air == Frames(UPDATE, s.id, s.round, s.update, s.fragSent))
    && (s.state == AwaitAck ==> air == AllFrames(s))
  }

  lemma HeardCarries(s: Shard, p: Packet, air: seq<bytes>)
    requires ShardOk(s) && Carried(s, air)
    ensures ShardOk(Heard(s, p)) && Carried(Heard(s, p), air)
  {
    HeardKeeps(s, p);
    hide Decoded, Appended, Frames, FragmentCount;
  }

  lemma AttemptCarries(s: Shard, sendOk: bool, air: seq<bytes>)
    requires ShardOk(s) && Carried(s, air) && s.state == Transmitting && s.fragTotal > 0
    ensures ShardOk(Attempted(s, sendOk))
    ensures Carried(Attempted(s, sendOk),
                    air + if sendOk then [Wire(FragmentFrame(UPDATE, s.id, s.round, s.update, s.fragSent))] else [])
  {
    FramesGrow(UPDATE, s.id, s.round, s.update, s.fragSent);
    hide Frames, FragmentFrame, Wire;
    assert air + [] == air;
  }

  lemma TickCarries(s: Shard, e: Env, t: Shard, sent: seq<bytes>, air: seq<bytes>)
    requires ShardOk(s) && EnvOk(s, e) && Ticks(s, e, t, sent) && Carried(s, air)
    ensures ShardOk(t) && Carried(t, if s.state == Encoding then [] else air + sent)
  {
    TickKeeps(s, e, t, sent);
    assert air + [] == air;
    if s.state == Transmitting && s.fragTotal > 0 {
      AttemptCarries(s, e.sendOk, air);
    } else if s.state in {Idle, AwaitAck, RecvDelta} && e.packet.raw != [] {
      HeardCarries(s, e.packet, air);
    }
    hide Heard, Attempted, IsEncoding, FragmentFrame, Wire, Noisy;
  }

  /** Whatever sends fail and whatever is received in between. */
  lemma {:induction false} SentIsPrefix(s: Shard, run: seq<Step>)
    requires IsRun(s, run) && s.state != Transmitting && s.state != AwaitAck
    ensures ShardOk(Last(s, run)) && Carried(Last(s, run), OnAir(s, run))
    decreases |run|
  {
    if run != [] {
      var front, step := run[..|run| - 1], run[|run| - 1];
      SentIsPrefix(s, front);
      hide Carried, Heard, Ticks, ShardOk, EnvOk;
      var before := Last(s, front);
      match step.event {
        case Tick(e) => TickCarries(before, e, step.after, step.sent, OnAir(s, front));
        case Rx(p) =>
          HeardCarries(before, p, OnAir(s, front));
          assert OnAir(s, front) + [] == OnAir(s, front);
      }
    }
  }

  /** The packets as they arrive at the Herald's pool. */
  function Arrivals(air: seq<bytes>, now: int): (log: seq<Reassembly.Event>)
    requires forall k :: 0 <= k < |air| ==> Decoded(air[k]).Ok?
    ensures |log| == |air|
  {
    seq(|air|, k requires 0 <= k < |air| => Reassembly.Arrive(Decoded(air[k]).value, now))
  }

  /** The fragments 0 to n - 1, one after the other. */
  function FragmentLog(sender: u16, round: u8, entries: seq<Entry>, n: nat, now: int): (log: seq<Reassembly.Event>)
    requires |entries| <= MAX_ENTRIES && n <= FragmentCount(|entries|)
    ensures |log| == n
    ensures forall k :: 0 <= k < n ==>
              log[k] == Reassembly.Arrive(FragmentFrame(UPDATE, sender, round, entries, k), now)
  {
    if n == 0 then []
    else
      FragmentLog(sender, round, entries, n - 1, now)
      + [Reassembly.Arrive(FragmentFrame(UPDATE, sender, round, entries, n - 1), now)]
  }

  lemma FramesArrive(sender: u16, round: u8, entries: seq<Entry>, n: nat, now: int)
    requires |entries| <= MAX_ENTRIES && n <= FragmentCount(|entries|)
    ensures var air := Frames(UPDATE, sender, round, entries, n);
            (forall k :: 0 <= k < n ==> Decoded(air[k]).Ok?) &&
            Arrivals(air, now) == FragmentLog(sender, round, entries, n, now)
  {
    var air := Frames(UPDATE, sender, round, entries, n);
    forall k | 0 <= k < n
      ensures Decoded(air[k]) == Ok(FragmentFrame(UPDATE, sender, round, entries, k))
    {
      FragmentOnAir(UPDATE, sender, round, entries, k);
    }
  }

  function Ascending(n: nat): (s: seq<Signal>)
    ensures |s| == n && forall k :: 0 <= k < n ==> s[k] == Arrival(k)
  {
    if n == 0 then [] else Ascending(n - 1) + [Arrival(n - 1)]
  }

  /** In ascending order the fragments are complete with the last one, and not before. */
  lemma {:induction false} AscendingHeard(n: nat, total: nat)
    requires n <= total && total > 0
    ensures Held(Ascending(n), total) == if n == total then {} else Upto(n)
    ensures Completions(Ascending(n), total) == if n == total then 1 else 0
  {
    if n > 0 {
      hide Hear, Finishes, Upto;
      AscendingHeard(n - 1, total);
      HearAscending(n - 1, total);
      HeldMore(Ascending(n - 1), Arrival(n - 1), total);
    }
  }

  lemma HearAscending(n: nat, total: nat)
    requires n < total
    ensures Hear(Upto(n), Arrival(n), total) == if n + 1 == total then {} else Upto(n + 1)
    ensures Finishes(Upto(n), Arrival(n), total) <==> n + 1 == total
  {
    assert Upto(n) + {n} == Upto(n + 1);
    assert |Upto(n + 1)| == n + 1 && |Upto(total)| == total;
    assert n > 0 ==> 0 in Upto(n);
  }

  /** With an empty slot no fragment of the update is rejected for want of room. */
  lemma TakenIntoAccount(slots: seq<Slot>, timeout: u32, f: Frame, now: int, sender: u16, entries: seq<Entry>)
    requires PoolOk(slots) && Reassembly.IsUpdate(entries) && Fits(f) && Reassembly.IsFragment(f, sender, entries)
    requires f.fragIndex == 0 ==> FirstEmpty(slots) < |slots|
    ensures Reassembly.SignalOf(slots, timeout, Reassembly.Arrive(f, now), sender) == [Arrival(f.fragIndex)]
  {
    Reassembly.FragmentFits(f, sender, entries);
  }

  /** A log with one more fragment of the update. */
  lemma OneMore(slots: seq<Slot>, timeout: u32, log: seq<Reassembly.Event>, f: Frame, now: int, sender: u16,
                entries: seq<Entry>)
    requires PoolOk(slots) && Reassembly.IsUpdate(entries) && Fits(f) && Reassembly.IsFragment(f, sender, entries)
    requires Reassembly.LogOk(log) && Reassembly.Delivers(log, sender, entries)
    requires FirstEmpty(slots) < |slots| && (log != [] ==> f.fragIndex != 0)
    ensures var more := log + [Reassembly.Arrive(f, now)];
            Reassembly.LogOk(more) && Reassembly.Delivers(more, sender, entries) &&
            Reassembly.Signals(slots, timeout, more, sender) ==
              Reassembly.Signals(slots, timeout, log, sender) + [Arrival(f.fragIndex)]
  {
    var before := Reassembly.Run(slots, timeout, log);
    TakenIntoAccount(before, timeout, f, now, sender, entries);
    assert (log + [Reassembly.Arrive(f, now)])[..|log|] == log;
    hide PoolOk, Fits, Reassembly.IsFragment, Reassembly.Step, Reassembly.SignalOf;
  }

  /** Fragments sent one after the other are a delivery of the update. */
  lemma {:induction false} InOrder(slots: seq<Slot>, timeout: u32, sender: u16, round: u8, entries: seq<Entry>,
                                   n: nat, now: int)
    requires PoolOk(slots) && Reassembly.IsUpdate(entries) && n <= FragmentCount(|entries|)
    requires FirstEmpty(slots) < |slots|
    ensures var log := FragmentLog(sender, round, entries, n, now);
            Reassembly.LogOk(log) && Reassembly.Delivers(log, sender, entries) &&
            Reassembly.Signals(slots, timeout, log, sender) == Ascending(n)
  {
    hide FragmentFrame, PoolOk, Fits, Reassembly.IsFragment, FragmentCount, Reassembly.Delivers, Reassembly.LogOk,
         Reassembly.Signals;
    if n == 0 {
      NothingDelivered(slots, timeout, sender, entries);
    } else {
      InOrder(slots, timeout, sender, round, entries, n - 1, now);
      FragmentFrameFits(UPDATE, sender, round, entries, n - 1);
      OneMore(slots, timeout, FragmentLog(sender, round, entries, n - 1, now),
              FragmentFrame(UPDATE, sender, round, entries, n - 1), now, sender, entries);
    }
  }

  lemma NothingDelivered(slots: seq<Slot>, timeout: u32, sender: u16, entries: seq<Entry>)
    requires PoolOk(slots) && Reassembly.IsUpdate(entries)
    ensures Reassembly.LogOk([]) && Reassembly.Delivers([], sender, entries)
    ensures Reassembly.Signals(slots, timeout, [], sender) == []
  {
  }

  lemma NoSlotYet(slots: seq<Slot>, id: u16, entries: seq<Entry>)
    requires PoolOk(slots) && Reassembly.IsUpdate(entries)
    requires forall i :: 0 <= i < |slots| ==> slots[i].state != Empty ==> slots[i].shardId != id
    ensures Reassembly.Gathering(slots, id, entries, {})
  {
    hide SlotOk;
  }

  lemma LogCompletes(slots: seq<Slot>, timeout: u32, sender: u16, round: u8, entries: seq<Entry>, now: int, n: nat)
    requires PoolOk(slots) && FirstEmpty(slots) < |slots| && Reassembly.IsUpdate(entries)
    requires forall i :: 0 <= i < |slots| ==> slots[i].state != Empty ==> slots[i].shardId != sender
    ensures var log := FragmentLog(sender, round, entries, FragmentCount(|entries|), now);
            Reassembly.LogOk(log) &&
            var outputs := Reassembly.Outputs(slots, timeout, log, sender);
            |outputs| == 1 && Dense(outputs[0], n) == Dense(entries, n)
  {
    NoSlotYet(slots, sender, entries);
    FragmentsCover(entries);
    hide PoolOk, FragmentFrame, Reassembly.Run, Reassembly.Gathering, Reassembly.Delivers, Reassembly.Signals,
         Reassembly.LogOk, Reassembly.Outputs, Held, Completions, FragmentCount, Dense;
    var total := FragmentCount(|entries|);
    InOrder(slots, timeout, sender, round, entries, total, now);
    var log := FragmentLog(sender, round, entries, total, now);
    Reassembly.Reassembled(slots, timeout, log, sender, entries);
    AscendingHeard(total, total);
    DenseUnordered(Reassembly.Outputs(slots, timeout, log, sender)[0], entries, n);
  }

  /** When the shard starts to wait for the answer, what it has sent makes the pool hand out one
      update, which decodes to the dense vector of the shard's. */
  lemma UplinkCompletes(s: Shard, run: seq<Step>, slots: seq<Slot>, timeout: u32, now: int, n: nat)
    requires IsRun(s, run) && s.state != Transmitting && s.state != AwaitAck
    requires Last(s, run).state == AwaitAck && Last(s, run).update != []
    requires PoolOk(slots) && FirstEmpty(slots) < |slots|
    requires forall i :: 0 <= i < |slots| ==> slots[i].state != Empty ==> slots[i].shardId != s.id
    ensures var air := OnAir(s, run);
            (forall k :: 0 <= k < |air| ==> Decoded(air[k]).Ok?) &&
            var log := Arrivals(air, now);
            Reassembly.LogOk(log) &&
            var outputs := Reassembly.Outputs(slots, timeout, log, s.id);
            |outputs| == 1 && Dense(outputs[0], n) == Dense(Last(s, run).update, n)
  {
    SentIsPrefix(s, run);
    RunKeeps(s, run);
    var t := Last(s, run);
    hide IsRun, PoolOk, Decoded, Frames, Reassembly.Outputs, Reassembly.LogOk, FragmentCount, Dense, Last;
    FramesArrive(s.id, t.round, t.update, FragmentCount(|t.update|), now);
    LogCompletes(slots, timeout, s.id, t.round, t.update, now, n);
  }

  /** An update is empty exactly when every effective gradient is negligible. */
  lemma NothingToSend(eff: seq<real>, limit: nat, entries: seq<Entry>)
    requires IsEncoding(eff, limit, entries) && (limit > 0 || eff == [])
    ensures entries == [] <==> forall i :: 0 <= i < |eff| ==> Abs(eff[i]) < 0.000000001
  {
    var sel := Indices(entries);
    if entries != [] {
      assert sel[..0] == [] && IsBest(eff, sel[..0], sel[0]);
    } else {
      assert sel == [];
    }
  }

  /** The effective gradient of the last encoding. */
  ghost function LastEffective(s: Shard, run: seq<Step>): seq<real> {
    if run == [] then []
    else
      var front, step := run[..|run| - 1], run[|run| - 1];
      var before := Last(s, front);
      if !Codes(before, step) then LastEffective(s, front)
      else if |step.after.grad| == |before.residual| then Sums(step.after.grad, before.residual)
      else []
  }

  function SendLimit(n: nat): nat {
    Min(Min(TopKOf(n), MAX_ENTRIES), n)
  }

  /** The update that is being sent, or waits for its answer, encodes this gradient. */
  ghost predicate InFlightFrom(t: Shard, eff: seq<real>) {
    t.state == Transmitting || t.state == AwaitAck ==>
      |eff| == |t.params| && IsEncoding(eff, SendLimit(|eff|), t.update)
  }

  lemma StepInFlight(s: Shard, step: Step, eff: seq<real>)
    requires Takes(s, step) && InFlightFrom(s, eff)
    ensures Codes(s, step) ==> |step.after.grad| == |s.residual|
    ensures InFlightFrom(step.after, if Codes(s, step) then Sums(step.after.grad, s.residual) else eff)
  {
    hide Decoded, Appended, IsEncoding, Wire, FragmentFrame, Dense;
  }

  lemma {:induction false} UpdateInFlight(s: Shard, run: seq<Step>)
    requires IsRun(s, run) && s.state != Transmitting && s.state != AwaitAck
    ensures InFlightFrom(Last(s, run), LastEffective(s, run))
    decreases |run|
  {
    hide Takes, ShardOk, InFlightFrom;
    if run == [] {
      NothingInFlight(s, []);
    } else {
      var front, step := run[..|run| - 1], run[|run| - 1];
      UpdateInFlight(s, front);
      StepInFlight(Last(s, front), step, LastEffective(s, front));
    }
  }

  lemma NothingInFlight(s: Shard, eff: seq<real>)
    requires s.state != Transmitting && s.state != AwaitAck
    ensures InFlightFrom(s, eff)
  {
  }

  /** When the shard starts to wait for the answer, it has sent nothing since its encoding
      exactly when every effective gradient was negligible. */
  lemma SilentExactly(s: Shard, run: seq<Step>)
    requires IsRun(s, run) && s.state != Transmitting && s.state != AwaitAck && Last(s, run).state == AwaitAck
    ensures OnAir(s, run) == [] <==> Last(s, run).update == []
    ensures var eff := LastEffective(s, run);
            OnAir(s, run) == [] <==> forall i :: 0 <= i < |eff| ==> Abs(eff[i]) < 0.000000001
  {
    SentIsPrefix(s, run);
    UpdateInFlight(s, run);
    var t, eff := Last(s, run), LastEffective(s, run);
    FragmentsCover(t.update);
    hide Frames, IsRun, OnAir, LastEffective, IsEncoding, FragmentCount, Last;
    NothingToSend(eff, SendLimit(|eff|), t.update);
  }

  // ----- error feedback

  /** The encodings of a run, as rounds of error feedback. */
  ghost function RoundsOf(s: Shard, run: seq<Step>): seq<ErrorFeedback.Round> {
    if run == [] then []
    else
      var front, step := run[..|run| - 1], run[|run| - 1];
      RoundsOf(s, front) + if Codes(Last(s, front), step) then [RoundIn(step)] else []
  }

  function RoundIn(step: Step): ErrorFeedback.Round {
    ErrorFeedback.Round(step.after.grad, SendLimit(|step.after.grad|), step.after.update)
  }

  /** The residual changes with an encoding only, and then as in a round of error feedback. */
  lemma StepFeedsBack(s: Shard, step: Step)
    requires Takes(s, step)
    ensures !Codes(s, step) ==> step.after.residual == s.residual
    ensures Codes(s, step) ==>
              var r := RoundIn(step);
              |r.grad| == |s.residual| && IsEncoding(ErrorFeedback.Eff(s.residual, r), r.limit, r.entries) &&
              step.after.residual == Residue(ErrorFeedback.Eff(s.residual, r), Indices(r.entries))
  {
    hide Decoded, Appended, IsEncoding, Wire, FragmentFrame, Dense, Residue;
    if Codes(s, step) {
      assert ErrorFeedback.Eff(s.residual, RoundIn(step)) == Sums(step.after.grad, s.residual);
    }
  }

  /** Whatever happens in between, the encodings of a run are one run of error feedback, which
      ends with the shard's residual. */
  lemma {:induction false} FeedbackOfRun(s: Shard, run: seq<Step>)
    requires IsRun(s, run)
    ensures ErrorFeedback.IsRun(s.residual, RoundsOf(s, run))
    ensures ErrorFeedback.Final(s.residual, RoundsOf(s, run)) == Last(s, run).residual
    decreases |run|
  {
    hide Takes, ShardOk, Codes, RoundIn, ErrorFeedback.Eff, IsEncoding, Residue, Indices;
    if run != [] {
      var front, step := run[..|run| - 1], run[|run| - 1];
      FeedbackOfRun(s, front);
      var before := Last(s, front);
      StepFeedsBack(before, step);
      if Codes(before, step) {
        ErrorFeedback.RunGrows(s.residual, RoundsOf(s, front), RoundIn(step));
      } else {
        assert RoundsOf(s, front) + [] == RoundsOf(s, front);
      }
    }
  }

  /** What all the updates of a run decode to, plus the residual, follows the gradients within
      one step for each time the coordinate was sent. */
  lemma UpdatesKeepTrack(s: Shard, run: seq<Step>, i: nat)
    requires IsRun(s, run) && i < |s.residual|
    requires ErrorFeedback.IsRun(s.residual, RoundsOf(s, run)) && ErrorFeedback.InRange(s.residual, RoundsOf(s, run), i)
    ensures var rounds := RoundsOf(s, run);
            |Last(s, run).residual| == |s.residual| &&
            Abs(ErrorFeedback.Sent(rounds, i) + Last(s, run).residual[i]
                - (ErrorFeedback.Given(rounds, i) + s.residual[i]))
              <= ErrorFeedback.Hits(rounds, i) as real / 128.0
  {
    hide IsRun, Last, RoundsOf, ErrorFeedback.IsRun, ErrorFeedback.InRange, ErrorFeedback.Sent, ErrorFeedback.Given,
         ErrorFeedback.Hits, ErrorFeedback.Final;
    FeedbackOfRun(s, run);
    ErrorFeedback.FeedbackKeepsTrack(s.residual, RoundsOf(s, run), i);
  }

  // ----- the error counters

  /** The step offers a fragment to the radio in vain; the step receives bytes that are no frame. */
  predicate SendFails(s: Shard, step: Step) {
    s.state == Transmitting && s.fragTotal != 0 && step.event.Tick? && !step.event.env.sendOk
  }

  predicate Garbled(s: Shard, step: Step) {
    match step.event
    case Rx(p) => Decoded(p.raw).Err?
    case Tick(e) => s.state in {Idle, AwaitAck, RecvDelta} && e.packet.raw != [] && Decoded(e.packet.raw).Err?
  }

  function FailedSends(s: Shard, run: seq<Step>): nat {
    if run == [] then 0
    else
      var front := run[..|run| - 1];
      FailedSends(s, front) + One(SendFails(Last(s, front), run[|run| - 1]))
  }

  function GarbledPackets(s: Shard, run: seq<Step>): nat {
    if run == [] then 0
    else
      var front := run[..|run| - 1];
      GarbledPackets(s, front) + One(Garbled(Last(s, front), run[|run| - 1]))
  }

  lemma StepErrors(s: Shard, step: Step)
    requires Takes(s, step)
    ensures step.after.txErrors == Plus(s.txErrors, One(SendFails(s, step)))
    ensures step.after.rxErrors == Plus(s.rxErrors, One(Garbled(s, step)))
  {
    PlusNothing(s.txErrors);
    PlusNothing(s.rxErrors);
    hide Decoded, Appended, IsEncoding, Wire, FragmentFrame, Plus, Dense;
  }

  /** Over any run the two error counters follow the failed sends and the packets that are no
      frames, modulo 2^32. */
  lemma {:induction false} ErrorsCounted(s: Shard, run: seq<Step>)
    requires IsRun(s, run)
    ensures Last(s, run).txErrors == Plus(s.txErrors, FailedSends(s, run))
    ensures Last(s, run).rxErrors == Plus(s.rxErrors, GarbledPackets(s, run))
    decreases |run|
  {
    hide Takes, SendFails, Garbled, ShardOk, Plus;
    if run == [] {
      PlusNothing(s.txErrors);
      PlusNothing(s.rxErrors);
    } else {
      var front, step := run[..|run| - 1], run[|run| - 1];
      ErrorsCounted(s, front);
      var t := Last(s, front);
      StepErrors(t, step);
      PlusPlus(s.txErrors, FailedSends(s, front), One(SendFails(t, step)));
      PlusPlus(s.rxErrors, GarbledPackets(s, front), One(Garbled(t, step)));
    }
  }

  // ----- the price of privacy

  /** The step acknowledges a round; the step encodes an update. */
  predicate Acks(s: Shard, step: Step) {
    s.state == AwaitAck && step.after.state == RecvDelta
  }

  predicate Codes(s: Shard, step: Step) {
    s.state == Encoding && step.event.Tick?
  }

  function Acknowledged(s: Shard, run: seq<Step>): nat {
    if run == [] then 0
    else
      var front := run[..|run| - 1];
      Acknowledged(s, front) + One(Acks(Last(s, front), run[|run| - 1]))
  }

  function Encodings(s: Shard, run: seq<Step>): nat {
    if run == [] then 0
    else
      var front, step := run[..|run| - 1], run[|run| - 1];
      Encodings(s, front) + One(Codes(Last(s, front), step))
  }

  /** The acknowledgement that a packet is, if it is one. */
  function AckOf(p: Packet): seq<bytes> {
    if Decoded(p.raw).Ok? && Decoded(p.raw).value.kind == ACK then [p.raw] else []
  }

  /** The acknowledgement that the shard hears in a step; while it trains, encodes or transmits
      a tick does not listen. */
  function AckIn(s: Shard, step: Step): (acks: seq<bytes>)
    ensures |acks| <= 1
  {
    match step.event
    case Rx(p) => AckOf(p)
    case Tick(e) => if s.state in {Idle, AwaitAck, RecvDelta} then AckOf(e.packet) else []
  }

  /** All that it hears in a run, whether it waits for one or not. */
  function HeardAcks(s: Shard, run: seq<Step>): seq<bytes> {
    if run == [] then []
    else
      var front := run[..|run| - 1];
      HeardAcks(s, front) + AckIn(Last(s, front), run[|run| - 1])
  }

  function InFlight(s: Shard): nat {
    One(s.state == Transmitting || s.state == AwaitAck)
  }

  lemma AcksHear(s: Shard, step: Step)
    requires Takes(s, step) && Acks(s, step)
    ensures |AckIn(s, step)| == 1
  {
    hide Decoded, Appended, Dense;
  }

  /** A round is completed by an acknowledgement, each by another one. */
  lemma {:induction false} OneAckEach(s: Shard, run: seq<Step>)
    requires IsRun(s, run)
    ensures Acknowledged(s, run) <= |HeardAcks(s, run)|
    decreases |run|
  {
    hide Takes, ShardOk, Acks, AckIn;
    if run != [] {
      var front, step := run[..|run| - 1], run[|run| - 1];
      OneAckEach(s, front);
      if Acks(Last(s, front), step) {
        AcksHear(Last(s, front), step);
      }
    }
  }

  /** One step: what is acknowledged was in flight, and what goes into flight was encoded. */
  lemma StepPays(s: Shard, step: Step)
    requires Takes(s, step)
    ensures Paid(s, step.after, One(Acks(s, step)), One(Codes(s, step)))
  {
    PlusNothing(s.completed);
    PlusNothing(s.privacy.spent);
    hide Decoded, Appended, IsEncoding, Wire, FragmentFrame, Plus, Dense;
  }

  /** With `acked` rounds acknowledged and `encoded` updates encoded since s. */
  ghost predicate Paid(s: Shard, t: Shard, acked: nat, encoded: nat) {
    && acked + InFlight(t) <= encoded + InFlight(s)
    && t.completed == Plus(s.completed, acked)
    && t.privacy == s.privacy.(spent := Plus(s.privacy.spent, if Noisy(s.privacy) then encoded else 0))
  }

  lemma PaysOn(s: Shard, t: Shard, u: Shard, acked: nat, encoded: nat, ack: nat, code: nat)
    requires Paid(s, t, acked, encoded) && Paid(t, u, ack, code)
    ensures Paid(s, u, acked + ack, encoded + code)
  {
    PlusPlus(s.completed, acked, ack);
    PlusPlus(s.privacy.spent, encoded, code);
    PlusPlus(s.privacy.spent, 0, 0);
    hide Plus, InFlight;
  }

  /** Over any run, rounds completed and in flight never exceed the encodings; both counters
      follow modulo 2^32, and the privacy counter moves only when noise is really added. */
  lemma {:induction false} PrivacyAccounted(s: Shard, run: seq<Step>)
    requires IsRun(s, run)
    ensures Paid(s, Last(s, run), Acknowledged(s, run), Encodings(s, run))
    decreases |run|
  {
    hide Takes, Paid, InFlight, Noisy, ShardOk;
    if run == [] {
      PaidNothing(s);
    } else {
      var front, step := run[..|run| - 1], run[|run| - 1];
      PrivacyAccounted(s, front);
      var t := Last(s, front);
      StepPays(t, step);
      PaysOn(s, t, step.after, Acknowledged(s, front), Encodings(s, front), One(Acks(t, step)), One(Codes(t, step)));
    }
  }

  lemma PaidNothing(s: Shard)
    ensures Paid(s, s, 0, 0)
  {
    PlusNothing(s.completed);
    PlusNothing(s.privacy.spent);
  }

  /** What the privacy counter is for: every round completed or in flight has been paid for. */
  predicate PaidFor(s: Shard) {
    s.completed as int + InFlight(s) <= s.privacy.spent as int
  }

  predicate FreshShard(s: Shard) {
    ShardOk(s) && s.state == Idle && s.completed == 0 && s.privacy.spent == 0
  }

  /** With noise: on every run from a fresh shard, as long as the counter has not wrapped. */
  lemma PrivacyBound(s: Shard, run: seq<Step>)
    requires FreshShard(s) && s.privacy.enabled && s.privacy.sigma > 0.0
    requires IsRun(s, run) && Encodings(s, run) < TWO32
    ensures PaidFor(Last(s, run))
  {
    PrivacyAccounted(s, run);
    PlusExact(Acknowledged(s, run));
    PlusExact(Encodings(s, run));
  }

  /** A beacon without a payload; the round number is then what the frame held. */
  function BareBeacon(): Packet {
    Packet(Wire(Encoded(BEACON, HERALD_ID, 0, 0, 1, []).value), 0)
  }

  lemma BeaconDecodes()
    ensures var d := Decoded(BareBeacon().raw); d.Ok? && d.value.kind == BEACON && d.value.payload == []
    ensures BareBeacon().stale == 0
  {
    DecodeWire(BEACON, HERALD_ID, 0, 0, 1, []);
    hide Decoded, Wire;
  }

  lemma BeaconTrains(s: Shard)
    requires ShardOk(s)
    ensures Heard(s, BareBeacon()) == Beaconed(s) && ShardOk(Beaconed(s)) && AckOf(BareBeacon()) == []
  {
    hide Decoded, BareBeacon;
    BeaconDecodes();
  }

  /** An environment in which training undoes the residual, so that nothing is left to send. */
  function Undoing(s: Shard): Env
    requires |s.params| == |s.residual|
  {
    Env(Packet([], 0), Differences(s.params, s.residual), Differences(s.params, s.params), true)
  }

  /** The shard after the beacon, after training, and after the encoding. */
  function Beaconed(s: Shard): Shard {
    s.(round := 0, state := Training)
  }

  function TrainedBack(s: Shard): Shard
    requires |s.params| == |s.residual|
  {
    var e := Undoing(s);
    s.(params := e.trained, grad := Differences(e.trained, s.params), state := Encoding)
  }

  ghost function EncodedNothing(s: Shard): Shard
    requires |s.grad| == |s.residual|
  {
    s.(update := [], residual := Residue(Sums(s.grad, s.residual), []), fragSent := 0, fragTotal := 0,
       privacy := if Noisy(s.privacy) then s.privacy.(spent := Next(s.privacy.spent)) else s.privacy,
       state := Transmitting)
  }

  /** A step that hears no acknowledgement and completes no round. */
  predicate Unnoticed(s: Shard, step: Step, coded: nat) {
    AckIn(s, step) == [] && !Acks(s, step) && One(Codes(s, step)) == coded
  }

  lemma TakesBeacon(s: Shard)
    requires ShardOk(s)
    ensures Takes(s, Step(Rx(BareBeacon()), [], Beaconed(s))) && ShardOk(Beaconed(s))
    ensures Unnoticed(s, Step(Rx(BareBeacon()), [], Beaconed(s)), 0)
  {
    hide Heard, BareBeacon, Ticks, ShardOk, AckOf;
    BeaconTrains(s);
  }

  lemma TakesTraining(s: Shard)
    requires ShardOk(s) && s.state == Training
    ensures Takes(s, Step(Tick(Undoing(s)), [], TrainedBack(s))) && ShardOk(TrainedBack(s))
    ensures Unnoticed(s, Step(Tick(Undoing(s)), [], TrainedBack(s)), 0)
    ensures forall i :: 0 <= i < |s.params| ==> TrainedBack(s).grad[i] + s.residual[i] == 0.0
  {
  }

  lemma TakesEncoding(s: Shard)
    requires ShardOk(s) && s.state == Encoding
    requires forall i :: 0 <= i < |s.grad| ==> s.grad[i] + s.residual[i] == 0.0
    ensures Takes(s, Step(Tick(Undoing(s)), [], EncodedNothing(s))) && ShardOk(EncodedNothing(s))
    ensures Unnoticed(s, Step(Tick(Undoing(s)), [], EncodedNothing(s)), 1)
  {
    assert Sums(s.grad, Undoing(s).noise) == s.grad;
    assert Indices([]) == [];
    assert FragmentCount(0) == 0;
  }

  /** Nothing was put on the air. */
  predicate Quiet(run: seq<Step>) {
    forall k :: 0 <= k < |run| ==> run[k].sent == []
  }

  /** A run goes on with these many more encodings and rounds completed, and these
      acknowledgements heard, and without sending. */
  ghost predicate GoesOn(s: Shard, front: seq<Step>, run: seq<Step>, coded: nat, acked: nat, acks: seq<bytes>) {
    && IsRun(s, run) && (Quiet(front) ==> Quiet(run))
    && Encodings(s, run) == Encodings(s, front) + coded
    && Acknowledged(s, run) == Acknowledged(s, front) + acked
    && HeardAcks(s, run) == HeardAcks(s, front) + acks
  }

  lemma OneStep(s: Shard, front: seq<Step>, step: Step)
    requires IsRun(s, front) && Takes(Last(s, front), step) && step.sent == []
    ensures var t := Last(s, front);
            GoesOn(s, front, front + [step], One(Codes(t, step)), One(Acks(t, step)), AckIn(t, step))
    ensures Last(s, front + [step]) == step.after
  {
    assert (front + [step])[..|front|] == front;
    hide Takes, ShardOk, AckIn, Codes, Acks;
  }

  lemma OneMoreStep(s: Shard, front: seq<Step>, step: Step, coded: nat)
    requires IsRun(s, front) && Takes(Last(s, front), step) && step.sent == [] && Unnoticed(Last(s, front), step, coded)
    ensures GoesOn(s, front, front + [step], coded, 0, []) && IsRun(s, front + [step])
    ensures Last(s, front + [step]) == step.after
  {
    OneStep(s, front, step);
    hide Takes, ShardOk, AckIn, Codes, Acks, IsRun;
  }

  lemma GoOn(s: Shard, a: seq<Step>, b: seq<Step>, c: seq<Step>, coded: nat, acked: nat, acks: seq<bytes>,
             more: nat, again: nat, further: seq<bytes>)
    requires GoesOn(s, a, b, coded, acked, acks) && GoesOn(s, b, c, more, again, further)
    ensures GoesOn(s, a, c, coded + more, acked + again, acks + further)
  {
    hide IsRun, Encodings, Acknowledged, HeardAcks, Quiet;
  }

  lemma BeaconOn(s: Shard, front: seq<Step>) returns (run: seq<Step>)
    requires IsRun(s, front)
    ensures GoesOn(s, front, run, 0, 0, []) && IsRun(s, run) && Last(s, run) == Beaconed(Last(s, front))
    ensures ShardOk(Last(s, front)) && ShardOk(Last(s, run)) && Last(s, run).state == Training
  {
    RunKeeps(s, front);
    var t := Last(s, front);
    TakesBeacon(t);
    hide Takes, ShardOk, BareBeacon, GoesOn, IsRun, Unnoticed;
    var x := Step(Rx(BareBeacon()), [], Beaconed(t));
    run := front + [x];
    OneMoreStep(s, front, x, 0);
  }

  lemma TrainingOn(s: Shard, front: seq<Step>) returns (run: seq<Step>)
    requires IsRun(s, front) && Last(s, front).state == Training
    ensures GoesOn(s, front, run, 0, 0, []) && IsRun(s, run)
    ensures var t := Last(s, front); |t.params| == |t.residual| && Last(s, run) == TrainedBack(t)
  {
    RunKeeps(s, front);
    var t := Last(s, front);
    assert |t.params| == |t.residual|;
    TakesTraining(t);
    hide Takes, Undoing, ShardOk, TrainedBack, GoesOn, IsRun, Unnoticed;
    var y := Step(Tick(Undoing(t)), [], TrainedBack(t));
    run := front + [y];
    OneMoreStep(s, front, y, 0);
  }

  lemma EncodingOn(s: Shard, front: seq<Step>, t: Shard) returns (run: seq<Step>)
    requires IsRun(s, front) && ShardOk(t) && t.state == Training && Last(s, front) == TrainedBack(t)
    ensures GoesOn(s, front, run, 1, 0, []) && IsRun(s, run)
    ensures Last(s, run) == EncodedNothing(TrainedBack(t)) && ShardOk(Last(s, run))
  {
    var b := Last(s, front);
    TakesTraining(t);
    TakesEncoding(b);
    assert |b.params| == |b.residual| == |b.grad|;
    hide Takes, Undoing, ShardOk, TrainedBack, GoesOn, IsRun, Unnoticed, EncodedNothing;
    var z := Step(Tick(Undoing(b)), [], EncodedNothing(b));
    run := front + [z];
    OneMoreStep(s, front, z, 1);
  }

  /** A beacon, a training and an encoding of nothing, after any run. */
  lemma SilentUpdate(s: Shard, front: seq<Step>) returns (run: seq<Step>)
    requires IsRun(s, front)
    ensures ShardOk(Last(s, front)) && GoesOn(s, front, run, 1, 0, [])
    ensures Last(s, run) == EncodedNothing(TrainedBack(Beaconed(Last(s, front)))) && ShardOk(Last(s, run))
  {
    hide Last, Beaconed, TrainedBack, EncodedNothing, ShardOk, GoesOn, IsRun;
    var one := BeaconOn(s, front);
    var two := TrainingOn(s, one);
    run := EncodingOn(s, two, Last(s, one));
    var none: seq<bytes> := [];
    assert none + none == none;
    GoOn(s, front, one, two, 0, 0, none, 0, 0, none);
    GoOn(s, front, two, run, 0, 0, none, 1, 0, none);
  }

  lemma IsOn(s: Shard, front: seq<Step>, run: seq<Step>, coded: nat, acked: nat, acks: seq<bytes>)
    requires GoesOn(s, front, run, coded, acked, acks)
    ensures IsRun(s, run)
  {
    hide IsRun;
  }

  /** Without noise: a beacon, a training and an encoding leave an update in flight that has
      not been paid for. */
  lemma UnpaidRun(s: Shard) returns (run: seq<Step>)
    requires FreshShard(s) && !Noisy(s.privacy)
    ensures IsRun(s, run) && Encodings(s, run) == 1 && !PaidFor(Last(s, run))
  {
    run := SilentUpdate(s, []);
    UnpaidFor(s);
    hide Takes, ShardOk, BareBeacon, TrainedBack, EncodedNothing, PaidFor, Noisy;
  }

  lemma UnpaidFor(s: Shard)
    requires FreshShard(s) && !Noisy(s.privacy)
    ensures !PaidFor(EncodedNothing(TrainedBack(Beaconed(s))))
  {
  }

  /** After any run: a shard that has nothing to send waits for an answer, and any
      acknowledgement that is on the air will do; one more round counts as completed although
      nothing was sent for it. */
  lemma SilentRound(s: Shard, front: seq<Step>, ack: Packet) returns (run: seq<Step>)
    requires IsRun(s, front) && AckOf(ack) == [ack.raw]
    ensures GoesOn(s, front, run, 1, 1, [ack.raw]) && run != [] && run[|run| - 1].event == Rx(ack)
    ensures Last(s, run).completed == Next(Last(s, front).completed)
  {
    var three := SilentUpdate(s, front);
    var t := Last(s, three);
    var waiting := t.(state := AwaitAck);
    var x, y := Step(Tick(Undoing(t)), [], waiting), Step(Rx(ack), [], Heard(waiting, ack));
    TakesNothing(t);
    TakesAck(waiting, ack);
    assert AckIn(waiting, y) == [ack.raw] && Acks(waiting, y) && !Codes(waiting, y);
    hide Takes, Undoing, ShardOk, Heard, GoesOn, IsRun, Noisy, AckIn, AckOf, Acks, Codes, Unnoticed;
    var four := three + [x];
    run := four + [y];
    IsOn(s, front, three, 1, 0, []);
    OneMoreStep(s, three, x, 0);
    OneStep(s, four, y);
    var none: seq<bytes> := [];
    assert none + none == none && none + [ack.raw] == [ack.raw];
    GoOn(s, front, three, four, 1, 0, none, 0, 0, none);
    GoOn(s, front, four, run, 1, 0, none, 0, 1, [ack.raw]);
  }

  /** From the start: a completed round and nothing ever sent. */
  lemma SilentRun(s: Shard, ack: Packet) returns (run: seq<Step>)
    requires FreshShard(s) && Decoded(ack.raw).Ok? && Decoded(ack.raw).value.kind == ACK
    ensures IsRun(s, run) && Quiet(run) && Last(s, run).completed == 1
    ensures run != [] && run[|run| - 1].event == Rx(ack)
  {
    hide Decoded, ShardOk, Acknowledged, HeardAcks, Encodings;
    run := SilentRound(s, [], ack);
  }

  lemma TakesNothing(s: Shard)
    requires ShardOk(s) && s.state == Transmitting && s.fragTotal == 0
    ensures Takes(s, Step(Tick(Undoing(s)), [], s.(state := AwaitAck))) && ShardOk(s.(state := AwaitAck))
    ensures Unnoticed(s, Step(Tick(Undoing(s)), [], s.(state := AwaitAck)), 0)
  {
  }

  /** Whoever it is meant for, an acknowledgement completes the round of every waiting shard. */
  lemma TakesAck(s: Shard, ack: Packet)
    requires ShardOk(s) && s.state == AwaitAck && Decoded(ack.raw).Ok? && Decoded(ack.raw).value.kind == ACK
    ensures Takes(s, Step(Rx(ack), [], Heard(s, ack)))
    ensures JustAcknowledged(Heard(s, ack)) && Heard(s, ack).params == s.params &&
            Heard(s, ack).completed == Next(s.completed)
  {
    hide Decoded;
  }

  /** The bound holds on all runs from a fresh shard if and only if noise is really added. */
  lemma PrivacyExactly(s: Shard)
    requires FreshShard(s)
    ensures (forall run :: IsRun(s, run) && Encodings(s, run) < TWO32 ==> PaidFor(Last(s, run))) <==>
              s.privacy.enabled && s.privacy.sigma > 0.0
  {
    if Noisy(s.privacy) {
      forall run | IsRun(s, run) && Encodings(s, run) < TWO32
        ensures PaidFor(Last(s, run))
      {
        PrivacyBound(s, run);
      }
    } else {
      var run := UnpaidRun(s);
      assert IsRun(s, run) && Encodings(s, run) < TWO32 && !PaidFor(Last(s, run));
    }
  }

  // ----- the downlink

  /** Packets that leave a shard's delta alone. */
  predicate Ignorable(p: Packet) {
    match Decoded(p.raw)
    case Err(_) => true
    case Ok(f) => f.kind != BEACON && f.kind != DELTA && f.kind != ROUND_CLOSE
  }

  function DeltaRaw(round: u8, entries: seq<Entry>, f: nat): bytes
    requires |entries| <= MAX_ENTRIES && f < FragmentCount(|entries|)
  {
    Wire(FragmentFrame(DELTA, HERALD_ID, round, entries, f))
  }

  /** Packets among which the fragments of the delta come with these indices, in this order. */
  ghost predicate BringsDelta(packets: seq<Packet>, round: u8, entries: seq<Entry>, indices: seq<nat>)
    requires |entries| <= MAX_ENTRIES
    decreases |packets|
  {
    if packets == [] then indices == []
    else
      var front, p := packets[..|packets| - 1], packets[|packets| - 1];
      || (BringsDelta(front, round, entries, indices) && Ignorable(p))
      || (indices != [] && indices[|indices| - 1] < FragmentCount(|entries|)
          && BringsDelta(front, round, entries, indices[..|indices| - 1])
          && p.raw == DeltaRaw(round, entries, indices[|indices| - 1]))
  }

  ghost function HeardAll(s: Shard, packets: seq<Packet>): (t: Shard)
    requires ShardOk(s)
    ensures ShardOk(t)
    decreases |packets|
  {
    if packets == [] then s
    else
      var before := HeardAll(s, packets[..|packets| - 1]);
      HeardKeeps(before, packets[|packets| - 1]);
      Heard(before, packets[|packets| - 1])
  }

  /** The entries buffered after these fragments: fragment 0 starts afresh. */
  function Buffered(entries: seq<Entry>, indices: seq<nat>): (b: seq<Entry>)
    ensures |b| <= MAX_ENTRIES
  {
    if indices == [] then []
    else
      var front, i := indices[..|indices| - 1], indices[|indices| - 1];
      Appended(if i == 0 then [] else Buffered(entries, front), Serialized(Chunk(entries, i)))
  }

  /** How many fragments are taken before the delta is applied: as many as there are when the
      first one heard is fragment 0, and otherwise just that one. */
  function Awaited(entries: seq<Entry>, indices: seq<nat>): nat
    requires |entries| <= MAX_ENTRIES
  {
    if indices != [] && indices[0] != 0 then 1 else FragmentCount(|entries|)
  }

  /** A shard that has heard these fragments of the delta since it was acknowledged. */
  ghost predicate Receiving(start: Shard, t: Shard, entries: seq<Entry>, indices: seq<nat>)
    requires |entries| <= MAX_ENTRIES
  {
    var awaited := Awaited(entries, indices);
    if |indices| >= awaited then
      t.state == Idle && t.params == Sums(start.params, Dense(Buffered(entries, indices[..awaited]), |start.params|))
    else
      t.state == RecvDelta && t.rxRecv as nat == |indices| && t.params == start.params
      && t.rxTotal as nat == (if indices == [] then 0 else FragmentCount(|entries|))
      && t.delta == Buffered(entries, indices)
  }

  lemma IgnoredPacket(start: Shard, t: Shard, entries: seq<Entry>, indices: seq<nat>, p: Packet)
    requires ShardOk(t) && |entries| <= MAX_ENTRIES && Receiving(start, t, entries, indices) && Ignorable(p)
    ensures Receiving(start, Heard(t, p), entries, indices)
  {
    hide Decoded, FragmentCount, Dense, Buffered;
  }

  lemma DeltaFragment(start: Shard, t: Shard, round: u8, entries: seq<Entry>, indices: seq<nat>, i: nat, p: Packet)
    requires ShardOk(t) && 0 < |entries| <= MAX_ENTRIES && i < FragmentCount(|entries|) &&
             Receiving(start, t, entries, indices)
    requires p.raw == DeltaRaw(round, entries, i)
    ensures Receiving(start, Heard(t, p), entries, indices + [i])
  {
    FragmentOnAir(DELTA, HERALD_ID, round, entries, i);
    FragmentsCover(entries);
    var f := FragmentFrame(DELTA, HERALD_ID, round, entries, i);
    assert Heard(t, p) == if t.state == RecvDelta then DeltaTaken(t, f) else t;
    hide Heard, Decoded, FragmentFrame, Wire, DeltaRaw, FragmentCount, Dense, Buffered, Chunk, Serialized;
    if t.state == RecvDelta {
      TakesFragment(start, t, f, entries, indices, i);
    } else {
      assert (indices + [i])[..Awaited(entries, indices)] == indices[..Awaited(entries, indices)];
    }
  }

  lemma BufferedMore(entries: seq<Entry>, indices: seq<nat>, i: nat)
    ensures Buffered(entries, indices + [i]) ==
            Appended(if i == 0 then [] else Buffered(entries, indices), Serialized(Chunk(entries, i)))
  {
    assert (indices + [i])[..|indices|] == indices;
  }

  lemma TakesFragment(start: Shard, t: Shard, f: Frame, entries: seq<Entry>, indices: seq<nat>, i: nat)
    requires ShardOk(t) && |entries| <= MAX_ENTRIES && i < FragmentCount(|entries|) <= 15
    requires Receiving(start, t, entries, indices) && t.state == RecvDelta
    requires f.fragIndex == i && f.fragTotal == FragmentCount(|entries|) && f.payload == Serialized(Chunk(entries, i))
    ensures Receiving(start, DeltaTaken(t, f), entries, indices + [i])
  {
    hide Chunk, Appended, Dense, Serialized, FragmentCount, ShardOk, Sums, Buffered;
    BufferedMore(entries, indices, i);
    assert |indices + [i]| == |indices| + 1 && (indices + [i])[..|indices| + 1] == indices + [i];
  }

  /** What the last packet is. */
  lemma LastPacket(packets: seq<Packet>, round: u8, entries: seq<Entry>, indices: seq<nat>) returns (own: bool)
    requires packets != [] && |entries| <= MAX_ENTRIES && BringsDelta(packets, round, entries, indices)
    ensures var front, p := packets[..|packets| - 1], packets[|packets| - 1];
            if own then
              indices != [] && indices[|indices| - 1] < FragmentCount(|entries|)
              && BringsDelta(front, round, entries, indices[..|indices| - 1])
              && p.raw == DeltaRaw(round, entries, indices[|indices| - 1])
            else BringsDelta(front, round, entries, indices) && Ignorable(p)
  {
    var front, p := packets[..|packets| - 1], packets[|packets| - 1];
    own := !(BringsDelta(front, round, entries, indices) && Ignorable(p));
  }

  lemma LastHeard(s: Shard, packets: seq<Packet>)
    requires ShardOk(s)
    ensures packets == [] ==> HeardAll(s, packets) == s
    ensures packets != [] ==>
              HeardAll(s, packets) == Heard(HeardAll(s, packets[..|packets| - 1]), packets[|packets| - 1])
  {
    hide Heard, ShardOk;
  }

  /** A shard that has just been acknowledged. */
  predicate JustAcknowledged(s: Shard) {
    ShardOk(s) && s.state == RecvDelta && s.rxRecv == 0 && s.rxTotal == 0 && s.delta == []
  }

  lemma NothingHeard(s: Shard, entries: seq<Entry>)
    requires 0 < |entries| <= MAX_ENTRIES && JustAcknowledged(s)
    ensures Receiving(s, s, entries, [])
  {
    FragmentsCover(entries);
  }

  /** Whatever the order and the repetitions: what has been buffered, and when it is applied;
      fragments that come later change nothing. */
  lemma {:induction false} DeltaArrives(s: Shard, packets: seq<Packet>, round: u8, entries: seq<Entry>,
                                        indices: seq<nat>)
    requires 0 < |entries| <= MAX_ENTRIES && JustAcknowledged(s) && BringsDelta(packets, round, entries, indices)
    ensures Receiving(s, HeardAll(s, packets), entries, indices)
    decreases |packets|
  {
    hide Heard, HeardAll, ShardOk, Receiving, Ignorable, DeltaRaw, FragmentCount;
    LastHeard(s, packets);
    if packets == [] {
      NothingHeard(s, entries);
    } else {
      var front, p := packets[..|packets| - 1], packets[|packets| - 1];
      var own := LastPacket(packets, round, entries, indices);
      hide BringsDelta;
      if own {
        var before, i := indices[..|indices| - 1], indices[|indices| - 1];
        DeltaArrives(s, front, round, entries, before);
        DeltaFragment(s, HeardAll(s, front), round, entries, before, i, p);
        assert before + [i] == indices;
      } else {
        DeltaArrives(s, front, round, entries, indices);
        IgnoredPacket(s, HeardAll(s, front), entries, indices, p);
      }
    }
  }

  // ----- when the applied buffer is the delta

  predicate Distinct<T(==)>(s: seq<T>) {
    forall j, k :: 0 <= j < k < |s| ==> s[j] != s[k]
  }

  function ToSet(indices: seq<nat>): set<nat> {
    set i | i in indices
  }

  lemma {:induction false} SetSize(indices: seq<nat>)
    ensures |ToSet(indices)| <= |indices|
    ensures |ToSet(indices)| == |indices| <==> Distinct(indices)
    decreases |indices|
  {
    if indices == [] {
    } else {
      var front, i := indices[..|indices| - 1], indices[|indices| - 1];
      SetSize(front);
      assert indices == front + [i];
      assert ToSet(indices) == ToSet(front) + {i};
      if Distinct(front) && i !in front {
        assert Distinct(indices);
      }
      if Distinct(indices) {
        assert forall k :: 0 <= k < |front| ==> front[k] == indices[k];
        assert Distinct(front) && i !in front;
      }
    }
  }

  lemma {:induction false} BufferedPart(entries: seq<Entry>, indices: seq<nat>)
    requires |entries| <= MAX_ENTRIES && indices != [] && indices[0] == 0 && Distinct(indices)
    requires forall k :: 0 <= k < |indices| ==> indices[k] < FragmentCount(|entries|)
    ensures multiset(Buffered(entries, indices)) == Reassembly.Part(entries, ToSet(indices), FragmentCount(|entries|))
    decreases |indices|
  {
    var front, i, n := indices[..|indices| - 1], indices[|indices| - 1], FragmentCount(|entries|);
    assert indices == front + [i] && ToSet(indices) == ToSet(front) + {i};
    FragmentsCover(entries);
    BufferedMore(entries, front, i);
    hide Buffered, Chunk, Serialized, Appended, Reassembly.Part, FragmentCount;
    if front == [] {
      assert ToSet(front) == {};
      Reassembly.PartNone(entries, n);
      StartsWith([], entries, i, {}, n);
    } else {
      BufferedPart(entries, front);
      StartsWith(Buffered(entries, front), entries, i, ToSet(front), n);
    }
  }

  /** Appending a chunk that is not there yet. */
  lemma StartsWith(buffer: seq<Entry>, entries: seq<Entry>, i: nat, got: set<nat>, n: nat)
    requires |entries| <= MAX_ENTRIES && n == FragmentCount(|entries|) && |Chunks(entries, n)| <= MAX_ENTRIES &&
             |buffer| <= MAX_ENTRIES
    requires i < n && i !in got && multiset(buffer) == Reassembly.Part(entries, got, n)
    ensures multiset(Appended(buffer, Serialized(Chunk(entries, i)))) == Reassembly.Part(entries, got + {i}, n)
  {
    hide Chunk, Chunks, Serialized, Appended, Reassembly.Part, FragmentCount;
    Reassembly.PartAdds(entries, got, i, n);
    Reassembly.PartBound(entries, got + {i}, n);
    Reassembly.SizeOf(buffer);
    Reassembly.SizeOf(Chunk(entries, i));
    Reassembly.AppendChunk(buffer, Serialized(Chunk(entries, i)), entries, i);
    JoinedMultiset(buffer, Chunk(entries, i));
  }

  lemma JoinedMultiset<T>(a: seq<T>, b: seq<T>)
    ensures multiset(a + b) == multiset(a) + multiset(b)
  {
  }

  /** Everything buffered comes from a fragment that was heard. */
  lemma {:induction false} BufferedFrom(entries: seq<Entry>, indices: seq<nat>, e: Entry) returns (i: nat)
    requires e in Buffered(entries, indices)
    ensures i in indices && e in Chunk(entries, i)
    decreases |indices|
  {
    var front, last := indices[..|indices| - 1], indices[|indices| - 1];
    ParseSerialized(Chunk(entries, last));
    hide Chunk, Serialized;
    if e in Chunk(entries, last) {
      i := last;
    } else {
      i := BufferedFrom(entries, front, e);
    }
  }

  /** The first entry of a fragment is in no other fragment. */
  lemma OnlyThere(entries: seq<Entry>, c: nat, i: nat)
    requires Distinct(entries) && c * PER_FRAGMENT < |entries| && entries[c * PER_FRAGMENT] in Chunk(entries, i)
    ensures i == c
  {
    var e := entries[c * PER_FRAGMENT];
    var k :| 0 <= k < |Chunk(entries, i)| && Chunk(entries, i)[k] == e;
    assert Chunk(entries, i)[k] == entries[i * PER_FRAGMENT + k];
    assert i * PER_FRAGMENT + k == c * PER_FRAGMENT;
  }

  /** What is applied is the delta, in some order, exactly when fragment 0 is the first one
      heard and as many fragments as there are come without a repetition. */
  lemma WholeExactly(entries: seq<Entry>, indices: seq<nat>)
    requires 0 < |entries| <= MAX_ENTRIES && Distinct(entries) && indices != []
    requires forall k :: 0 <= k < |indices| ==> indices[k] < FragmentCount(|entries|)
    requires |indices| == Awaited(entries, indices)
    ensures multiset(Buffered(entries, indices)) == multiset(entries) <==> indices[0] == 0 && Distinct(indices)
  {
    var n := FragmentCount(|entries|);
    FragmentsCover(entries);
    CountCovers(|entries|);
    SetSize(indices);
    if indices[0] == 0 && Distinct(indices) {
      FullSet(ToSet(indices), n);
      BufferedPart(entries, indices);
      Reassembly.PartWhole(entries, ToSet(indices), n);
    } else {
      var c := SomeMissing(indices, n);
      LacksFragment(entries, indices, c);
    }
  }

  lemma FullSet(s: set<nat>, n: nat)
    requires |s| == n && forall i :: i in s ==> i < n
    ensures forall i: nat :: i < n ==> i in s
  {
    forall i: nat | i < n
      ensures i in s
    {
      if i !in s {
        Reassembly.SubsetSize(s, Upto(n) - {i});
      }
    }
  }

  lemma SomeMissing(indices: seq<nat>, n: nat) returns (c: nat)
    requires indices != [] && forall k :: 0 <= k < |indices| ==> indices[k] < n
    requires if indices[0] == 0 then |indices| == n && !Distinct(indices) else |indices| == 1
    ensures c < n && c !in indices
  {
    if indices[0] != 0 {
      c := 0;
    } else {
      SetSize(indices);
      if forall c: nat :: c < n ==> c in ToSet(indices) {
        Reassembly.SubsetSize(Upto(n), ToSet(indices));
      }
      c :| c < n && c !in ToSet(indices);
    }
  }

  lemma LacksFragment(entries: seq<Entry>, indices: seq<nat>, c: nat)
    requires 0 < |entries| <= MAX_ENTRIES && Distinct(entries) && c < FragmentCount(|entries|) && c !in indices
    ensures multiset(Buffered(entries, indices)) != multiset(entries)
  {
    CountCovers(|entries|);
    var e := entries[c * PER_FRAGMENT];
    assert e in multiset(entries);
    if e in Buffered(entries, indices) {
      var i := BufferedFrom(entries, indices, e);
      OnlyThere(entries, c, i);
    }
  }

  /** A delta of several fragments of which the second comes first: it is applied alone. */
  lemma PartApplied(s: Shard, round: u8, entries: seq<Entry>)
    requires JustAcknowledged(s) && |entries| <= MAX_ENTRIES && FragmentCount(|entries|) >= 2 && Distinct(entries)
    ensures var t := HeardAll(s, [Packet(DeltaRaw(round, entries, 1), 0)]);
            t.state == Idle && t.params == Sums(s.params, Dense(Chunk(entries, 1), |s.params|))
    ensures multiset(Chunk(entries, 1)) != multiset(entries)
  {
    var p := Packet(DeltaRaw(round, entries, 1), 0);
    hide FragmentCount, DeltaRaw, Heard, Chunk, HeardAll, ShardOk, Dense, Distinct, Buffered, BringsDelta,
         JustAcknowledged;
    OnlySecond(p, round, entries);
    BufferedOne(entries, 1);
    assert [1][..1] == [1];
    NotWhole(entries);
    DeltaArrives(s, [p], round, entries, [1]);
  }

  lemma NotWhole(entries: seq<Entry>)
    requires |entries| <= MAX_ENTRIES && FragmentCount(|entries|) >= 2 && Distinct(entries)
    ensures entries != [] && multiset(Buffered(entries, [1])) != multiset(entries)
  {
    FragmentsCover(entries);
    hide FragmentCount, Distinct, Buffered;
    WholeExactly(entries, [1]);
  }

  lemma BufferedOne(entries: seq<Entry>, i: nat)
    requires |entries| <= MAX_ENTRIES
    ensures Buffered(entries, [i]) == Chunk(entries, i)
  {
    BufferedMore(entries, [], i);
    assert [] + [i] == [i] && |Chunk(entries, i)| <= MAX_ENTRIES;
    hide Appended, Serialized, Chunk;
    Reassembly.AppendChunk([], Serialized(Chunk(entries, i)), entries, i);
    assert [] + Chunk(entries, i) == Chunk(entries, i);
  }

  lemma OnlySecond(p: Packet, round: u8, entries: seq<Entry>)
    requires |entries| <= MAX_ENTRIES && FragmentCount(|entries|) >= 2 && p.raw == DeltaRaw(round, entries, 1)
    ensures BringsDelta([p], round, entries, [1])
  {
    assert [p][..0] == [] && [1][..0] == [];
    assert BringsDelta([], round, entries, []);
  }

  /** Fragment 0 first and the others in any order without repetition: the shard adds what the
      whole delta decodes to. */
  lemma DeltaFollowed(s: Shard, packets: seq<Packet>, round: u8, entries: seq<Entry>, indices: seq<nat>)
    requires JustAcknowledged(s) && 0 < |entries| <= MAX_ENTRIES && Distinct(entries)
    requires BringsDelta(packets, round, entries, indices) && |indices| >= FragmentCount(|entries|)
    requires forall k :: 0 <= k < |indices| ==> indices[k] < FragmentCount(|entries|)
    requires indices[0] == 0 && Distinct(indices[..FragmentCount(|entries|)])
    ensures var t := HeardAll(s, packets); t.state == Idle && t.params == Sums(s.params, Dense(entries, |s.params|))
  {
    var heard := indices[..FragmentCount(|entries|)];
    DeltaArrives(s, packets, round, entries, indices);
    FragmentsCover(entries);
    WholeExactly(entries, heard);
    DenseUnordered(Buffered(entries, heard), entries, |s.params|);
    hide BringsDelta, Buffered, FragmentCount, HeardAll, Distinct, Dense;
  }

  /** Parameter by parameter: the selected ones move by the value of their code and the others
      stay. */
  lemma DeltaMeaning(s: Shard, packets: seq<Packet>, round: u8, delta: seq<real>, limit: nat, entries: seq<Entry>,
                     indices: seq<nat>, i: nat)
    requires JustAcknowledged(s) && 0 < |entries| <= MAX_ENTRIES && i < |s.params| == |delta|
    requires IsEncoding(delta, limit, entries)
    requires BringsDelta(packets, round, entries, indices) && |indices| >= FragmentCount(|entries|)
    requires forall k :: 0 <= k < |indices| ==> indices[k] < FragmentCount(|entries|)
    requires indices[0] == 0 && Distinct(indices[..FragmentCount(|entries|)])
    ensures var t := HeardAll(s, packets);
            t.state == Idle && |t.params| == |s.params|
            && t.params[i] == s.params[i] + if i in Indices(entries) then DequantQ8(QuantQ8(delta[i])) else 0.0
  {
    EncodingDistinct(delta, limit, entries);
    DeltaFollowed(s, packets, round, entries, indices);
    ErrorFeedback.EncodingDecodes(delta, limit, entries, i);
    hide IsEncoding, BringsDelta, QuantQ8, DequantQ8, FragmentCount, HeardAll, Distinct, Indices;
  }

  lemma EncodingDistinct(eff: seq<real>, limit: nat, entries: seq<Entry>)
    requires IsEncoding(eff, limit, entries)
    ensures Distinct(entries)
  {
    TopKLaws.SelectedInRange(eff, Indices(entries));
    forall j, k | 0 <= j < k < |entries|
      ensures entries[j] != entries[k]
    {
      assert Indices(entries)[j] != Indices(entries)[k];
    }
  }
}
