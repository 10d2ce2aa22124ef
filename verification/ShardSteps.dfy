/** The shard's state machine as a transition system: fl_shard_tick and fl_shard_on_rx,
    with encryption off. */
module ShardSteps {
  import opened Words
  import opened RealSums
  import opened Counters
  import opened TopK
  import opened Sparse
  import opened Frame
  import opened Transmission

  datatype State = Idle | Training | Encoding | Transmitting | AwaitAck | RecvDelta | Error

  datatype Privacy = Privacy(enabled: bool, sigma: real, spent: u32)

  datatype Shard = Shard(state: State, id: u16, round: u8, params: seq<real>, grad: seq<real>, residual: seq<real>,
                         update: seq<Entry>, fragSent: u8, fragTotal: u8, delta: seq<Entry>, rxRecv: u8, rxTotal: u8,
                         privacy: Privacy, completed: u32, txErrors: u32, rxErrors: u32)

  /** A received packet.  `stale` is what the receive frame holds in its first payload byte
      when the packet brings no payload. */
  datatype Packet = Packet(raw: bytes, stale: u8)

  /** What a tick takes from outside: a packet or nothing, the parameters after local
      training, the noise, and whether the radio accepts a frame. */
  datatype Env = Env(packet: Packet, trained: seq<real>, noise: seq<real>, sendOk: bool)

  predicate ShardOk(s: Shard) {
    && |s.params| == |s.grad| == |s.residual| <= MAX_PARAMS
    && |s.update| <= MAX_ENTRIES && |s.delta| <= MAX_ENTRIES
    && (s.state == Transmitting ==>
          s.fragTotal == FragmentCount(|s.update|) && (s.fragSent < s.fragTotal || s.fragSent == s.fragTotal == 0))
    && (s.state == AwaitAck ==> s.fragSent == s.fragTotal == FragmentCount(|s.update|))
  }

  predicate EnvOk(s: Shard, e: Env) {
    |e.packet.raw| <= FRAME_MAX && |e.trained| == |e.noise| == |s.params|
  }

  function Differences(a: seq<real>, b: seq<real>): (c: seq<real>)
    requires |a| == |b|
    ensures |c| == |a|
  {
    seq(|a|, i requires 0 <= i < |a| => a[i] - b[i])
  }

  // ----- receiving

  /** A fragment of the delta; fragment 0 starts the buffer afresh but not the count, and the
      delta is applied as soon as the count reaches the announced total. */
  ghost function DeltaTaken(s: Shard, f: Frame): Shard
    requires |s.delta| <= MAX_ENTRIES
  {
    var b := if f.fragIndex == 0 then s.(delta := [], rxTotal := f.fragTotal) else s;
    var t := b.(delta := Appended(b.delta, f.payload), rxRecv := (b.rxRecv as int + 1) % TWO8);
    if t.rxRecv >= t.rxTotal then t.(params := Sums(t.params, Dense(t.delta, |t.params|)), state := Idle) else t
  }

  ghost function Heard(s: Shard, p: Packet): Shard
    requires |s.delta| <= MAX_ENTRIES
  {
    match Decoded(p.raw)
    case Err(_) => s.(rxErrors := Next(s.rxErrors))
    case Ok(f) =>
      if f.kind == BEACON then s.(round := if f.payload == [] then p.stale else f.payload[0], state := Training)
      else if f.kind == DELTA then if s.state == RecvDelta then DeltaTaken(s, f) else s
      else if f.kind == ACK then
        if s.state == AwaitAck
        then s.(completed := Next(s.completed), state := RecvDelta, rxRecv := 0, rxTotal := 0, delta := [])
        else s
      else if f.kind == ROUND_CLOSE then s.(state := Idle)
      else s
  }

  // ----- ticking

  /** Noise is added, and paid for, only when it is enabled and its deviation is positive. */
  predicate Noisy(p: Privacy) {
    p.enabled && p.sigma > 0.0
  }

  function TopKOf(n: nat): nat {
    if n / 10 < 1 then 1 else n / 10
  }

  ghost predicate Encodes(s: Shard, noise: seq<real>, t: Shard)
    requires |noise| == |s.grad| == |s.residual|
  {
    var grad := if Noisy(s.privacy) then Sums(s.grad, noise) else s.grad;
    var eff := Sums(grad, s.residual);
    && |t.update| <= MAX_ENTRIES
    && IsEncoding(eff, Min(Min(TopKOf(|grad|), MAX_ENTRIES), |grad|), t.update)
    && t == s.(grad := grad, update := t.update, residual := Residue(eff, Indices(t.update)),
               privacy := if Noisy(s.privacy) then s.privacy.(spent := Next(s.privacy.spent)) else s.privacy,
               fragSent := 0, fragTotal := FragmentCount(|t.update|), state := Transmitting)
  }

  /** One attempt to send the next fragment. */
  function Attempted(s: Shard, sendOk: bool): Shard
    requires s.fragSent < s.fragTotal
  {
    if !sendOk then s.(txErrors := Next(s.txErrors))
    else
      var t := s.(fragSent := s.fragSent as int + 1);
      if t.fragSent >= t.fragTotal then t.(state := AwaitAck) else t
  }

  /** A tick takes s to t and puts `sent` on the air. */
  ghost predicate Ticks(s: Shard, e: Env, t: Shard, sent: seq<bytes>)
    requires ShardOk(s) && EnvOk(s, e)
  {
    match s.state
    case Idle => sent == [] && t == Listened(s, e.packet)
    case AwaitAck => sent == [] && t == Listened(s, e.packet)
    case RecvDelta => sent == [] && t == Listened(s, e.packet)
    case Training =>
      sent == [] && t == s.(params := e.trained, grad := Differences(e.trained, s.params), state := Encoding)
    case Encoding => sent == [] && Encodes(s, e.noise, t)
    case Transmitting =>
      if s.fragTotal == 0 then sent == [] && t == s.(state := AwaitAck)
      else
        t == Attempted(s, e.sendOk) &&
        sent == if e.sendOk then [Wire(FragmentFrame(UPDATE, s.id, s.round, s.update, s.fragSent))] else []
    case Error => sent == [] && t == s
  }

  ghost function Listened(s: Shard, p: Packet): Shard
    requires |s.delta| <= MAX_ENTRIES
  {
    if p.raw == [] then s else Heard(s, p)
  }

  /** What never changes. */
  predicate SameShard(s: Shard, t: Shard) {
    t.id == s.id && |t.params| == |s.params| &&
    t.privacy.enabled == s.privacy.enabled && t.privacy.sigma == s.privacy.sigma
  }

  lemma HeardKeeps(s: Shard, p: Packet)
    requires ShardOk(s)
    ensures ShardOk(Heard(s, p)) && SameShard(s, Heard(s, p))
  {
    hide Decoded, Appended;
  }

  lemma TickKeeps(s: Shard, e: Env, t: Shard, sent: seq<bytes>)
    requires ShardOk(s) && EnvOk(s, e) && Ticks(s, e, t, sent)
    ensures ShardOk(t) && SameShard(s, t)
  {
    if s.state in {Idle, AwaitAck, RecvDelta} && e.packet.raw != [] {
      HeardKeeps(s, e.packet);
    }
    hide Heard, IsEncoding, Wire, FragmentFrame;
  }

  /** The gradient is what local training added to the parameters. */
  lemma TrainingMeaning(s: Shard, e: Env, t: Shard, sent: seq<bytes>)
    requires ShardOk(s) && EnvOk(s, e) && s.state == Training && Ticks(s, e, t, sent)
    ensures t.params == e.trained && Sums(s.params, t.grad) == e.trained
  {
    assert forall i :: 0 <= i < |e.trained| ==> Sums(s.params, t.grad)[i] == e.trained[i];
  }

  // ----- runs

  datatype Event = Tick(env: Env) | Rx(packet: Packet)
  datatype Step = Step(event: Event, sent: seq<bytes>, after: Shard)

  ghost predicate Takes(s: Shard, step: Step) {
    ShardOk(s) &&
    match step.event
    case Tick(e) => EnvOk(s, e) && Ticks(s, e, step.after, step.sent)
    case Rx(p) => step.sent == [] && step.after == Heard(s, p)
  }

  function Last(s: Shard, run: seq<Step>): Shard {
    if run == [] then s else run[|run| - 1].after
  }

  /** A run: any interleaving of ticks and received packets. */
  ghost predicate IsRun(s: Shard, run: seq<Step>)
    decreases |run|
  {
    if run == [] then ShardOk(s)
    else IsRun(s, run[..|run| - 1]) && Takes(Last(s, run[..|run| - 1]), run[|run| - 1])
  }

  lemma TakesKeeps(s: Shard, step: Step)
    requires Takes(s, step)
    ensures ShardOk(step.after) && SameShard(s, step.after)
  {
    hide Heard, Ticks, ShardOk, EnvOk, SameShard;
    match step.event {
      case Tick(e) => TickKeeps(s, e, step.after, step.sent);
      case Rx(p) => HeardKeeps(s, p);
    }
  }

  lemma {:induction false} RunKeeps(s: Shard, run: seq<Step>)
    requires IsRun(s, run)
    ensures ShardOk(Last(s, run)) && SameShard(s, Last(s, run))
    decreases |run|
  {
    if run != [] {
      hide Takes, ShardOk;
      RunKeeps(s, run[..|run| - 1]);
      TakesKeeps(Last(s, run[..|run| - 1]), run[|run| - 1]);
    }
  }
}
