/** The shard itself: fl_shard_on_rx and fl_shard_tick on an object, proved against ShardSteps. */
module Shard {
  import opened Words
  import opened Counters
  import opened RealSums
  import opened TopK
  import opened Sparse
  import opened Frame
  import Wired = Frame
  import opened Transmission
  import S = ShardSteps

  class Shard {
    const id: u16
    const params: array<real>
    const grad: array<real>
    const residual: array<real>
    var state: S.State
    var round: u8
    var update: seq<Entry>
    var fragSent: u8
    var fragTotal: u8
    var delta: seq<Entry>
    var rxRecv: u8
    var rxTotal: u8
    var privacy: S.Privacy
    var completed: u32
    var txErrors: u32
    var rxErrors: u32

    function Value(): S.Shard
      reads this, params, grad, residual
    {
      S.Shard(state, id, round, params[..], grad[..], residual[..], update, fragSent, fragTotal,
              delta, rxRecv, rxTotal, privacy, completed, txErrors, rxErrors)
    }

    ghost predicate Valid()
      reads this, params, grad, residual
    {
      params != grad && params != residual && grad != residual && S.ShardOk(Value())
    }

    /** fl_shard_init, and fl_shard_enable_dp when `privacy` is enabled. */
    constructor (id: u16, params: array<real>, privacy: S.Privacy)
      requires params.Length <= MAX_PARAMS && privacy.spent == 0
      ensures Valid() && this.params == params && fresh(grad) && fresh(residual)
      ensures state == S.Idle && this.id == id && this.privacy == privacy && completed == 0
      ensures forall i :: 0 <= i < residual.Length ==> residual[i] == 0.0
    {
      this.id, this.params, this.privacy := id, params, privacy;
      grad := new real[params.Length](_ => 0.0);
      residual := new real[params.Length](_ => 0.0);
      state, round := S.Idle, 0;
      update, delta := [], [];
      fragSent, fragTotal, rxRecv, rxTotal := 0, 0, 0, 0;
      completed, txErrors, rxErrors := 0, 0, 0;
    }

    /** fl_shard_on_rx. */
    method OnRx(p: S.Packet)
      requires Valid() && |p.raw| <= FRAME_MAX
      modifies this, params
      ensures Valid()
      ensures Value() == S.Heard(old(Value()), p)
    {
      S.HeardKeeps(Value(), p);
      hide S.ShardOk;
      var decoded := Wired.Decode(p.raw);
      if decoded.Err? {
        rxErrors := Next(rxErrors);
        return;
      }
      var f := decoded.value;
      if f.kind == BEACON {
        round := if f.payload == [] then p.stale else f.payload[0];
        state := S.Training;
      } else if f.kind == DELTA {
        if state == S.RecvDelta {
          TakeDelta(f);
        }
      } else if f.kind == ACK {
        if state == S.AwaitAck {
          completed := Next(completed);
          state := S.RecvDelta;
          rxRecv, rxTotal, delta := 0, 0, [];
        }
      } else if f.kind == ROUND_CLOSE {
        state := S.Idle;
      }
    }

    method TakeDelta(f: Frame)
      requires |delta| <= MAX_ENTRIES && state == S.RecvDelta
      requires params != grad && params != residual
      modifies this, params
      ensures Value() == S.DeltaTaken(old(Value()), f)
    {
      hide Appended;
      if f.fragIndex == 0 {
        delta := [];
        rxTotal := f.fragTotal;
      }
      var buffer, read := ReadFragment(f.payload, delta);
      delta := buffer;
      rxRecv := (rxRecv as int + 1) % TWO8;
      if rxRecv >= rxTotal {
        var dense := new real[params.Length];
        Sparse.Decode(delta, dense, params.Length, false);
        ghost var d := Dense(delta, params.Length);
        assert dense[..] == d;
        hide Dense, Sums;
        ApplyDelta(dense);
        assert params[..] == Sums(old(params[..]), d) && grad[..] == old(grad[..]) && residual[..] == old(residual[..]);
        state := S.Idle;
      }
    }

    /** fl_model_apply_delta. */
    method ApplyDelta(dense: array<real>)
      requires dense.Length == params.Length && dense != params
      modifies params
      ensures params[..] == Sums(old(params[..]), dense[..])
    {
      for i := 0 to params.Length
        invariant forall j :: 0 <= j < i ==> params[j] == old(params[j]) + dense[j]
        invariant forall j :: i <= j < params.Length ==> params[j] == old(params[j])
      {
        params[i] := params[i] + dense[i];
      }
    }

    /** The training step: the change of every parameter becomes the gradient to send. */
    method Train(trained: seq<real>)
      requires |trained| == params.Length == grad.Length && params != grad && params != residual && grad != residual
      modifies params, grad
      ensures params[..] == trained && grad[..] == S.Differences(trained, old(params[..]))
      ensures residual[..] == old(residual[..])
    {
      ghost var was := params[..];
      var before := new real[params.Length](i requires 0 <= i < params.Length reads params => params[i]);
      for i := 0 to params.Length
        invariant forall j :: 0 <= j < i ==> params[j] == trained[j]
        invariant residual[..] == old(residual[..])
        invariant forall j :: 0 <= j < before.Length ==> before[j] == was[j]
      {
        params[i] := trained[i];
      }
      for i := 0 to params.Length
        invariant params[..] == trained
        invariant residual[..] == old(residual[..])
        invariant forall j :: 0 <= j < before.Length ==> before[j] == was[j]
        invariant forall j :: 0 <= j < i ==> grad[j] == trained[j] - was[j]
      {
        grad[i] := params[i] - before[i];
      }
    }

    /** fl_dp_apply, with the noise given. */
    method AddNoise(noise: seq<real>)
      requires |noise| == grad.Length && params != grad && grad != residual
      modifies this`privacy, grad
      ensures grad[..] == if S.Noisy(old(privacy)) then Sums(old(grad[..]), noise) else old(grad[..])
      ensures privacy == if S.Noisy(old(privacy)) then old(privacy).(spent := Next(old(privacy).spent))
                         else old(privacy)
    {
      if !privacy.enabled || privacy.sigma <= 0.0 {
        return;
      }
      for i := 0 to grad.Length
        invariant privacy == old(privacy)
        invariant forall j :: 0 <= j < i ==> grad[j] == old(grad[j]) + noise[j]
        invariant forall j :: i <= j < grad.Length ==> grad[j] == old(grad[j])
      {
        grad[i] := grad[i] + noise[i];
      }
      privacy := privacy.(spent := Next(privacy.spent));
    }

    /** The selection of the entries to send; the rest stays in the residual. */
    method Sparsify()
      requires grad.Length == residual.Length == params.Length <= MAX_PARAMS && grad != residual
      modifies this`update, residual
      ensures |update| <= MAX_ENTRIES
      ensures var eff := Sums(grad[..], old(residual[..]));
              IsEncoding(eff, Min(Min(S.TopKOf(params.Length), MAX_ENTRIES), params.Length), update) &&
              residual[..] == Residue(eff, Indices(update))
    {
      hide IsEncoding, Residue, Sums;
      ghost var g, was := grad[..], residual[..];
      var topk := params.Length / 10;
      if topk < 1 {
        topk := 1;
      }
      EffectiveSum(g, was);
      update := TopK.Encode(grad[..], topk, residual);
      EncodingSize(Sums(g, was), Min(Min(topk, MAX_ENTRIES), |g|), update);
      ghost var r := Residue(Sums(g, was), Indices(update));
      assert was[|g|..] == [] && r + [] == r;
    }

    /** The encoding step. */
    method EncodeUpdate(noise: seq<real>)
      requires Valid() && state == S.Encoding && |noise| == params.Length
      modifies this, grad, residual
      ensures params != grad && params != residual && grad != residual
      ensures S.Encodes(old(Value()), noise, Value())
    {
      hide IsEncoding, Residue, Sums, S.Noisy, FragmentCount;
      AddNoise(noise);
      assert residual[..] == old(residual[..]);
      Sparsify();
      assert params[..] == old(params[..]);
      fragSent := 0;
      fragTotal := FragmentCount(|update|);
      state := S.Transmitting;
    }

    /** fl_shard_tick. */
    method Tick(e: S.Env) returns (sent: seq<bytes>)
      requires Valid() && S.EnvOk(Value(), e)
      modifies this, params, grad, residual
      ensures Valid()
      ensures S.Ticks(old(Value()), e, Value(), sent)
    {
      ghost var s := Value();
      sent := [];
      match state {
        case Idle => Listen(e.packet);
        case AwaitAck => Listen(e.packet);
        case RecvDelta => Listen(e.packet);
        case Training =>
          Train(e.trained);
          state := S.Encoding;
        case Encoding => EncodeUpdate(e.noise);
        case Transmitting => sent := Transmit(e.sendOk);
        case Error =>
      }
      S.TickKeeps(s, e, Value(), sent);
    }

    method Listen(p: S.Packet)
      requires Valid() && |p.raw| <= FRAME_MAX
      modifies this, params
      ensures Valid() && Value() == S.Listened(old(Value()), p)
    {
      if |p.raw| > 0 {
        OnRx(p);
      }
    }

    /** One fragment per tick. */
    method Transmit(sendOk: bool) returns (sent: seq<bytes>)
      requires Valid() && state == S.Transmitting
      modifies this
      ensures if old(fragTotal) == 0 then sent == [] && Value() == old(Value()).(state := S.AwaitAck)
              else
                Value() == S.Attempted(old(Value()), sendOk) &&
                sent == if sendOk then [Wire(FragmentFrame(UPDATE, id, old(round), old(update), old(fragSent)))] else []
    {
      sent := [];
      if fragTotal == 0 {
        state := S.AwaitAck;
        return;
      }
      if fragSent < fragTotal {
        var wire := MakeFragment(UPDATE, id, round, update, fragSent);
        hide FragmentFrame, Wire, FragmentCount;
        if sendOk {
          sent := [wire];
          fragSent := fragSent as int + 1;
        } else {
          txErrors := Next(txErrors);
        }
        if fragSent >= fragTotal {
          state := S.AwaitAck;
        }
      }
    }
  }

  lemma EffectiveSum(g: seq<real>, r: seq<real>)
    requires |g| == |r|
    ensures Effective(g, r, |g|) == Sums(g, r)
  {
  }
}
