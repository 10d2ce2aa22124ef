/** Top-k selection with error feedback: fl_sparse_encode.

    `StableTop` is the specification: the selected indices are a prefix of the stable
    sort by descending magnitude.  It determines the selection. */
module TopK {
  import opened Words
  import opened Quant

  const MAX_ENTRIES := 1024
  const MAX_PARAMS := 4096
  const NEGLIGIBLE: real := 0.000000001

  datatype Entry = Entry(index: u16, q: i8)

  // ----- the selection

  /** Among the indices not yet chosen, b has the largest magnitude, and is the first to have it. */
  ghost predicate IsBest(eff: seq<real>, chosen: seq<nat>, b: nat) {
    && b < |eff| && b !in chosen
    && (forall i :: 0 <= i < |eff| && i !in chosen ==> Abs(eff[i]) <= Abs(eff[b]))
    && (forall i :: 0 <= i < b && i !in chosen ==> Abs(eff[i]) < Abs(eff[b]))
  }

  ghost predicate StableTop(eff: seq<real>, sel: seq<nat>) {
    forall k :: 0 <= k < |sel| ==> IsBest(eff, sel[..k], sel[k])
  }

  /** The whole result of a selection of at most `limit` entries. */
  ghost predicate Selected(eff: seq<real>, limit: nat, sel: seq<nat>) {
    && StableTop(eff, sel)
    && |sel| <= limit
    && (forall k :: 0 <= k < |sel| ==> Abs(eff[sel[k]]) >= NEGLIGIBLE)
    && (|sel| < limit ==> forall i :: 0 <= i < |eff| && i !in sel ==> Abs(eff[i]) < NEGLIGIBLE)
  }

  function Indices(entries: seq<Entry>): (s: seq<nat>)
    ensures |s| == |entries|
  {
    seq(|entries|, i requires 0 <= i < |entries| => entries[i].index as nat)
  }

  /** The entries Encode gives for an effective gradient: the selection, quantised. */
  ghost predicate IsEncoding(eff: seq<real>, limit: nat, entries: seq<Entry>) {
    Selected(eff, limit, Indices(entries)) &&
    forall k :: 0 <= k < |entries| ==> entries[k].index as nat < |eff| && entries[k].q == QuantQ8(eff[entries[k].index])
  }

  lemma EncodingSize(eff: seq<real>, limit: nat, entries: seq<Entry>)
    requires IsEncoding(eff, limit, entries)
    ensures |entries| <= limit
  {
    assert |Indices(entries)| == |entries|;
  }

  /** What stays behind: nothing at the selected coordinates, everything elsewhere. */
  ghost function Residue(eff: seq<real>, sel: seq<nat>): (r: seq<real>)
    ensures |r| == |eff|
  {
    seq(|eff|, i requires 0 <= i < |eff| => if i in sel then 0.0 else eff[i])
  }

  /** The gradient with the residual of earlier rounds added; no residual adds nothing. */
  function Effective(grad: seq<real>, residual: seq<real>, n: nat): (e: seq<real>)
    requires n <= |grad| && (residual == [] || n <= |residual|)
    ensures |e| == n
  {
    seq(n, i requires 0 <= i < n => if residual == [] then grad[i] else grad[i] + residual[i])
  }

  // ----- the code

  /** One pass of the inner loop: the best unselected index, if any is left. */
  method FindBest(eff: array<real>, n: nat, selected: array<bool>) returns (best: nat, value: real)
    requires n <= eff.Length && n <= selected.Length
    ensures best <= n
    ensures best == n ==> value == 0.0 && forall i :: 0 <= i < n ==> selected[i]
    ensures best < n ==> !selected[best] && value == Abs(eff[best])
    ensures best < n ==> forall i :: 0 <= i < n && !selected[i] ==> Abs(eff[i]) <= value
    ensures best < n ==> forall i :: 0 <= i < best && !selected[i] ==> Abs(eff[i]) < value
  {
    best, value := n, 0.0;
    for i := 0 to n
      invariant best < i || best == n
      invariant best == n ==> value == 0.0 && forall j :: 0 <= j < i ==> selected[j]
      invariant best < n ==> !selected[best] && value == Abs(eff[best])
      invariant best < n ==> forall j :: 0 <= j < i && !selected[j] ==> Abs(eff[j]) <= value
      invariant best < n ==> forall j :: 0 <= j < best && !selected[j] ==> Abs(eff[j]) < value
    {
      if !selected[i] {
        var a := Abs(eff[i]);
        if best == n || a > value {
          best, value := i, a;
        }
      }
    }
  }

  /** fl_sparse_encode.  `residual` is null where the C code is given a null pointer. */
  method Encode(grad: seq<real>, topk: nat, residual: array?<real>) returns (out: seq<Entry>)
    requires |grad| < TWO16
    requires residual != null ==> residual.Length >= Min(|grad|, MAX_PARAMS)
    modifies residual
    ensures var eff := Effective(grad, if residual == null then [] else old(residual[..]), Min(|grad|, MAX_PARAMS));
            IsEncoding(eff, Min(Min(topk, MAX_ENTRIES), |grad|), out) &&
            (residual != null ==> residual[..] == Residue(eff, Indices(out)) + old(residual[..])[|eff|..])
  {
    var limit := Min(Min(topk, MAX_ENTRIES), |grad|);
    var n := Min(|grad|, MAX_PARAMS);
    ghost var was := if residual == null then [] else residual[..];
    ghost var e := Effective(grad, was, n);
    var eff := new real[n];
    for i := 0 to n
      invariant residual != null ==> residual[..] == was
      invariant forall j :: 0 <= j < i ==> eff[j] == e[j]
    {
      eff[i] := grad[i];
      if residual != null {
        assert residual[i] == was[i];
        eff[i] := eff[i] + residual[i];
      }
    }
    assert eff[..] == e;
    var selected := new bool[n](_ => false);
    out := SelectLoop(eff, selected, limit, e);
    if residual != null {
      UpdateResidual(eff, selected, residual, e, Indices(out));
    }
  }

  method SelectLoop(eff: array<real>, selected: array<bool>, limit: nat, ghost e: seq<real>) returns (out: seq<Entry>)
    requires eff.Length == selected.Length <= MAX_PARAMS && eff[..] == e && limit <= MAX_ENTRIES
    requires forall i :: 0 <= i < eff.Length ==> !selected[i]
    modifies selected
    ensures IsEncoding(e, limit, out)
    ensures forall i :: 0 <= i < |e| ==> (selected[i] <==> i in Indices(out))
  {
    out := [];
    var k := 0;
    while k < limit
      invariant k <= limit && |out| == k
      invariant StableTop(e, Indices(out))
      invariant forall j :: 0 <= j < |out| ==> out[j].index as nat < |e| && out[j].q == QuantQ8(e[out[j].index])
      invariant forall j :: 0 <= j < |out| ==> Abs(e[Indices(out)[j]]) >= NEGLIGIBLE
      invariant forall i :: 0 <= i < |e| ==> (selected[i] <==> i in Indices(out))
    {
      var best, value := FindBest(eff, eff.Length, selected);
      assert forall i :: 0 <= i < |e| ==> eff[i] == e[i];
      if best == eff.Length || value < NEGLIGIBLE {
        return;
      }
      assert IsBest(e, Indices(out), best);
      selected[best] := true;
      ghost var before := Indices(out);
      out := out + [Entry(best, QuantQ8(eff[best]))];
      assert Indices(out) == before + [best];
      StableExtend(e, before, best);
      k := k + 1;
    }
  }

  lemma StableExtend(eff: seq<real>, sel: seq<nat>, b: nat)
    requires StableTop(eff, sel) && IsBest(eff, sel, b)
    ensures StableTop(eff, sel + [b])
  {
    var t := sel + [b];
    forall k | 0 <= k < |t|
      ensures IsBest(eff, t[..k], t[k])
    {
      if k < |sel| {
        assert t[..k] == sel[..k];
      } else {
        assert t[..k] == sel;
      }
    }
  }

  method UpdateResidual(eff: array<real>, selected: array<bool>, residual: array<real>, ghost e: seq<real>,
                        ghost sel: seq<nat>)
    requires eff.Length == selected.Length <= residual.Length && eff[..] == e
    requires residual != eff
    requires forall i :: 0 <= i < |e| ==> (selected[i] <==> i in sel)
    modifies residual
    ensures residual[..] == Residue(e, sel) + old(residual[..])[|e|..]
  {
    ghost var r := Residue(e, sel);
    for i := 0 to eff.Length
      invariant eff[..] == e
      invariant forall j :: 0 <= j < i ==> residual[j] == r[j]
      invariant forall j :: |e| <= j < residual.Length ==> residual[j] == old(residual[j])
    {
      assert eff[i] == e[i];
      residual[i] := if selected[i] then 0.0 else eff[i];
    }
  }
}
