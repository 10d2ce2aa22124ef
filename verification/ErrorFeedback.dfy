/** Error feedback over many rounds: what was sent plus what is still held back is what
    was put in, up to the quantisation of the entries sent. */
module ErrorFeedback {
  import opened Quant
  import opened TopK
  import opened TopKLaws
  import opened Sparse

  /** One call of fl_sparse_encode with a residual: its gradient and the entries it sent. */
  datatype Round = Round(grad: seq<real>, limit: nat, entries: seq<Entry>)

  ghost function Eff(r: seq<real>, round: Round): (e: seq<real>)
    requires |round.grad| == |r|
    ensures |e| == |r|
  {
    seq(|r|, i requires 0 <= i < |r| => round.grad[i] + r[i])
  }

  /** A run of rounds that starts from residual r. */
  ghost predicate IsRun(r: seq<real>, rounds: seq<Round>)
    decreases |rounds|
  {
    rounds == [] ||
    (|rounds[0].grad| == |r| && IsEncoding(Eff(r, rounds[0]), rounds[0].limit, rounds[0].entries) &&
     IsRun(Residue(Eff(r, rounds[0]), Indices(rounds[0].entries)), rounds[1..]))
  }

  /** The residual after the run. */
  ghost function Final(r: seq<real>, rounds: seq<Round>): (f: seq<real>)
    requires IsRun(r, rounds)
    ensures |f| == |r|
    decreases |rounds|
  {
    if rounds == [] then r else Final(Residue(Eff(r, rounds[0]), Indices(rounds[0].entries)), rounds[1..])
  }

  /** One more round at the end. */
  lemma {:induction false} RunGrows(r: seq<real>, rounds: seq<Round>, round: Round)
    requires IsRun(r, rounds) && |round.grad| == |r|
    requires IsEncoding(Eff(Final(r, rounds), round), round.limit, round.entries)
    ensures IsRun(r, rounds + [round])
    ensures Final(r, rounds + [round]) == Residue(Eff(Final(r, rounds), round), Indices(round.entries))
    decreases |rounds|
  {
    hide IsEncoding, Indices, Residue, Eff;
    if rounds == [] {
      assert [] + [round] == [round] && [round][1..] == [];
    } else {
      RunGrows(Residue(Eff(r, rounds[0]), Indices(rounds[0].entries)), rounds[1..], round);
      assert (rounds + [round])[1..] == rounds[1..] + [round];
    }
  }

  /** Coordinate i of all the gradients, and of everything the receivers decode. */
  ghost function Given(rounds: seq<Round>, i: nat): real
    decreases |rounds|
  {
    if rounds == [] then 0.0
    else (if i < |rounds[0].grad| then rounds[0].grad[i] else 0.0) + Given(rounds[1..], i)
  }

  ghost function Sent(rounds: seq<Round>, i: nat): real
    decreases |rounds|
  {
    if rounds == [] then 0.0 else DecodedAt(rounds[0].entries, i) + Sent(rounds[1..], i)
  }

  /** The quantisation errors of the rounds in which coordinate i was sent. */
  ghost function Lost(r: seq<real>, rounds: seq<Round>, i: nat): real
    requires IsRun(r, rounds) && i < |r|
    decreases |rounds|
  {
    if rounds == [] then 0.0
    else
      var e, sel := Eff(r, rounds[0]), Indices(rounds[0].entries);
      (if i in sel then e[i] - Carried(e[i]) else 0.0) + Lost(Residue(e, sel), rounds[1..], i)
  }

  /** How often coordinate i was sent. */
  ghost function Hits(rounds: seq<Round>, i: nat): nat
    decreases |rounds|
  {
    if rounds == [] then 0 else (if i in Indices(rounds[0].entries) then 1 else 0) + Hits(rounds[1..], i)
  }

  /** Whenever coordinate i was sent its value was one the code follows within a step. */
  ghost predicate InRange(r: seq<real>, rounds: seq<Round>, i: nat)
    requires IsRun(r, rounds) && i < |r|
    decreases |rounds|
  {
    rounds == [] ||
    var e, sel := Eff(r, rounds[0]), Indices(rounds[0].entries);
    (i in sel ==> -129.0 / 128.0 < e[i] < 1.0) && InRange(Residue(e, sel), rounds[1..], i)
  }

  /** A receiver decodes the carried value on the coordinates sent and nothing elsewhere. */
  lemma EncodingDecodes(eff: seq<real>, limit: nat, entries: seq<Entry>, i: nat)
    requires IsEncoding(eff, limit, entries) && i < |eff|
    ensures DecodedAt(entries, i) == if i in Indices(entries) then Carried(eff[i]) else 0.0
  {
    SelectedInRange(eff, Indices(entries));
    forall a, b | 0 <= a < b < |entries|
      ensures entries[a].index != entries[b].index
    {
      assert Indices(entries)[a] != Indices(entries)[b];
    }
    hide Selected, QuantQ8, DequantQ8, DecodedAt;
    DecodedDistinct(entries, i);
    if i in Indices(entries) {
      var k :| 0 <= k < |entries| && Indices(entries)[k] == i;
      assert entries[k].index as nat == i;
    } else {
      forall k | 0 <= k < |entries|
        ensures entries[k].index as nat != i
      {
        assert Indices(entries)[k] in Indices(entries);
      }
    }
  }

  /** Exact balance, for every run: sent + held back + lost to rounding == given + initial. */
  lemma {:induction false} Balance(r: seq<real>, rounds: seq<Round>, i: nat)
    requires IsRun(r, rounds) && i < |r|
    ensures Sent(rounds, i) + Final(r, rounds)[i] + Lost(r, rounds, i) == Given(rounds, i) + r[i]
    decreases |rounds|
  {
    if rounds == [] {
    } else {
      var e, sel := Eff(r, rounds[0]), Indices(rounds[0].entries);
      EncodingDecodes(e, rounds[0].limit, rounds[0].entries, i);
      Balance(Residue(e, sel), rounds[1..], i);
    }
  }

  lemma {:induction false} LossBound(r: seq<real>, rounds: seq<Round>, i: nat)
    requires IsRun(r, rounds) && i < |r| && InRange(r, rounds, i)
    ensures Abs(Lost(r, rounds, i)) <= Hits(rounds, i) as real / 128.0
    decreases |rounds|
  {
    if rounds == [] {
    } else {
      var e, sel := Eff(r, rounds[0]), Indices(rounds[0].entries);
      LossBound(Residue(e, sel), rounds[1..], i);
      if i in sel {
        CarriedError(e[i]);
        assert Hits(rounds, i) as real == Hits(rounds[1..], i) as real + 1.0;
      }
    }
  }

  /** Over any number of rounds the two sides differ by at most one step for each time
      the coordinate was sent. */
  lemma FeedbackKeepsTrack(r: seq<real>, rounds: seq<Round>, i: nat)
    requires IsRun(r, rounds) && i < |r| && InRange(r, rounds, i)
    ensures Abs(Sent(rounds, i) + Final(r, rounds)[i] - (Given(rounds, i) + r[i])) <= Hits(rounds, i) as real / 128.0
  {
    hide IsRun, InRange, Given, Sent, Lost, Hits, Final;
    Balance(r, rounds, i);
    LossBound(r, rounds, i);
  }
}
