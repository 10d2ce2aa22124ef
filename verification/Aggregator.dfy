/** The aggregator: running sum for the mean, buffered updates for the median. */
module Aggregator {
  import opened Words
  import opened RealSums
  import opened Aggregation

  const MAX_SHARDS := 64

  class Aggregator {
    const strategy: Strategy
    const accumulator: array<real>
    const rows: array2<real>
    var shardCount: nat
    /** The updates accepted since the last reset. */
    ghost var added: seq<seq<real>>

    ghost predicate Valid()
      reads this, accumulator, rows
    {
      && rows.Length0 == MAX_SHARDS && rows.Length1 == accumulator.Length
      && shardCount == |added| <= MAX_SHARDS
      && (forall k :: 0 <= k < |added| ==> |added[k]| == accumulator.Length)
      && (strategy == FedAvg ==> forall i :: 0 <= i < accumulator.Length ==> accumulator[i] == Sum(Column(added, i)))
      && (strategy == Median ==> forall k, i :: 0 <= k < |added| && 0 <= i < accumulator.Length ==>
          rows[k, i] == added[k][i])
    }

    constructor (strategy: Strategy, n: nat)
      ensures Valid() && this.strategy == strategy && added == [] && accumulator.Length == n
      ensures fresh(accumulator) && fresh(rows)
    {
      this.strategy := strategy;
      accumulator := new real[n](_ => 0.0);
      rows := new real[MAX_SHARDS, n];
      shardCount, added := 0, [];
    }

    /** An update with fewer parameters than the model leaves the mean's other sums alone;
        the median keeps whatever the row held there before. */
    ghost function Completed(update: seq<real>): (u: seq<real>)
      requires Valid() && shardCount < MAX_SHARDS && |update| <= accumulator.Length
      reads this, accumulator, rows
      ensures |u| == accumulator.Length
      ensures update <= u
    {
      seq(accumulator.Length,
          i requires 0 <= i < accumulator.Length && Valid() && shardCount < MAX_SHARDS reads this, accumulator, rows =>
        if i < |update| then update[i] else if strategy == FedAvg then 0.0 else rows[shardCount, i])
    }

    /** fl_agg_add: the sixty-fifth update of a round, and every later one, is ignored. */
    method Add(update: seq<real>)
      requires Valid()
      modifies this`shardCount, this`added, accumulator, rows
      ensures Valid()
      ensures added == if old(shardCount) == MAX_SHARDS then old(added)
                       else old(added) + [old(Completed(update[..Min(|update|, accumulator.Length)]))]
    {
      var n := Min(|update|, accumulator.Length);
      if shardCount == MAX_SHARDS {
        return;
      }
      ghost var u := Completed(update[..n]);
      match strategy {
        case FedAvg => Accumulate(update[..n]);
        case Median => StoreRow(update[..n]);
      }
      ghost var before := added;
      shardCount, added := shardCount + 1, added + [u];
      forall i | 0 <= i < accumulator.Length && strategy == FedAvg
        ensures accumulator[i] == Sum(Column(added, i))
      {
        ColumnAppend(before, [u], i);
        SumAppend(Column(before, i), [u[i]]);
        SumOne(u[i]);
        assert Column([u], i) == [u[i]];
      }
    }

    method Accumulate(update: seq<real>)
      requires |update| <= accumulator.Length
      modifies accumulator
      ensures forall i :: 0 <= i < |update| ==> accumulator[i] == old(accumulator[i]) + update[i]
      ensures forall i :: |update| <= i < accumulator.Length ==> accumulator[i] == old(accumulator[i])
    {
      for i := 0 to |update|
        invariant forall j :: 0 <= j < i ==> accumulator[j] == old(accumulator[j]) + update[j]
        invariant forall j :: i <= j < accumulator.Length ==> accumulator[j] == old(accumulator[j])
      {
        accumulator[i] := accumulator[i] + update[i];
      }
    }

    method StoreRow(update: seq<real>)
      requires rows.Length0 == MAX_SHARDS && shardCount < MAX_SHARDS && |update| <= rows.Length1
      modifies rows
      ensures forall i :: 0 <= i < |update| ==> rows[shardCount, i] == update[i]
      ensures forall k, i :: 0 <= k < MAX_SHARDS && 0 <= i < rows.Length1 && (k != shardCount || i >= |update|) ==>
                rows[k, i] == old(rows[k, i])
    {
      for i := 0 to |update|
        invariant forall j :: 0 <= j < i ==> rows[shardCount, j] == update[j]
        invariant forall k, j :: 0 <= k < MAX_SHARDS && 0 <= j < rows.Length1 && (k != shardCount || j >= i) ==>
                    rows[k, j] == old(rows[k, j])
      {
        rows[shardCount, i] := update[i];
      }
    }

    /** fl_agg_finalize writes the aggregated delta of the accepted updates. */
    method Finalize(delta: array<real>)
      requires Valid() && delta.Length >= accumulator.Length
      requires delta != accumulator
      modifies delta
      ensures delta[..accumulator.Length] == Aggregate(strategy, added, accumulator.Length)
      ensures delta[accumulator.Length..] == old(delta[accumulator.Length..])
    {
      var n := accumulator.Length;
      ghost var d := Aggregate(strategy, added, n);
      for i := 0 to n
        invariant delta[..i] == d[..i]
        invariant delta[n..] == old(delta[n..])
        invariant Valid()
      {
        if shardCount == 0 {
          delta[i] := 0.0;
        } else {
          match strategy {
            case FedAvg => delta[i] := accumulator[i] / shardCount as real;
            case Median =>
              var col := Collect(i);
              delta[i] := MedianOf(col);
          }
        }
      }
    }

    /** The column that is handed to the sort. */
    method Collect(i: nat) returns (col: seq<real>)
      requires Valid() && strategy == Median && i < accumulator.Length
      ensures col == Column(added, i)
    {
      col := [];
      for s := 0 to shardCount
        invariant |col| == s && forall k :: 0 <= k < s ==> col[k] == added[k][i]
      {
        col := col + [rows[s, i]];
      }
    }

    method Reset()
      requires Valid()
      modifies this`shardCount, this`added, accumulator
      ensures Valid() && added == []
    {
      shardCount, added := 0, [];
      for i := 0 to accumulator.Length
        invariant shardCount == 0 && added == []
        invariant forall j :: 0 <= j < i ==> accumulator[j] == 0.0
      {
        accumulator[i] := 0.0;
      }
    }
  }
}
