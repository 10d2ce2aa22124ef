/** Sparse buffers: scattering entries into a dense vector, and cutting a buffer into
    fragments of at most 71 three-byte entries. */
module Sparse {
  import opened Words
  import opened Quant
  import opened TopK
  import opened RealSums
  import LittleEndian

  const PER_FRAGMENT := 71
  const ENTRY_SIZE := 3

  // ----- decoding

  /** What a list of entries adds to coordinate i. */
  ghost function DecodedAt(entries: seq<Entry>, i: nat): real {
    if entries == [] then 0.0
    else DecodedAt(entries[..|entries| - 1], i) + Share(entries[|entries| - 1], i)
  }

  function Share(e: Entry, i: nat): real {
    if e.index as nat == i then DequantQ8(e.q) else 0.0
  }

  /** The dense vector a list of entries stands for. */
  ghost function Dense(entries: seq<Entry>, n: nat): (v: seq<real>)
    ensures |v| == n
  {
    seq(n, i requires 0 <= i < n => DecodedAt(entries, i))
  }

  /** fl_sparse_decode: entries with an index out of range are skipped. */
  method Decode(entries: seq<Entry>, grad: array<real>, n: nat, accumulate: bool)
    requires n <= grad.Length
    modifies grad
    ensures forall i :: 0 <= i < n ==> grad[i] == (if accumulate then old(grad[i]) else 0.0) + DecodedAt(entries, i)
    ensures forall i :: n <= i < grad.Length ==> grad[i] == old(grad[i])
  {
    if !accumulate {
      for i := 0 to n
        invariant forall j :: 0 <= j < i ==> grad[j] == 0.0
        invariant forall j :: n <= j < grad.Length ==> grad[j] == old(grad[j])
      {
        grad[i] := 0.0;
      }
    }
    ghost var start := grad[..];
    for k := 0 to |entries|
      invariant forall i :: 0 <= i < n ==> grad[i] == start[i] + DecodedAt(entries[..k], i)
      invariant forall i :: n <= i < grad.Length ==> grad[i] == start[i]
    {
      var e := entries[k];
      assert entries[..k + 1][..k] == entries[..k] && entries[..k + 1][k] == e;
      if e.index as nat < n {
        grad[e.index] := grad[e.index] + DequantQ8(e.q);
      }
    }
    assert entries[..|entries|] == entries;
  }

  lemma {:induction false} DecodedAppend(a: seq<Entry>, b: seq<Entry>, i: nat)
    ensures DecodedAt(a + b, i) == DecodedAt(a, i) + DecodedAt(b, i)
    decreases |b|
  {
    if b == [] {
      assert a + b == a;
    } else {
      var front := b[..|b| - 1];
      DecodedAppend(a, front, i);
      assert (a + b)[..|a + b| - 1] == a + front;
    }
  }

  /** The order of the entries does not matter. */
  lemma {:induction false} DecodedUnordered(a: seq<Entry>, b: seq<Entry>, i: nat)
    requires multiset(a) == multiset(b)
    ensures DecodedAt(a, i) == DecodedAt(b, i)
    decreases |a|
  {
    PermutationOfNothing(a, b);
    if a != [] {
      var front, e := a[..|a| - 1], a[|a| - 1];
      var before, after := Locate(a, b);
      DecodedUnordered(front, before + after, i);
      DecodedAppend(before, [e] + after, i);
      DecodedAppend([e], after, i);
      DecodedAppend(before, after, i);
      assert DecodedAt([e], i) == DecodedAt([], i) + Share(e, i) by {
        assert [e][..0] == [];
      }
    }
  }

  lemma DenseUnordered(a: seq<Entry>, b: seq<Entry>, n: nat)
    requires multiset(a) == multiset(b)
    ensures Dense(a, n) == Dense(b, n)
  {
    forall i | 0 <= i < n
      ensures Dense(a, n)[i] == Dense(b, n)[i]
    {
      DecodedUnordered(a, b, i);
    }
  }

  /** Entries with distinct indices set each of their coordinates once. */
  lemma {:induction false} DecodedDistinct(entries: seq<Entry>, i: nat)
    requires forall a, b :: 0 <= a < b < |entries| ==> entries[a].index != entries[b].index
    ensures forall k :: 0 <= k < |entries| && entries[k].index as nat == i ==>
            DecodedAt(entries, i) == DequantQ8(entries[k].q)
    ensures (forall k :: 0 <= k < |entries| ==> entries[k].index as nat != i) ==> DecodedAt(entries, i) == 0.0
    decreases |entries|
  {
    if entries == [] {
    } else {
      var front, last := entries[..|entries| - 1], entries[|entries| - 1];
      DecodedDistinct(front, i);
      assert forall k :: 0 <= k < |front| ==> front[k] == entries[k];
    }
  }

  // ----- bytes

  function EntryBytes(e: Entry): (b: bytes)
    ensures |b| == ENTRY_SIZE
  {
    [e.index as int % 0x100, e.index as int / 0x100, e.q as int % 0x100]
  }

  function EntryOf(b0: u8, b1: u8, b2: u8): Entry {
    Entry(b0 as int + 0x100 * b1 as int, if b2 < 128 then b2 as int else b2 as int - 0x100)
  }

  function Serialized(entries: seq<Entry>): (b: bytes)
    ensures |b| == ENTRY_SIZE * |entries|
    decreases |entries|
  {
    if entries == [] then [] else EntryBytes(entries[0]) + Serialized(entries[1..])
  }

  /** The entries in a payload of whole entries. */
  function Parsed(b: bytes): (entries: seq<Entry>)
    requires |b| % ENTRY_SIZE == 0
    ensures |entries| == |b| / ENTRY_SIZE
    decreases |b|
  {
    if b == [] then [] else [EntryOf(b[0], b[1], b[2])] + Parsed(b[3..])
  }

  lemma EntryRoundTrip(e: Entry)
    ensures var b := EntryBytes(e); EntryOf(b[0], b[1], b[2]) == e
  {
  }

  /** Three bytes: the index with its low byte first, and the code in two's complement. */
  lemma EntryLayout(e: Entry)
    ensures var b := EntryBytes(e);
            LittleEndian.LE(b[..2]) == e.index && b[2] as int == if e.q >= 0 then e.q else e.q + 256
  {
    var b := EntryBytes(e);
    LittleEndian.LETwo(b[0], b[1]);
    assert b[..2] == [b[0], b[1]];
  }

  lemma {:induction false} ParseSerialized(entries: seq<Entry>)
    ensures Parsed(Serialized(entries)) == entries
    decreases |entries|
  {
    if entries == [] {
    } else {
      var b := Serialized(entries);
      EntryRoundTrip(entries[0]);
      assert b[3..] == Serialized(entries[1..]);
      ParseSerialized(entries[1..]);
    }
  }

  // ----- fragments

  /** fl_sparse_fragment_count, rounded up, in the uint8_t it returns. */
  function FragmentCount(count: nat): (n: nat)
    requires count <= MAX_ENTRIES
    ensures n < 0x100
  {
    (count + PER_FRAGMENT - 1) / PER_FRAGMENT % 0x100
  }

  /** The entries of fragment f. */
  function Chunk(entries: seq<Entry>, f: nat): (c: seq<Entry>)
    ensures |c| <= PER_FRAGMENT
  {
    if f * PER_FRAGMENT >= |entries| then []
    else entries[f * PER_FRAGMENT..Min((f + 1) * PER_FRAGMENT, |entries|)]
  }

  /** fl_sparse_write_fragment: no payload for a fragment that does not exist. */
  method WriteFragment(entries: seq<Entry>, f: u8) returns (payload: bytes, ok: bool)
    requires |entries| <= MAX_ENTRIES
    ensures ok <==> f as nat * PER_FRAGMENT < |entries|
    ensures ok <==> f as nat < FragmentCount(|entries|)
    ensures payload == Serialized(Chunk(entries, f)) && |payload| <= 213
  {
    var start := f as nat * PER_FRAGMENT;
    if start >= |entries| {
      return [], false;
    }
    var count := |entries| - start;
    if count > PER_FRAGMENT {
      count := PER_FRAGMENT;
    }
    payload, ok := Serialized(entries[start..start + count]), true;
  }

  /** What appending a payload to a buffer gives; a payload with a broken entry or one
      that would overflow the buffer is dropped. */
  function Appended(buffer: seq<Entry>, payload: bytes): (b: seq<Entry>)
    requires |buffer| <= MAX_ENTRIES
    ensures |b| <= MAX_ENTRIES
  {
    if |payload| % ENTRY_SIZE != 0 || |buffer| + |payload| / ENTRY_SIZE > MAX_ENTRIES then buffer
    else buffer + Parsed(payload)
  }

  /** fl_sparse_read_fragment. */
  method ReadFragment(payload: bytes, buffer: seq<Entry>) returns (out: seq<Entry>, read: int)
    requires |buffer| <= MAX_ENTRIES
    ensures out == Appended(buffer, payload)
    ensures read == if |payload| % ENTRY_SIZE != 0 || |buffer| + |payload| / ENTRY_SIZE > MAX_ENTRIES then -1
                    else |payload| / ENTRY_SIZE
  {
    if |payload| % ENTRY_SIZE != 0 {
      return buffer, -1;
    }
    var count := |payload| / ENTRY_SIZE;
    if |buffer| + count > MAX_ENTRIES {
      return buffer, -1;
    }
    out, read := buffer + Parsed(payload), count;
  }

  /** The chunks of fragments 0 to n - 1, one after the other. */
  function Chunks(entries: seq<Entry>, n: nat): seq<Entry> {
    if n == 0 then [] else Chunks(entries, n - 1) + Chunk(entries, n - 1)
  }

  lemma {:induction false} ChunksPrefix(entries: seq<Entry>, n: nat)
    ensures Chunks(entries, n) == entries[..Min(n * PER_FRAGMENT, |entries|)]
  {
    if n == 0 {
    } else {
      ChunksPrefix(entries, n - 1);
      NextChunk(entries, n - 1);
    }
  }

  lemma NextChunk(entries: seq<Entry>, f: nat)
    ensures entries[..Min(f * PER_FRAGMENT, |entries|)] + Chunk(entries, f) ==
            entries[..Min((f + 1) * PER_FRAGMENT, |entries|)]
  {
    var a, b := f * PER_FRAGMENT, (f + 1) * PER_FRAGMENT;
    assert b == a + PER_FRAGMENT;
    if a < |entries| {
      JoinSlices(entries, a, Min(b, |entries|));
    }
  }

  lemma JoinSlices<T>(s: seq<T>, a: nat, b: nat)
    requires a <= b <= |s|
    ensures s[..a] + s[a..b] == s[..b]
  {
  }

  /** The fragments together are the whole buffer, and there are no more than the pool accepts. */
  lemma FragmentsCover(entries: seq<Entry>)
    requires |entries| <= MAX_ENTRIES
    ensures Chunks(entries, FragmentCount(|entries|)) == entries
    ensures FragmentCount(|entries|) <= 15
    ensures FragmentCount(|entries|) == 0 <==> entries == []
  {
    CountCovers(|entries|);
    ChunksPrefix(entries, FragmentCount(|entries|));
  }

  /** Every fragment but the last is full: the payload has no room for another entry. */
  lemma FragmentsFull(entries: seq<Entry>, f: nat)
    requires |entries| <= MAX_ENTRIES && f + 1 < FragmentCount(|entries|)
    ensures |Serialized(Chunk(entries, f))| <= 214 < |Serialized(Chunk(entries, f))| + 3
  {
    CountCovers(|entries|);
    assert (f + 1) * PER_FRAGMENT < |entries|;
  }

  lemma CountCovers(count: nat)
    requires count <= MAX_ENTRIES
    ensures FragmentCount(count) == (count + PER_FRAGMENT - 1) / PER_FRAGMENT <= 15
    ensures count <= FragmentCount(count) * PER_FRAGMENT < count + PER_FRAGMENT
  {
    var n := (count + 70) / 71;
    assert n <= 15 && n % 0x100 == n;
  }
}
