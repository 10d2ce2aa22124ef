/** The Poly1305 struct and its functions, working in place. */
module Poly1305 {
  import opened Words
  import opened Poly1305Limbs
  import opened Poly1305State
  import opened Poly1305Finish

  class Mac {
    const r: Limbs
    const pad: seq<u32>
    const h: array<u32>
    const buf: array<u8>
    var used: nat

    ghost predicate Valid()
      reads this, h, buf
    {
      h.Length == 5 && buf.Length == 16 && Now().Ok()
    }

    /** The current state as a value. */
    ghost function Now(): State
      requires h.Length == 5 && buf.Length == 16
      reads this, h, buf
    {
      State(r, h[..], pad, buf[..], used)
    }

    constructor (key: bytes)
      requires |key| == 32
      ensures Valid() && fresh(h) && fresh(buf)
      ensures Now() == InitState(key)
    {
      hide ClampKey, KeyLimbs, PadWords, Clamped, Accumulator, InitState;
      r := KeyLimbs(ClampKey(key));
      pad := PadWords(key);
      h := new u32[5](_ => 0);
      buf := new u8[16](_ => 0);
      used := 0;
      new;
      assert h[..] == [0, 0, 0, 0, 0] && buf[..] == seq(16, _ => 0);
      assert Now() == InitState(key);
    }

    /** h := (h + block) * r, partially reduced. */
    method Block(m: bytes, hibit: nat)
      requires Valid() && |m| == 16 && hibit < 2
      modifies h
      ensures Valid() && h[..] == BlockLimbs(old(h[..]), r, m, hibit)
    {
      hide D0, D1, D2, D3, D4, Column;
      var x := Added(h[..], BlockWords(m, hibit));
      BlockFits(x, r);
      var s1: u32, s2: u32, s3: u32, s4: u32 := r[1] as int * 5, r[2] as int * 5, r[3] as int * 5, r[4] as int * 5;
      FiveColumnsOf(x, r, s1, s2, s3, s4);
      var d0: u64, d1: u64, d2: u64, d3: u64, d4: u64 :=
        Column(x[0], r[0], x[1], s4, x[2], s3, x[3], s2, x[4], s1),
        Column(x[0], r[1], x[1], r[0], x[2], s4, x[3], s3, x[4], s2),
        Column(x[0], r[2], x[1], r[1], x[2], r[0], x[3], s4, x[4], s3),
        Column(x[0], r[3], x[1], r[2], x[2], r[1], x[3], r[0], x[4], s4),
        Column(x[0], r[4], x[1], r[3], x[2], r[2], x[3], r[1], x[4], r[0]);
      var o := Reduce(d0, d1, d2, d3, d4);
      h[0], h[1], h[2], h[3], h[4] := o[0], o[1], o[2], o[3], o[4];
      assert h[..] == o;
    }

    method Update(m: bytes)
      requires Valid()
      modifies this, h, buf
      ensures Valid() && Now() == FeedAll(old(Now()), m)
    {
      hide BlockLimbs, Clamped, Accumulator;
      ghost var start := Now();
      for i := 0 to |m|
        invariant Valid() && Now() == FeedAll(start, m[..i])
      {
        FeedPieces(start, m[..i], [m[i]]);
        assert m[..i + 1] == m[..i] + [m[i]];
        ghost var st := Now();
        if used == 16 {
          Block(buf[..], 1);
          used := 0;
        }
        buf[used] := m[i];
        used := used + 1;
        assert Now() == Feed(st, m[i]);
      }
      assert m[..|m|] == m;
    }

    method Finish() returns (tag: bytes)
      requires Valid() && used < 16
      modifies h
      ensures tag == Tag(TagWords(FinalLimbs(LastBlock(old(Now())))), pad)
    {
      ghost var st := Now();
      if used > 0 {
        Block(Padded(buf[..used]), 0);
        assert st.buf[..st.used] == buf[..used];
      }
      assert h[..] == LastBlock(st);
      var o := FinalLimbs(h[..]);
      tag := Tag(TagWords(o), pad);
    }
  }

  /** poly1305_init, _update and _finish on a whole message. */
  method Authenticate(key: bytes, m: bytes) returns (tag: bytes)
    requires |key| == 32 && (m == [] || |m| % 16 != 0)
    ensures tag == MacTag(key, m)
  {
    hide InitState, FeedAll, LastBlock, FinalLimbs, TagWords, Tag;
    AccumulatorMeaning(key, m);
    var mac := new Mac(key);
    mac.Update(m);
    tag := mac.Finish();
  }
}
