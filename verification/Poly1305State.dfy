/** The buffered Poly1305 state under poly1305_update.

    `FeedAll` is the state after feeding a message byte by byte; `Hash` is the
    polynomial of section 2.5 of RFC 7539. */
module Poly1305State {
  import opened Words
  import opened LittleEndian
  import opened Modular
  import opened Poly1305Limbs

  datatype State = State(r: Limbs, h: Limbs, pad: seq<u32>, buf: bytes, used: nat)
  {
    predicate Ok() {
      Clamped(r) && Accumulator(h) && |pad| == 4 && |buf| == 16 && used <= 16
    }
  }

  // ----- the polynomial

  /** How many bytes of an n-byte message are still buffered: a full block is held back. */
  function Pending(n: nat): (k: nat)
    ensures k <= n && k <= 16 && (n > 0 ==> k > 0)
    ensures (n - k) % 16 == 0
  {
    if n == 0 then 0 else (n - 1) % 16 + 1
  }

  /** Horner evaluation over the 16-byte blocks, each with a one bit above it. */
  function Hash(m: bytes, r: nat): (v: nat)
    ensures v < P
    decreases |m|
  {
    if m == [] then 0
    else
      var k := |m| - Pending(|m|);
      ((Hash(m[..k], r) + LE(m[k..] + [1])) * r) % P
  }

  // ----- feeding bytes

  function Flushed(st: State): (t: State)
    requires st.Ok()
    ensures t.Ok() && t.used < 16
  {
    if st.used == 16 then st.(h := BlockLimbs(st.h, st.r, st.buf, 1), used := 0) else st
  }

  /** One turn of the loop of poly1305_update. */
  function Feed(st: State, b: u8): (t: State)
    requires st.Ok()
    ensures t.Ok() && t.r == st.r && t.pad == st.pad
  {
    var f := Flushed(st);
    f.(buf := f.buf[f.used := b], used := f.used + 1)
  }

  function FeedAll(st: State, m: bytes): (t: State)
    requires st.Ok()
    ensures t.Ok()
    decreases |m|
  {
    if m == [] then st else FeedAll(Feed(st, m[0]), m[1..])
  }

  /** Feeding a message in two pieces, and hence in any pieces, gives the same state. */
  lemma {:induction false} FeedPieces(st: State, a: bytes, b: bytes)
    requires st.Ok()
    ensures FeedAll(st, a + b) == FeedAll(FeedAll(st, a), b)
    decreases |a|
  {
    if a == [] {
      assert a + b == b;
    } else {
      FeedPieces(Feed(st, a[0]), a[1..], b);
      assert (a + b)[0] == a[0] && (a + b)[1..] == a[1..] + b;
    }
  }

  function Joined(pieces: seq<bytes>): bytes {
    if pieces == [] then [] else pieces[0] + Joined(pieces[1..])
  }

  function FeedPiecewise(st: State, pieces: seq<bytes>): (t: State)
    requires st.Ok()
    ensures t.Ok()
    decreases |pieces|
  {
    if pieces == [] then st else FeedPiecewise(FeedAll(st, pieces[0]), pieces[1..])
  }

  lemma {:induction false} AnyChunking(st: State, pieces: seq<bytes>)
    requires st.Ok()
    ensures FeedPiecewise(st, pieces) == FeedAll(st, Joined(pieces))
    decreases |pieces|
  {
    if pieces == [] {
    } else {
      AnyChunking(FeedAll(st, pieces[0]), pieces[1..]);
      FeedPieces(st, pieces[0], Joined(pieces[1..]));
    }
  }

  // ----- what the state means

  /** st is what feeding m to a fresh state must give. */
  ghost predicate Holds(st: State, m: bytes)
  {
    && st.Ok()
    && st.used == Pending(|m|)
    && st.buf[..st.used] == m[|m| - st.used..]
    && Val(st.h) % P == Hash(m[..|m| - st.used], Val(st.r))
  }

  lemma FullBlockValue(c: bytes)
    requires |c| == 16
    ensures LE(c + [1]) == BlockValue(c, 1)
  {
    LEAppend(c, [1]);
    assert LE([1]) == 1 + 256 * LE([]);
    Pow256Of16();
  }

  lemma Pow256Of16()
    ensures Pow256(16) == 0x100000000000000000000000000000000
  {
    Pow256Sum(8, 8);
    assert Pow256(8) == 256 * 256 * 256 * 256 * 256 * 256 * 256 * 256;
  }

  lemma Congruent(h: nat, hash: nat, b: nat, r: nat)
    requires h % P == hash
    ensures ((h + b) * r) % P == ((hash + b) * r) % P
  {
    ModSmall(hash, P);
    ModAdd(h, hash, b, b, P);
    ModMul(h + b, hash + b, r, r, P);
  }

  lemma HashUnfold(m: bytes, r: nat)
    requires m != []
    ensures var k := |m| - Pending(|m|); Hash(m, r) == ((Hash(m[..k], r) + LE(m[k..] + [1])) * r) % P
  {
    hide LE;
  }

  lemma FlushHolds(st: State, m: bytes)
    requires Holds(st, m)
    ensures st.used == 16 ==> Val(Flushed(st).h) % P == Hash(m, Val(st.r))
  {
    hide Val, BlockLimbs, LE, Hash, Clamped, Accumulator, BlockValue;
    if st.used == 16 {
      var k := |m| - 16;
      assert m[k..] == st.buf[..16] == st.buf;
      HashUnfold(m, Val(st.r));
      BlockMeaning(st.h, st.r, st.buf, 1);
      FullBlockValue(st.buf);
      Congruent(Val(st.h), Hash(m[..k], Val(st.r)), BlockValue(st.buf, 1), Val(st.r));
    }
  }

  lemma FeedHolds(st: State, m: bytes, b: u8)
    requires Holds(st, m)
    ensures Holds(Feed(st, b), m + [b])
  {
    hide Val, BlockLimbs, Clamped, Accumulator;
    var f, t, n := Flushed(st), Feed(st, b), m + [b];
    FlushHolds(st, m);
    PendingNext(|m|);
    assert t.buf[..t.used] == f.buf[..f.used] + [b];
    if st.used == 16 {
      assert n[..|n| - t.used] == m;
      assert n[|n| - t.used..] == [b];
    } else {
      assert n[..|n| - t.used] == m[..|m| - st.used];
      assert n[|n| - t.used..] == m[|m| - st.used..] + [b];
    }
  }

  lemma PendingNext(n: nat)
    ensures Pending(n + 1) == if Pending(n) == 16 then 1 else Pending(n) + 1
  {
  }

  /** After feeding m, the limbs are the hash of all but the bytes held back, which
      are in the buffer. */
  lemma {:induction false} FeedMeaning(st: State, m: bytes)
    requires st.Ok() && st.used == 0 && Val(st.h) == 0
    ensures Holds(FeedAll(st, m), m)
    ensures FeedAll(st, m).r == st.r && FeedAll(st, m).pad == st.pad
    decreases |m|
  {
    hide Val, BlockLimbs, Clamped, Accumulator, Feed;
    if m == [] {
    } else {
      hide Holds, State.Ok, Hash;
      var front, last := m[..|m| - 1], m[|m| - 1];
      FeedMeaning(st, front);
      FeedPieces(st, front, [last]);
      assert m == front + [last];
      assert FeedAll(FeedAll(st, front), [last]) == Feed(FeedAll(st, front), last);
      FeedHolds(FeedAll(st, front), front, last);
    }
  }

  /** A whole block is held back exactly after a non-empty message of whole blocks:
      these are the messages for which poly1305_finish would write its padding byte
      at index 16 of a 16-byte buffer. */
  lemma HeldBlock(st: State, m: bytes)
    requires st.Ok() && st.used == 0 && Val(st.h) == 0
    ensures FeedAll(st, m).used == 16 <==> m != [] && |m| % 16 == 0
  {
    hide Val, BlockLimbs, Clamped, Accumulator, Feed, Hash, FeedAll;
    FeedMeaning(st, m);
  }
}
