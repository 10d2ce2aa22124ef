/** The Herald's reassembly pool: sixty-four slots that gather the fragments of updates.

    `Pool` and the functions on it say what each operation does; class FragmentPool holds
    the slots in an array and updates them in place. */
module FragmentPool {
  import opened Words
  import opened Counters
  import opened TopK
  import opened Sparse
  import opened Frame

  const POOL_SIZE := 64
  const MAX_FRAGMENTS := 32
  /** Bits in the five-byte bitmap of a slot. */
  const BITMAP_BITS := 40

  datatype SlotState = Empty | Active | Complete

  /** One slot; the bits of the bitmap are listed one by one. */
  datatype Slot = Slot(state: SlotState, shardId: u16, roundId: u8, total: u8, received: u8,
                       bitmap: seq<bool>, entries: seq<Entry>, lastFragAt: int)

  datatype Pool = Pool(slots: seq<Slot>, timeout: u32, totalComplete: u32, totalDropped: u32)

  function NoBits(): (b: seq<bool>)
    ensures |b| == BITMAP_BITS && forall i :: 0 <= i < |b| ==> !b[i]
  {
    seq(BITMAP_BITS, _ => false)
  }

  /** A slot of zero bytes. */
  function Blank(): Slot {
    Slot(Empty, 0, 0, 0, 0, NoBits(), [], 0)
  }

  function Count(bits: seq<bool>): (n: nat)
    ensures n <= |bits|
  {
    if bits == [] then 0 else Count(bits[..|bits| - 1]) + (if bits[|bits| - 1] then 1 else 0)
  }

  // ----- invariants

  predicate SlotOk(s: Slot) {
    && |s.bitmap| == BITMAP_BITS
    && s.received == Count(s.bitmap)
    && |s.entries| <= MAX_ENTRIES
    && (s.state == Empty ==> s == Blank())
    && (s.state == Active ==> 1 <= s.received < s.total <= MAX_FRAGMENTS)
    && (s.state == Complete ==> 1 <= s.received && s.total <= s.received)
  }

  /** What every operation keeps: each slot counts its bits, an active slot still waits for
      a fragment, and no shard has two active slots. */
  predicate PoolOk(slots: seq<Slot>) {
    && |slots| == POOL_SIZE
    && (forall i :: 0 <= i < |slots| ==> SlotOk(slots[i]))
    && (forall i, j :: 0 <= i < j < |slots| && slots[i].state == Active && slots[j].state == Active ==>
          slots[i].shardId != slots[j].shardId)
  }

  // ----- searching

  predicate Is(s: Slot, state: SlotState, id: u16) {
    s.state == state && s.shardId == id
  }

  /** The first slot in the state that belongs to the shard, or |slots|. */
  function Find(slots: seq<Slot>, state: SlotState, id: u16): (i: nat)
    ensures i <= |slots|
    ensures i < |slots| ==> Is(slots[i], state, id)
    ensures forall j :: 0 <= j < i ==> !Is(slots[j], state, id)
  {
    if slots == [] || Is(slots[0], state, id) then 0
    else
      var k := Find(slots[1..], state, id);
      assert forall j :: 1 <= j <= k ==> slots[j] == slots[1..][j - 1];
      k + 1
  }

  function FirstEmpty(slots: seq<Slot>): (i: nat)
    ensures i <= |slots|
    ensures i < |slots| ==> slots[i].state == Empty
    ensures forall j :: 0 <= j < i ==> slots[j].state != Empty
  {
    if slots == [] || slots[0].state == Empty then 0
    else
      var k := FirstEmpty(slots[1..]);
      assert forall j :: 1 <= j <= k ==> slots[j] == slots[1..][j - 1];
      k + 1
  }

  // ----- what the operations do

  function Opened(f: Frame): Slot {
    Blank().(state := Active, shardId := f.shardId, roundId := f.roundId, total := f.fragTotal)
  }

  /** The slot that takes the fragment, or |slots| when it is rejected: too many fragments,
      the first one missed, or the pool full. */
  function Place(slots: seq<Slot>, f: Frame): (i: nat)
    ensures i <= |slots|
  {
    if f.fragTotal > MAX_FRAGMENTS then |slots|
    else
      var i := Find(slots, Active, f.shardId);
      if i < |slots| then i else if f.fragIndex != 0 then |slots| else FirstEmpty(slots)
  }

  /** The bitmap has room for the index of a fragment that reaches a slot, which the source
      does not check. */
  predicate InBounds(slots: seq<Slot>, f: Frame) {
    Place(slots, f) < |slots| ==> f.fragIndex < BITMAP_BITS
  }

  /** Enough for every pool. */
  predicate Fits(f: Frame) {
    f.fragTotal <= MAX_FRAGMENTS ==> f.fragIndex < BITMAP_BITS
  }

  lemma FitsInBounds(slots: seq<Slot>, f: Frame)
    requires Fits(f)
    ensures InBounds(slots, f)
  {
  }

  /** The slot before its bitmap is looked at. */
  function Before(slots: seq<Slot>, f: Frame): (s: Slot)
    requires PoolOk(slots) && Place(slots, f) < |slots|
    ensures |s.bitmap| == BITMAP_BITS && s.received == Count(s.bitmap) && |s.entries| <= MAX_ENTRIES
    ensures s.state == Active && s.shardId == f.shardId && s.total <= MAX_FRAGMENTS
  {
    var s := slots[Place(slots, f)];
    if s.state == Active then s else
      CountNone(NoBits());
      Opened(f)
  }

  /** A slot after a fragment: a fragment it already has changes nothing. */
  function Taken(s: Slot, f: Frame, now: int): Slot
    requires |s.bitmap| == BITMAP_BITS && f.fragIndex < BITMAP_BITS
    requires s.received < 0xFF && |s.entries| <= MAX_ENTRIES
  {
    if s.bitmap[f.fragIndex] then s
    else
      var t := s.(bitmap := s.bitmap[f.fragIndex as int := true], received := s.received as int + 1, lastFragAt := now,
                  entries := Appended(s.entries, f.payload));
      if t.received >= t.total then t.(state := Complete) else t
  }

  /** Whether this fragment completes its update. */
  predicate Completes(slots: seq<Slot>, f: Frame)
    requires PoolOk(slots) && InBounds(slots, f)
  {
    Place(slots, f) < |slots| &&
    var s := Before(slots, f); !s.bitmap[f.fragIndex] && s.received as int + 1 >= s.total as int
  }

  function Ingested(slots: seq<Slot>, f: Frame, now: int): (after: seq<Slot>)
    requires PoolOk(slots) && InBounds(slots, f)
    ensures |after| == |slots|
  {
    var i := Place(slots, f);
    if i == |slots| then slots else slots[i := Taken(Before(slots, f), f, now)]
  }

  function Answer(slots: seq<Slot>, f: Frame): int
    requires PoolOk(slots) && InBounds(slots, f)
  {
    if Place(slots, f) == |slots| then -1 else if Completes(slots, f) then 1 else 0
  }

  /** Every slot that carries the shard's number is cleared, whatever its state. */
  function Released(slots: seq<Slot>, id: u16): (after: seq<Slot>)
    ensures |after| == |slots|
  {
    seq(|slots|, i requires 0 <= i < |slots| => if slots[i].shardId == id then Blank() else slots[i])
  }

  predicate Overdue(s: Slot, timeout: u32, now: int) {
    s.state == Active && now - s.lastFragAt > timeout
  }

  function Swept(slots: seq<Slot>, timeout: u32, now: int): (after: seq<Slot>)
    ensures |after| == |slots|
  {
    seq(|slots|, i requires 0 <= i < |slots| => if Overdue(slots[i], timeout, now) then Blank() else slots[i])
  }

  /** When a slot is kept and when it is cleared, in terms of the clock. */
  lemma SweptExactly(slots: seq<Slot>, timeout: u32, now: int, i: nat)
    requires i < |slots|
    ensures now <= slots[i].lastFragAt + timeout ==> Swept(slots, timeout, now)[i] == slots[i]
    ensures slots[i].state != Active ==> Swept(slots, timeout, now)[i] == slots[i]
    ensures slots[i].state == Active && now > slots[i].lastFragAt + timeout ==> Swept(slots, timeout, now)[i] == Blank()
  {
  }

  function OverdueCount(slots: seq<Slot>, timeout: u32, now: int): (n: nat)
    ensures n <= |slots|
  {
    if slots == [] then 0
    else OverdueCount(slots[..|slots| - 1], timeout, now) + (if Overdue(slots[|slots| - 1], timeout, now) then 1 else 0)
  }

  lemma OverdueNone(timeout: u32, now: int)
    ensures OverdueCount([], timeout, now) == 0
  {
  }

  lemma SweptNext(slots: seq<Slot>, i: nat, timeout: u32, now: int)
    requires i < |slots|
    ensures Overdue(slots[i], timeout, now) <==> slots[i].state == Active && now - slots[i].lastFragAt > timeout
    ensures Swept(slots, timeout, now)[i] == if Overdue(slots[i], timeout, now) then Blank() else slots[i]
  {
  }

  lemma OverdueNext(slots: seq<Slot>, i: nat, timeout: u32, now: int)
    requires i < |slots|
    ensures OverdueCount(slots[..i + 1], timeout, now) ==
            OverdueCount(slots[..i], timeout, now) + One(Overdue(slots[i], timeout, now))
  {
    assert slots[..i + 1][..i] == slots[..i];
  }

  // ----- the invariant is kept

  lemma {:induction false} CountNone(bits: seq<bool>)
    requires forall i :: 0 <= i < |bits| ==> !bits[i]
    ensures Count(bits) == 0
    decreases |bits|
  {
    if bits != [] {
      CountNone(bits[..|bits| - 1]);
    }
  }

  /** Setting a clear bit adds one. */
  lemma {:induction false} CountSet(bits: seq<bool>, i: nat)
    requires i < |bits| && !bits[i]
    ensures Count(bits[i := true]) == Count(bits) + 1
    decreases |bits|
  {
    var n := |bits| - 1;
    if i == n {
      assert bits[i := true][..n] == bits[..n];
    } else {
      CountSet(bits[..n], i);
      assert bits[i := true][..n] == bits[..n][i := true];
    }
  }

  lemma TakenOk(slots: seq<Slot>, f: Frame, now: int)
    requires PoolOk(slots) && InBounds(slots, f) && Place(slots, f) < |slots|
    ensures var s := Before(slots, f); var t := Taken(s, f, now);
            SlotOk(t) && t.state != Empty && t.shardId == f.shardId && (t.state == Complete <==> Completes(slots, f))
  {
    var s := Before(slots, f);
    if !s.bitmap[f.fragIndex] {
      CountSet(s.bitmap, f.fragIndex);
    }
  }

  lemma IngestCases(slots: seq<Slot>, f: Frame, now: int)
    requires PoolOk(slots) && InBounds(slots, f)
    ensures Place(slots, f) == |slots| ==> Ingested(slots, f, now) == slots && Answer(slots, f) == -1
    ensures Place(slots, f) < |slots| ==>
              var s := Before(slots, f);
              f.fragIndex < BITMAP_BITS && s.received < 0xFF &&
              Ingested(slots, f, now) == slots[Place(slots, f) := Taken(s, f, now)] &&
              Answer(slots, f) == if !s.bitmap[f.fragIndex] && s.received as int + 1 >= s.total as int then 1 else 0
  {
    hide PoolOk, SlotOk, Place, Before;
  }

  lemma IngestKeeps(slots: seq<Slot>, f: Frame, now: int)
    requires PoolOk(slots) && InBounds(slots, f)
    ensures PoolOk(Ingested(slots, f, now))
  {
    var i := Place(slots, f);
    if i < |slots| {
      TakenOk(slots, f, now);
      hide SlotOk, Taken;
      var after := Ingested(slots, f, now);
      assert forall j :: 0 <= j < |slots| && j != i ==> after[j] == slots[j];
      forall j | 0 <= j < |slots| && j != i && slots[j].state == Active
        ensures slots[j].shardId != f.shardId
      {
        var k := Find(slots, Active, f.shardId);
      }
    }
  }

  lemma ReleaseKeeps(slots: seq<Slot>, id: u16)
    requires PoolOk(slots)
    ensures PoolOk(Released(slots, id))
  {
    CountNone(NoBits());
  }

  lemma SweepKeeps(slots: seq<Slot>, timeout: u32, now: int)
    requires PoolOk(slots)
    ensures PoolOk(Swept(slots, timeout, now))
  {
    CountNone(NoBits());
  }

  // ----- duplicates

  /** The slot already has this fragment. */
  predicate Duplicate(slots: seq<Slot>, f: Frame)
    requires PoolOk(slots) && InBounds(slots, f)
  {
    Place(slots, f) < |slots| && Before(slots, f).bitmap[f.fragIndex]
  }

  /** The answer fl_fragment_pool.h describes, which counts a duplicate as an error. */
  function DocumentedAnswer(slots: seq<Slot>, f: Frame): int
    requires PoolOk(slots) && InBounds(slots, f)
  {
    if Place(slots, f) == |slots| || Duplicate(slots, f) then -1 else if Completes(slots, f) then 1 else 0
  }

  /** A duplicate changes nothing and is answered 0: the answer is the documented one exactly
      for fragments that are not duplicates. */
  lemma DuplicateAnswer(slots: seq<Slot>, f: Frame, now: int)
    requires PoolOk(slots) && InBounds(slots, f)
    ensures Duplicate(slots, f) ==> Answer(slots, f) == 0 && Ingested(slots, f, now) == slots
    ensures Answer(slots, f) == DocumentedAnswer(slots, f) <==> !Duplicate(slots, f)
  {
    hide SlotOk, Count;
  }

  /** The first of two fragments, received twice by a fresh pool. */
  lemma DuplicateDeparts(f: Frame, now: int)
    requires f.fragIndex == 0 && f.fragTotal == 2
    ensures var slots := seq(POOL_SIZE, _ => Blank());
            PoolOk(slots) && InBounds(slots, f) &&
            var after := Ingested(slots, f, now);
            Answer(slots, f) == 0 && PoolOk(after) && InBounds(after, f) &&
            Answer(after, f) == 0 && DocumentedAnswer(after, f) == -1
  {
    var slots := seq(POOL_SIZE, _ => Blank());
    CountNone(NoBits());
    var i := Place(slots, f);
    assert FirstEmpty(slots) == 0 && Find(slots, Active, f.shardId) == |slots|;
    IngestKeeps(slots, f, now);
    OpenedHolds(slots, f, now);
    hide PoolOk, SlotOk, Count;
    DuplicateAnswer(Ingested(slots, f, now), f, now);
  }

  lemma OpenedHolds(slots: seq<Slot>, f: Frame, now: int)
    requires PoolOk(slots) && f.fragIndex == 0 && f.fragTotal == 2
    requires Find(slots, Active, f.shardId) == |slots| && FirstEmpty(slots) < |slots|
    ensures InBounds(slots, f) && Answer(slots, f) == 0
    ensures var after := Ingested(slots, f, now);
            PoolOk(after) ==> InBounds(after, f) && Duplicate(after, f)
  {
    CountNone(NoBits());
    var after := Ingested(slots, f, now);
    var i := FirstEmpty(slots);
    assert Is(after[i], Active, f.shardId);
    assert forall j :: 0 <= j < |slots| && j != i ==> after[j] == slots[j] && !Is(slots[j], Active, f.shardId);
    assert Find(after, Active, f.shardId) == i;
    hide SlotOk;
  }

  // ----- counting slots

  function Tally(slots: seq<Slot>, state: SlotState): (n: nat)
    ensures n <= |slots|
  {
    if slots == [] then 0
    else Tally(slots[..|slots| - 1], state) + (if slots[|slots| - 1].state == state then 1 else 0)
  }

  lemma {:induction false} TallySet(slots: seq<Slot>, i: nat, s: Slot, state: SlotState)
    requires i < |slots|
    ensures Tally(slots[i := s], state) ==
              Tally(slots, state) - (if slots[i].state == state then 1 else 0) + (if s.state == state then 1 else 0)
    decreases |slots|
  {
    var n := |slots| - 1;
    if i == n {
      assert slots[i := s][..n] == slots[..n];
    } else {
      TallySet(slots[..n], i, s, state);
      assert slots[i := s][..n] == slots[..n][i := s];
    }
  }

  /** Whether this fragment opens a slot. */
  predicate Opens(slots: seq<Slot>, f: Frame) {
    Place(slots, f) < |slots| && slots[Place(slots, f)].state == Empty
  }

  /** A fragment opens or completes at most one slot; the active slots count accordingly. */
  lemma IngestTally(slots: seq<Slot>, f: Frame, now: int)
    requires PoolOk(slots) && InBounds(slots, f)
    ensures var after := Ingested(slots, f, now);
            Tally(after, Active) == Tally(slots, Active) + One(Opens(slots, f)) - One(Completes(slots, f)) &&
            Tally(after, Complete) == Tally(slots, Complete) + One(Completes(slots, f))
  {
    var i := Place(slots, f);
    if i < |slots| {
      var t := Taken(Before(slots, f), f, now);
      TakenOk(slots, f, now);
      TallySet(slots, i, t, Active);
      TallySet(slots, i, t, Complete);
    }
  }

  /** Expiry removes exactly the overdue slots. */
  lemma {:induction false} SweepTally(slots: seq<Slot>, timeout: u32, now: int)
    ensures Tally(Swept(slots, timeout, now), Active) == Tally(slots, Active) - OverdueCount(slots, timeout, now)
    ensures Tally(Swept(slots, timeout, now), Complete) == Tally(slots, Complete)
    decreases |slots|
  {
    if slots != [] {
      var front := slots[..|slots| - 1];
      SweepTally(front, timeout, now);
      assert Swept(slots, timeout, now)[..|slots| - 1] == Swept(front, timeout, now);
    }
  }

  // ----- the code

  class FragmentPool {
    const slots: array<Slot>
    const timeout: u32
    var totalComplete: u32
    var totalDropped: u32

    ghost predicate Valid()
      reads this, slots
    {
      slots.Length == POOL_SIZE && PoolOk(slots[..])
    }

    ghost function Value(): Pool
      reads this, slots
    {
      Pool(slots[..], timeout, totalComplete, totalDropped)
    }

    constructor (timeout: u32)
      ensures Valid() && fresh(slots)
      ensures Value() == Pool(seq(POOL_SIZE, _ => Blank()), timeout, 0, 0)
    {
      slots := new Slot[POOL_SIZE](_ => Blank());
      this.timeout := timeout;
      totalComplete, totalDropped := 0, 0;
      new;
      assert slots[..] == seq(POOL_SIZE, _ => Blank());
      CountNone(NoBits());
    }

    method FindSlot(state: SlotState, id: u16) returns (i: nat)
      ensures i == Find(slots[..], state, id)
    {
      i := 0;
      while i < slots.Length
        invariant i <= slots.Length
        invariant forall j :: 0 <= j < i ==> !Is(slots[j], state, id)
      {
        if slots[i].state == state && slots[i].shardId == id {
          return;
        }
        i := i + 1;
      }
    }

    method AllocSlot() returns (i: nat)
      ensures i == FirstEmpty(slots[..])
    {
      i := 0;
      while i < slots.Length
        invariant i <= slots.Length
        invariant forall j :: 0 <= j < i ==> slots[j].state != Empty
      {
        if slots[i].state == Empty {
          return;
        }
        i := i + 1;
      }
    }

    /** The slot for a fragment: the shard's active one, or a fresh one for its first fragment. */
    method SlotFor(f: Frame) returns (i: nat)
      requires Valid()
      modifies slots
      ensures i == Place(old(slots[..]), f)
      ensures slots[..] == if i < POOL_SIZE then old(slots[..])[i := Before(old(slots[..]), f)] else old(slots[..])
    {
      hide PoolOk, SlotOk, Count, NoBits;
      if f.fragTotal > MAX_FRAGMENTS {
        return slots.Length;
      }
      i := FindSlot(Active, f.shardId);
      if i == slots.Length {
        if f.fragIndex != 0 {
          return slots.Length;
        }
        i := AllocSlot();
        if i == slots.Length {
          return;
        }
        slots[i] := Blank();
        slots[i] := slots[i].(state := Active, shardId := f.shardId, roundId := f.roundId, total := f.fragTotal);
      }
    }

    /** fl_pool_ingest. */
    method Ingest(f: Frame, now: int) returns (r: int)
      requires Valid() && InBounds(slots[..], f)
      modifies this, slots
      ensures Valid()
      ensures slots[..] == Ingested(old(slots[..]), f, now)
      ensures r == Answer(old(slots[..]), f)
      ensures totalComplete == (if r == 1 then Next(old(totalComplete)) else old(totalComplete)) &&
              totalDropped == old(totalDropped)
    {
      ghost var was := slots[..];
      IngestKeeps(was, f, now);
      IngestCases(was, f, now);
      hide PoolOk, SlotOk, Count, NoBits, Next, InBounds, Place, Before, Appended, Ingested, Answer;
      var i := SlotFor(f);
      if i == slots.Length {
        return -1;
      }
      if slots[i].bitmap[f.fragIndex] {
        return 0;
      }
      var entries, read := ReadFragment(f.payload, slots[i].entries);
      slots[i] := slots[i].(bitmap := slots[i].bitmap[f.fragIndex as int := true],
                            received := slots[i].received as int + 1, lastFragAt := now, entries := entries);
      if slots[i].received >= slots[i].total {
        slots[i] := slots[i].(state := Complete);
        totalComplete := Next(totalComplete);
        assert slots[..] == Ingested(was, f, now);
        return 1;
      }
      assert slots[..] == Ingested(was, f, now);
      return 0;
    }

    /** fl_pool_get_complete. */
    method GetComplete(id: u16) returns (found: bool, entries: seq<Entry>)
      ensures var i := Find(slots[..], Complete, id);
              found == (i < slots.Length) && (found ==> entries == slots[i].entries)
    {
      var i := FindSlot(Complete, id);
      if i < slots.Length {
        return true, slots[i].entries;
      }
      return false, [];
    }

    method Release(id: u16)
      requires Valid()
      modifies slots
      ensures Valid()
      ensures slots[..] == Released(old(slots[..]), id)
    {
      ReleaseKeeps(slots[..], id);
      for i := 0 to slots.Length
        invariant forall j :: 0 <= j < i ==> slots[j] == Released(old(slots[..]), id)[j]
        invariant forall j :: i <= j < slots.Length ==> slots[j] == old(slots[j])
      {
        if slots[i].shardId == id {
          slots[i] := Blank();
        }
      }
      assert slots[..] == Released(old(slots[..]), id);
    }

    /** fl_pool_expire. */
    method Expire(now: int) returns (expired: nat)
      requires Valid()
      modifies this, slots
      ensures Valid()
      ensures slots[..] == Swept(old(slots[..]), timeout, now)
      ensures expired == OverdueCount(old(slots[..]), timeout, now)
      ensures totalDropped == Plus(old(totalDropped), expired) && totalComplete == old(totalComplete)
    {
      ghost var was := slots[..];
      SweepKeeps(was, timeout, now);
      hide PoolOk, SlotOk, Blank, Plus, Next, OverdueCount, Swept, Overdue;
      PlusNothing(totalDropped);
      assert was[..0] == [];
      OverdueNone(timeout, now);
      ghost var after := Swept(was, timeout, now);
      expired := 0;
      for i := 0 to slots.Length
        invariant forall j :: 0 <= j < i ==> slots[j] == after[j]
        invariant forall j :: i <= j < slots.Length ==> slots[j] == was[j]
        invariant expired == OverdueCount(was[..i], timeout, now)
        invariant totalDropped == Plus(old(totalDropped), expired)
        invariant totalComplete == old(totalComplete)
      {
        SweptNext(was, i, timeout, now);
        OverdueNext(was, i, timeout, now);
        if slots[i].state == Active && now - slots[i].lastFragAt > timeout {
          PlusPlus(old(totalDropped), expired, 1);
          NextIsPlus(totalDropped);
          totalDropped := Next(totalDropped);
          slots[i] := Blank();
          expired := expired + 1;
        }
      }
      assert was[..slots.Length] == was;
      assert slots[..] == after;
    }

    method CompleteCount() returns (n: u8)
      requires Valid()
      ensures n == Tally(slots[..], Complete)
    {
      n := 0;
      for i := 0 to slots.Length
        invariant n == Tally(slots[..i], Complete)
      {
        assert slots[..i + 1][..i] == slots[..i];
        if slots[i].state == Complete {
          n := n as int + 1;
        }
      }
      assert slots[..slots.Length] == slots[..];
    }
  }
}
