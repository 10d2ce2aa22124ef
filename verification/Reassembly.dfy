/** Reassembly: fragments of an update, delivered in any order, any number of times and among
    those of other shards, give back the update, once for every time they are complete. */
module Reassembly {
  import opened Words
  import opened TopK
  import opened Sparse
  import opened Frame
  import opened FragmentPool
  import opened Completion

  // ----- the pool in the hands of the Herald

  /** A slot is released as soon as it is complete. */
  function Handled(slots: seq<Slot>, f: Frame, now: int): (after: seq<Slot>)
    requires PoolOk(slots) && InBounds(slots, f)
    ensures |after| == |slots|
  {
    if Answer(slots, f) == 1 then Released(Ingested(slots, f, now), f.shardId) else Ingested(slots, f, now)
  }

  lemma HandledKeeps(slots: seq<Slot>, f: Frame, now: int)
    requires PoolOk(slots) && InBounds(slots, f)
    ensures PoolOk(Handled(slots, f, now))
  {
    IngestKeeps(slots, f, now);
    ReleaseKeeps(Ingested(slots, f, now), f.shardId);
    hide PoolOk, Ingested, Released, Answer;
  }

  lemma AnswerFinds(slots: seq<Slot>, f: Frame, now: int)
    requires PoolOk(slots) && InBounds(slots, f) && Answer(slots, f) == 1
    ensures Find(Ingested(slots, f, now), Complete, f.shardId) < |slots|
  {
    TakenOk(slots, f, now);
    assert Is(Ingested(slots, f, now)[Place(slots, f)], Complete, f.shardId);
  }

  /** The buffer that is handed out before the release. */
  function HandedOut(slots: seq<Slot>, f: Frame, now: int): seq<Entry>
    requires PoolOk(slots) && InBounds(slots, f) && Answer(slots, f) == 1
  {
    AnswerFinds(slots, f, now);
    var taken := Ingested(slots, f, now);
    taken[Find(taken, Complete, f.shardId)].entries
  }

  /** What happens to the pool. */
  datatype Event = Arrive(f: Frame, now: int) | Expire(now: int)

  predicate EventOk(e: Event) {
    e.Arrive? ==> Fits(e.f)
  }

  function Step(slots: seq<Slot>, timeout: u32, e: Event): (after: seq<Slot>)
    requires PoolOk(slots) && EventOk(e)
    ensures PoolOk(after)
  {
    match e
    case Arrive(f, now) => HandledKeeps(slots, f, now); Handled(slots, f, now)
    case Expire(now) => SweepKeeps(slots, timeout, now); Swept(slots, timeout, now)
  }

  predicate LogOk(log: seq<Event>) {
    forall k :: 0 <= k < |log| ==> EventOk(log[k])
  }

  function Run(slots: seq<Slot>, timeout: u32, log: seq<Event>): (after: seq<Slot>)
    requires PoolOk(slots) && LogOk(log)
    ensures PoolOk(after)
    decreases |log|
  {
    if log == [] then slots else Step(Run(slots, timeout, log[..|log| - 1]), timeout, log[|log| - 1])
  }

  predicate IsFrom(e: Event, shard: u16) {
    e.Arrive? && e.f.shardId == shard
  }

  function OutputOf(slots: seq<Slot>, e: Event, shard: u16): (o: seq<seq<Entry>>)
    requires PoolOk(slots) && EventOk(e)
    ensures |o| <= 1
  {
    if IsFrom(e, shard) && Answer(slots, e.f) == 1 then [HandedOut(slots, e.f, e.now)] else []
  }

  /** The buffers handed out for a shard, in order. */
  function Outputs(slots: seq<Slot>, timeout: u32, log: seq<Event>, shard: u16): seq<seq<Entry>>
    requires PoolOk(slots) && LogOk(log)
    decreases |log|
  {
    if log == [] then []
    else
      var front := log[..|log| - 1];
      Outputs(slots, timeout, front, shard) + OutputOf(Run(slots, timeout, front), log[|log| - 1], shard)
  }

  // ----- one update

  /** An update that a shard cuts into fragments. */
  predicate IsUpdate(entries: seq<Entry>) {
    0 < |entries| <= MAX_ENTRIES
  }

  function All(entries: seq<Entry>): set<nat>
    requires IsUpdate(entries)
  {
    Upto(FragmentCount(|entries|))
  }

  predicate IsFragment(f: Frame, shard: u16, entries: seq<Entry>)
    requires IsUpdate(entries)
  {
    && f.shardId == shard
    && f.fragTotal == FragmentCount(|entries|) && f.fragIndex < f.fragTotal
    && f.payload == Serialized(Chunk(entries, f.fragIndex))
  }

  /** The entries of the fragments in `got` among the first n. */
  ghost function Part(entries: seq<Entry>, got: set<nat>, n: nat): multiset<Entry> {
    if n == 0 then multiset{}
    else if n - 1 in got then Part(entries, got, n - 1) + multiset(Chunk(entries, n - 1))
    else Part(entries, got, n - 1)
  }

  /** The shard's active slot holds exactly the fragments in `got`; there is none before the first. */
  ghost predicate Gathering(slots: seq<Slot>, shard: u16, entries: seq<Entry>, got: set<nat>)
    requires PoolOk(slots) && IsUpdate(entries)
  {
    && got <= All(entries)
    && Find(slots, Complete, shard) == |slots|
    && var i := Find(slots, Active, shard);
       if got == {} then i == |slots|
       else
         && i < |slots|
         && slots[i].total == FragmentCount(|entries|)
         && (forall b :: 0 <= b < BITMAP_BITS ==> (slots[i].bitmap[b] <==> b in got))
         && multiset(slots[i].entries) == Part(entries, got, FragmentCount(|entries|))
  }

  /** A complete slot holds the whole update. */
  ghost predicate Gathered(slots: seq<Slot>, shard: u16, entries: seq<Entry>) {
    && Find(slots, Active, shard) == |slots|
    && var i := Find(slots, Complete, shard);
       i < |slots| && multiset(slots[i].entries) == multiset(entries)
  }

  // ----- the entries held

  lemma {:induction false} PartSame(entries: seq<Entry>, got: set<nat>, more: set<nat>, n: nat)
    requires forall j: nat :: j < n ==> (j in got <==> j in more)
    ensures Part(entries, got, n) == Part(entries, more, n)
  {
    if n > 0 {
      PartSame(entries, got, more, n - 1);
    }
  }

  lemma {:induction false} PartAdds(entries: seq<Entry>, got: set<nat>, i: nat, n: nat)
    requires i < n && i !in got
    ensures Part(entries, got + {i}, n) == Part(entries, got, n) + multiset(Chunk(entries, i))
  {
    hide *;
    PartStep(entries, got, n);
    PartStep(entries, got + {i}, n);
    if i == n - 1 {
      PartSame(entries, got, got + {i}, n - 1);
    } else {
      PartAdds(entries, got, i, n - 1);
      Exchange(Part(entries, got, n - 1), multiset(Chunk(entries, i)), multiset(Chunk(entries, n - 1)));
    }
  }

  lemma PartStep(entries: seq<Entry>, got: set<nat>, n: nat)
    requires n > 0
    ensures Part(entries, got, n) ==
              if n - 1 in got then Part(entries, got, n - 1) + multiset(Chunk(entries, n - 1))
              else Part(entries, got, n - 1)
  {
  }

  lemma Exchange<T>(a: multiset<T>, b: multiset<T>, c: multiset<T>)
    ensures a + b + c == a + c + b
  {
  }

  lemma {:induction false} PartWhole(entries: seq<Entry>, got: set<nat>, n: nat)
    requires forall j: nat :: j < n ==> j in got
    ensures Part(entries, got, n) == multiset(Chunks(entries, n))
  {
    hide *;
    if n == 0 {
      WholeOfNone(entries, got);
    } else {
      PartWhole(entries, got, n - 1);
      PartStep(entries, got, n);
      ChunksGrow(entries, n);
    }
  }

  lemma {:induction false} PartBound(entries: seq<Entry>, got: set<nat>, n: nat)
    ensures |Part(entries, got, n)| <= |Chunks(entries, n)|
  {
    if n > 0 {
      PartBound(entries, got, n - 1);
      PartGrowth(entries, got, n);
      ChunksLength(entries, n);
    }
  }

  lemma PartGrowth(entries: seq<Entry>, got: set<nat>, n: nat)
    requires n > 0
    ensures |Part(entries, got, n)| <= |Part(entries, got, n - 1)| + |Chunk(entries, n - 1)|
  {
    hide Chunk;
    SizeOf(Chunk(entries, n - 1));
    SizeSum(Part(entries, got, n - 1), multiset(Chunk(entries, n - 1)));
  }

  lemma WholeOfNone(entries: seq<Entry>, got: set<nat>)
    ensures Part(entries, got, 0) == multiset(Chunks(entries, 0))
  {
  }

  lemma ChunksGrow(entries: seq<Entry>, n: nat)
    requires n > 0
    ensures multiset(Chunks(entries, n)) == multiset(Chunks(entries, n - 1)) + multiset(Chunk(entries, n - 1))
  {
    hide Chunk;
  }

  lemma ChunksLength(entries: seq<Entry>, n: nat)
    requires n > 0
    ensures |Chunks(entries, n)| == |Chunks(entries, n - 1)| + |Chunk(entries, n - 1)|
  {
    hide Chunk;
  }

  lemma SizeSum<T>(a: multiset<T>, b: multiset<T>)
    ensures |a + b| == |a| + |b|
  {
  }

  lemma SizeOf<T>(s: seq<T>)
    ensures |multiset(s)| == |s|
  {
  }

  lemma {:induction false} PartNone(entries: seq<Entry>, n: nat)
    ensures Part(entries, {}, n) == multiset{}
  {
    if n > 0 {
      PartNone(entries, n - 1);
    }
  }

  // ----- the bits held

  lemma {:induction false} CountIsSize(bits: seq<bool>, got: set<nat>)
    requires forall b: nat :: b in got <==> b < |bits| && bits[b]
    ensures Count(bits) == |got|
    decreases |bits|
  {
    if bits == [] {
      assert got == {};
    } else {
      var n := |bits| - 1;
      CountIsSize(bits[..n], got - {n});
      if !bits[n] {
        assert got - {n} == got;
      }
    }
  }

  /** All fragments are there when, and only when, there are as many as there should be. */
  lemma FullExactly(entries: seq<Entry>, got: set<nat>)
    requires IsUpdate(entries) && got <= All(entries)
    ensures |got| >= FragmentCount(|entries|) <==> got == All(entries)
  {
    var all := All(entries);
    if forall i :: i in all ==> i in got {
      assert got == all;
    } else {
      var i :| i in all && i !in got;
      SubsetSize(got, all - {i});
    }
  }

  lemma {:induction false} SubsetSize(a: set<nat>, b: set<nat>)
    requires a <= b
    ensures |a| <= |b|
    decreases a
  {
    if a != {} {
      var x :| x in a;
      SubsetSize(a - {x}, b - {x});
    }
  }

  // ----- one fragment of the shard's own

  /** The slot after one more fragment of the update. */
  lemma TakeFragment(s: Slot, f: Frame, now: int, shard: u16, entries: seq<Entry>, got: set<nat>)
    requires IsUpdate(entries) && IsFragment(f, shard, entries) && got < All(entries)
    requires |s.bitmap| == BITMAP_BITS && s.received == Count(s.bitmap) && |s.entries| <= MAX_ENTRIES
    requires s.state == Active && s.total == FragmentCount(|entries|)
    requires forall b :: 0 <= b < BITMAP_BITS ==> (s.bitmap[b] <==> b in got)
    requires multiset(s.entries) == Part(entries, got, FragmentCount(|entries|))
    ensures f.fragIndex < BITMAP_BITS
    ensures var t, more := Taken(s, f, now), got + {f.fragIndex as nat};
            more <= All(entries) && t.total == s.total && |t.bitmap| == BITMAP_BITS && t.shardId == s.shardId &&
            (forall b :: 0 <= b < BITMAP_BITS ==> (t.bitmap[b] <==> b in more)) &&
            multiset(t.entries) == Part(entries, more, FragmentCount(|entries|)) &&
            t.state == (if more == All(entries) then Complete else Active) &&
            (more == All(entries) <==> !s.bitmap[f.fragIndex] && s.received as int + 1 >= s.total as int)
  {
    hide Chunk, Chunks, Serialized, Appended, Part, Count;
    var i: nat, n, more := f.fragIndex, FragmentCount(|entries|), got + {f.fragIndex as nat};
    FragmentsCover(entries);
    CountIsSize(s.bitmap, got);
    FullExactly(entries, more);
    if i in got {
      assert more == got;
    } else {
      PartAdds(entries, got, i, n);
      PartBound(entries, more, n);
      AppendChunk(s.entries, f.payload, entries, i);
      SizeOf(s.entries);
      SizeOf(Chunk(entries, i));
    }
  }

  lemma AppendChunk(buffer: seq<Entry>, payload: bytes, entries: seq<Entry>, i: nat)
    requires payload == Serialized(Chunk(entries, i))
    requires |buffer| + |Chunk(entries, i)| <= MAX_ENTRIES
    ensures Appended(buffer, payload) == buffer + Chunk(entries, i)
  {
    ParseSerialized(Chunk(entries, i));
  }

  /** A slot for the shard's fragments: its own, or an empty one. */
  predicate Room(slots: seq<Slot>, shard: u16) {
    Find(slots, Active, shard) < |slots| || FirstEmpty(slots) < |slots|
  }

  lemma FragmentFits(f: Frame, shard: u16, entries: seq<Entry>)
    requires IsUpdate(entries) && IsFragment(f, shard, entries)
    ensures Fits(f) && f.fragTotal <= MAX_FRAGMENTS
  {
    FragmentsCover(entries);
  }

  /** A shard's slot is where Find looks for it. */
  lemma FoundAt(slots: seq<Slot>, i: nat, s: Slot)
    requires PoolOk(slots) && i < |slots| && s.state != Empty
    requires slots[i].state == Empty || (slots[i].state == Active && slots[i].shardId == s.shardId)
    requires Find(slots, Complete, s.shardId) == |slots|
    requires slots[i].state == Empty ==> Find(slots, Active, s.shardId) == |slots|
    ensures Find(slots[i := s], s.state, s.shardId) == i
    ensures s.state == Active ==> Find(slots[i := s], Complete, s.shardId) == |slots|
    ensures s.state == Complete ==> Find(slots[i := s], Active, s.shardId) == |slots|
  {
    hide SlotOk;
    var after := slots[i := s];
    assert forall j :: 0 <= j < |slots| && j != i ==> after[j] == slots[j];
    assert forall j :: 0 <= j < |slots| ==> !Is(slots[j], Complete, s.shardId);
    assert forall j :: 0 <= j < |slots| && j != i ==> !Is(slots[j], Active, s.shardId);
    var a, b := Find(after, Active, s.shardId), Find(after, Complete, s.shardId);
    assert Is(after[i], s.state, s.shardId);
  }

  /** The slot that is about to take a fragment of the update holds what was heard. */
  lemma SlotBefore(slots: seq<Slot>, f: Frame, shard: u16, entries: seq<Entry>, got: set<nat>)
    requires PoolOk(slots) && IsUpdate(entries) && IsFragment(f, shard, entries) && f.fragTotal <= MAX_FRAGMENTS
    requires Gathering(slots, shard, entries, got) && got != All(entries)
    requires got == {} ==> f.fragIndex == 0 && Room(slots, shard)
    ensures got < All(entries)
    ensures var i := Place(slots, f);
            i < |slots| && Find(slots, Complete, shard) == |slots| &&
            (slots[i].state == Empty || (slots[i].state == Active && slots[i].shardId == shard)) &&
            (slots[i].state == Empty ==> Find(slots, Active, shard) == |slots|)
    ensures var s := Before(slots, f);
            s.total == FragmentCount(|entries|) && s.shardId == shard &&
            (forall b :: 0 <= b < BITMAP_BITS ==> (s.bitmap[b] <==> b in got)) &&
            multiset(s.entries) == Part(entries, got, FragmentCount(|entries|))
  {
    hide SlotOk, Part;
    if got == {} {
      PartNone(entries, FragmentCount(|entries|));
    }
  }

  lemma HeldAt(slots: seq<Slot>, i: nat, shard: u16, entries: seq<Entry>, got: set<nat>)
    requires PoolOk(slots) && IsUpdate(entries) && got <= All(entries) && got != {}
    requires Find(slots, Complete, shard) == |slots| && Find(slots, Active, shard) == i < |slots|
    requires slots[i].total == FragmentCount(|entries|)
    requires forall b :: 0 <= b < BITMAP_BITS ==> (slots[i].bitmap[b] <==> b in got)
    requires multiset(slots[i].entries) == Part(entries, got, FragmentCount(|entries|))
    ensures Gathering(slots, shard, entries, got)
  {
  }

  lemma HeldWhole(slots: seq<Slot>, i: nat, shard: u16, entries: seq<Entry>)
    requires PoolOk(slots) && IsUpdate(entries)
    requires Find(slots, Active, shard) == |slots| && Find(slots, Complete, shard) == i < |slots|
    requires multiset(slots[i].entries) == Part(entries, All(entries), FragmentCount(|entries|))
    ensures Gathered(slots, shard, entries)
  {
    FragmentsCover(entries);
    PartWhole(entries, All(entries), FragmentCount(|entries|));
  }

  lemma FragmentTaken(slots: seq<Slot>, f: Frame, now: int, shard: u16, entries: seq<Entry>, got: set<nat>)
    requires PoolOk(slots) && IsUpdate(entries) && IsFragment(f, shard, entries) && InBounds(slots, f) &&
             f.fragTotal <= MAX_FRAGMENTS
    requires Gathering(slots, shard, entries, got) && got != All(entries)
    requires got == {} ==> f.fragIndex == 0 && Room(slots, shard)
    ensures PoolOk(Ingested(slots, f, now))
    ensures var more, after := got + {f.fragIndex as nat}, Ingested(slots, f, now);
            (more != All(entries) ==> Gathering(after, shard, entries, more)) &&
            (more == All(entries) ==> Gathered(after, shard, entries)) &&
            Answer(slots, f) == if more == All(entries) then 1 else 0
  {
    SlotBefore(slots, f, shard, entries, got);
    IngestKeeps(slots, f, now);
    var i, more := Place(slots, f), got + {f.fragIndex as nat};
    var s := Before(slots, f);
    var t := Taken(s, f, now);
    hide Gathering, Gathered, Before, Part, Count, Taken, Chunk, Chunks, Serialized, SlotOk, IsFragment, All, Upto;
    TakeFragment(s, f, now, shard, entries, got);
    FoundAt(slots, i, t);
    var after := slots[i := t];
    hide PoolOk;
    if more == All(entries) {
      HeldWhole(after, i, shard, entries);
    } else {
      HeldAt(after, i, shard, entries, more);
    }
  }

  lemma ReleasedGathering(slots: seq<Slot>, shard: u16, entries: seq<Entry>)
    requires PoolOk(slots) && PoolOk(Released(slots, shard)) && IsUpdate(entries)
    ensures Gathering(Released(slots, shard), shard, entries, {})
  {
    hide PoolOk, SlotOk;
  }

  lemma HandsOut(slots: seq<Slot>, f: Frame, now: int, shard: u16, entries: seq<Entry>)
    requires PoolOk(slots) && InBounds(slots, f) && f.shardId == shard && Answer(slots, f) == 1
    requires Gathered(Ingested(slots, f, now), shard, entries)
    ensures multiset(HandedOut(slots, f, now)) == multiset(entries)
  {
    AnswerFinds(slots, f, now);
    hide PoolOk, Answer, Ingested, InBounds;
  }

  lemma NotYetHeard(slots: seq<Slot>, f: Frame, now: int, shard: u16, entries: seq<Entry>)
    requires PoolOk(slots) && IsUpdate(entries) && InBounds(slots, f) && f.shardId == shard && f.fragIndex != 0
    requires Gathering(slots, shard, entries, {})
    ensures Answer(slots, f) == -1 && Handled(slots, f, now) == slots
  {
    hide PoolOk;
  }

  /** One fragment of the update: the pool answers 1 exactly when it was the last one missing,
      and hands out the update. */
  lemma OwnFragment(slots: seq<Slot>, f: Frame, now: int, shard: u16, entries: seq<Entry>, got: set<nat>)
    requires PoolOk(slots) && IsUpdate(entries) && IsFragment(f, shard, entries)
    requires Gathering(slots, shard, entries, got) && got != All(entries)
    requires got == {} && f.fragIndex == 0 ==> Room(slots, shard)
    ensures Fits(f) && PoolOk(Handled(slots, f, now))
    ensures var n, s := FragmentCount(|entries|), Arrival(f.fragIndex);
            Gathering(Handled(slots, f, now), shard, entries, Hear(got, s, n)) && Hear(got, s, n) != All(entries) &&
            (Answer(slots, f) == 1 <==> Finishes(got, s, n))
    ensures Answer(slots, f) == -1 <==> got == {} && f.fragIndex != 0
    ensures Answer(slots, f) == 1 ==> multiset(HandedOut(slots, f, now)) == multiset(entries)
  {
    FragmentFits(f, shard, entries);
    HandledKeeps(slots, f, now);
    FitsInBounds(slots, f);
    HearCases(got, f.fragIndex, entries);
    hide PoolOk, Gathering, Gathered, Ingested, Released, FragmentCount, InBounds, HandedOut, Hear, Finishes, Fits, All;
    if got == {} && f.fragIndex != 0 {
      NotYetHeard(slots, f, now, shard, entries);
    } else {
      FragmentTaken(slots, f, now, shard, entries, got);
      hide IsFragment, Answer;
      if got + {f.fragIndex as nat} == All(entries) {
        HandsOut(slots, f, now, shard, entries);
        ReleasedGathering(Ingested(slots, f, now), shard, entries);
      }
    }
  }

  lemma HearCases(got: set<nat>, i: nat, entries: seq<Entry>)
    requires IsUpdate(entries)
    ensures All(entries) != {}
    ensures var n, more, s := FragmentCount(|entries|), got + {i}, Arrival(i);
            if got == {} && i != 0 then Hear(got, s, n) == {} && !Finishes(got, s, n)
            else if more == All(entries) then Hear(got, s, n) == {} && Finishes(got, s, n)
            else Hear(got, s, n) == more && !Finishes(got, s, n)
  {
    FragmentsCover(entries);
    assert 0 in All(entries);
  }

  /** The first fragment finds no slot: nothing changes. */
  lemma Rejected(slots: seq<Slot>, f: Frame, now: int)
    requires PoolOk(slots) && InBounds(slots, f) && Answer(slots, f) == -1
    ensures Handled(slots, f, now) == slots
  {
  }

  // ----- what does not concern the shard

  /** Fragments of other shards, and expiry while the shard's slot is not overdue. */
  predicate Quiet(slots: seq<Slot>, timeout: u32, e: Event, shard: u16) {
    match e
    case Arrive(f, _) => f.shardId != shard
    case Expire(now) => forall i :: 0 <= i < |slots| && Is(slots[i], Active, shard) ==> !Overdue(slots[i], timeout, now)
  }

  /** The shard's slots are the same before and after. */
  predicate SameFor(slots: seq<Slot>, after: seq<Slot>, shard: u16) {
    |after| == |slots| &&
    forall i :: 0 <= i < |slots| ==>
      (slots[i].state != Empty && slots[i].shardId == shard ==> after[i] == slots[i]) &&
      (after[i].state != Empty && after[i].shardId == shard ==> after[i] == slots[i])
  }

  lemma QuietIngest(slots: seq<Slot>, f: Frame, now: int, shard: u16)
    requires PoolOk(slots) && InBounds(slots, f) && f.shardId != shard
    ensures SameFor(slots, Ingested(slots, f, now), shard)
  {
    if Place(slots, f) < |slots| {
      TakenOk(slots, f, now);
    }
  }

  lemma QuietSweep(slots: seq<Slot>, timeout: u32, now: int, shard: u16)
    requires PoolOk(slots) && Quiet(slots, timeout, Expire(now), shard)
    ensures SameFor(slots, Swept(slots, timeout, now), shard)
  {
    hide PoolOk;
  }

  lemma QuietRelease(slots: seq<Slot>, after: seq<Slot>, id: u16, shard: u16)
    requires SameFor(slots, after, shard) && id != shard
    ensures SameFor(slots, Released(after, id), shard)
  {
  }

  /** Other shards' traffic, their completions included, leaves a shard's slots untouched. */
  lemma QuietSame(slots: seq<Slot>, timeout: u32, e: Event, shard: u16)
    requires PoolOk(slots) && EventOk(e) && Quiet(slots, timeout, e, shard)
    ensures SameFor(slots, Step(slots, timeout, e), shard)
  {
    hide PoolOk, Ingested, Answer, SameFor, Released, Swept, Fits;
    match e {
      case Arrive(f, now) =>
        FitsInBounds(slots, f);
        QuietIngest(slots, f, now, shard);
        QuietRelease(slots, Ingested(slots, f, now), f.shardId, shard);
      case Expire(now) =>
        QuietSweep(slots, timeout, now, shard);
    }
  }

  lemma SameGathering(slots: seq<Slot>, after: seq<Slot>, shard: u16, entries: seq<Entry>, got: set<nat>)
    requires PoolOk(slots) && PoolOk(after) && IsUpdate(entries) && SameFor(slots, after, shard)
    requires Gathering(slots, shard, entries, got)
    ensures Gathering(after, shard, entries, got)
  {
    SameFind(slots, after, shard, Active);
    SameFind(slots, after, shard, Complete);
  }

  lemma SameFind(slots: seq<Slot>, after: seq<Slot>, shard: u16, state: SlotState)
    requires SameFor(slots, after, shard) && state != Empty
    ensures Find(slots, state, shard) == Find(after, state, shard)
  {
    var i, j := Find(slots, state, shard), Find(after, state, shard);
  }

  /** The shard's own slot has not heard a new fragment for longer than the timeout. */
  predicate OwnOverdue(slots: seq<Slot>, timeout: u32, now: int, shard: u16) {
    var i := Find(slots, Active, shard);
    i < |slots| && Overdue(slots[i], timeout, now)
  }

  /** Expiry takes the shard's slot only when it is overdue. */
  lemma SweepsOwn(slots: seq<Slot>, timeout: u32, now: int, shard: u16, entries: seq<Entry>, got: set<nat>)
    requires PoolOk(slots) && PoolOk(Swept(slots, timeout, now)) && IsUpdate(entries) &&
             Gathering(slots, shard, entries, got)
    ensures Gathering(Swept(slots, timeout, now), shard, entries,
                      if OwnOverdue(slots, timeout, now, shard) then {} else got)
  {
    var after := Swept(slots, timeout, now);
    hide SlotOk;
    if OwnOverdue(slots, timeout, now, shard) {
      var i := Find(slots, Active, shard);
      assert forall j :: 0 <= j < |slots| && j != i ==> !Is(slots[j], Active, shard);
      assert forall j :: 0 <= j < |slots| ==> !Is(after[j], Active, shard) && !Is(after[j], Complete, shard);
    } else {
      OneActive(slots, timeout, now, shard);
      hide PoolOk;
      QuietSame(slots, timeout, Expire(now), shard);
      SameGathering(slots, after, shard, entries, got);
    }
  }

  lemma OneActive(slots: seq<Slot>, timeout: u32, now: int, shard: u16)
    requires PoolOk(slots) && !OwnOverdue(slots, timeout, now, shard)
    ensures Quiet(slots, timeout, Expire(now), shard)
  {
    hide SlotOk;
  }

  // ----- whole deliveries

  /** What an event means for the shard: a fragment that is taken into account, the loss of its
      slot, or nothing.  A first fragment that finds no slot counts for nothing. */
  function SignalOf(slots: seq<Slot>, timeout: u32, e: Event, shard: u16): (s: seq<Signal>)
    requires PoolOk(slots) && EventOk(e)
    ensures |s| <= 1
  {
    match e
    case Arrive(f, _) =>
      if f.shardId != shard || (f.fragIndex == 0 && Answer(slots, f) == -1) then [] else [Arrival(f.fragIndex)]
    case Expire(now) =>
      if OwnOverdue(slots, timeout, now, shard) then [Loss] else []
  }

  function Signals(slots: seq<Slot>, timeout: u32, log: seq<Event>, shard: u16): seq<Signal>
    requires PoolOk(slots) && LogOk(log)
    decreases |log|
  {
    if log == [] then []
    else
      var front := log[..|log| - 1];
      Signals(slots, timeout, front, shard) + SignalOf(Run(slots, timeout, front), timeout, log[|log| - 1], shard)
  }

  /** Everything from the shard is a fragment of the update. */
  predicate Delivers(log: seq<Event>, shard: u16, entries: seq<Entry>)
    requires IsUpdate(entries)
  {
    forall k :: 0 <= k < |log| && IsFrom(log[k], shard) ==> IsFragment(log[k].f, shard, entries)
  }

  /** Every buffer is the update, in some order. */
  predicate Copies(outputs: seq<seq<Entry>>, entries: seq<Entry>) {
    forall k :: 0 <= k < |outputs| ==> multiset(outputs[k]) == multiset(entries)
  }

  /** What holds after a delivery: the slot holds the fragments since the last completion or
      loss, and the update has been handed out once for every completion. */
  ghost predicate Served(after: seq<Slot>, outputs: seq<seq<Entry>>, signals: seq<Signal>, shard: u16,
                         entries: seq<Entry>)
    requires PoolOk(after) && IsUpdate(entries)
  {
    var n := FragmentCount(|entries|);
    && Held(signals, n) != All(entries) && Below(signals, n)
    && Gathering(after, shard, entries, Held(signals, n))
    && |outputs| == Completions(signals, n) && Copies(outputs, entries)
  }

  lemma ServeOwn(slots: seq<Slot>, timeout: u32, e: Event, outputs: seq<seq<Entry>>, signals: seq<Signal>,
                 shard: u16, entries: seq<Entry>)
    requires PoolOk(slots) && IsUpdate(entries) && EventOk(e) && Served(slots, outputs, signals, shard, entries)
    requires IsFrom(e, shard) && IsFragment(e.f, shard, entries)
    ensures Served(Step(slots, timeout, e), outputs + OutputOf(slots, e, shard),
                   signals + SignalOf(slots, timeout, e, shard), shard, entries)
  {
    hide Served, PoolOk, Answer, HandedOut, Handled, IsFragment, Fits;
    FitsInBounds(slots, e.f);
    HandledKeeps(slots, e.f, e.now);
    if e.f.fragIndex == 0 && Answer(slots, e.f) == -1 {
      Rejected(slots, e.f, e.now);
      assert outputs + [] == outputs && signals + [] == signals;
    } else {
      ServeTaken(slots, e.f, e.now, outputs, signals, shard, entries);
      assert outputs + [] == outputs;
    }
  }

  lemma ServeTaken(slots: seq<Slot>, f: Frame, now: int, outputs: seq<seq<Entry>>, signals: seq<Signal>,
                   shard: u16, entries: seq<Entry>)
    requires PoolOk(slots) && IsUpdate(entries) && InBounds(slots, f) && Served(slots, outputs, signals, shard, entries)
    requires IsFragment(f, shard, entries) && (f.fragIndex == 0 ==> Answer(slots, f) != -1)
    ensures PoolOk(Handled(slots, f, now))
    ensures Served(Handled(slots, f, now), outputs + (if Answer(slots, f) == 1 then [HandedOut(slots, f, now)] else []),
                   signals + [Arrival(f.fragIndex)], shard, entries)
  {
    var n, i := FragmentCount(|entries|), Arrival(f.fragIndex);
    var got, o := Held(signals, n), if Answer(slots, f) == 1 then [HandedOut(slots, f, now)] else [];
    assert f.fragIndex as nat < n;
    hide Gathering, Finishes, Hear, Held, Completions, PoolOk, Handled, HandedOut, Answer, FragmentCount, IsFragment,
         All, Fits, Room, InBounds, IsUpdate;
    RoomWhenTaken(slots, f, shard, entries, got);
    OwnFragment(slots, f, now, shard, entries, got);
    ServeMore(Handled(slots, f, now), outputs, o, signals, i, shard, entries);
  }

  lemma ServeMore(after: seq<Slot>, outputs: seq<seq<Entry>>, o: seq<seq<Entry>>, signals: seq<Signal>, s: Signal,
                  shard: u16, entries: seq<Entry>)
    requires PoolOk(after) && IsUpdate(entries) && s.Arrival? && s.index < FragmentCount(|entries|)
    requires var n := FragmentCount(|entries|);
             |outputs| == Completions(signals, n) && Below(signals, n) &&
             Gathering(after, shard, entries, Hear(Held(signals, n), s, n)) &&
             Hear(Held(signals, n), s, n) != All(entries) &&
             |o| == if Finishes(Held(signals, n), s, n) then 1 else 0
    requires Copies(outputs, entries) && Copies(o, entries)
    ensures Served(after, outputs + o, signals + [s], shard, entries)
  {
    HeldMore(signals, s, FragmentCount(|entries|));
    hide Gathering, Finishes, Hear, Held, Completions, PoolOk, FragmentCount, All;
  }

  lemma RoomWhenTaken(slots: seq<Slot>, f: Frame, shard: u16, entries: seq<Entry>, got: set<nat>)
    requires PoolOk(slots) && InBounds(slots, f) && IsUpdate(entries) && IsFragment(f, shard, entries)
    requires Gathering(slots, shard, entries, got) && (f.fragIndex == 0 ==> Answer(slots, f) != -1)
    ensures got == {} && f.fragIndex == 0 ==> Room(slots, shard)
  {
    hide PoolOk;
  }

  lemma ServeOther(slots: seq<Slot>, timeout: u32, e: Event, outputs: seq<seq<Entry>>, signals: seq<Signal>, shard: u16,
                   entries: seq<Entry>)
    requires PoolOk(slots) && IsUpdate(entries) && EventOk(e) && Served(slots, outputs, signals, shard, entries)
    requires !IsFrom(e, shard)
    ensures Served(Step(slots, timeout, e), outputs + OutputOf(slots, e, shard),
                   signals + SignalOf(slots, timeout, e, shard), shard, entries)
  {
    var got := Held(signals, FragmentCount(|entries|));
    assert outputs + [] == outputs && signals + [] == signals;
    FragmentsCover(entries);
    HeldMore(signals, Loss, FragmentCount(|entries|));
    hide Gathering, PoolOk, Held, Completions, FragmentCount, Handled, Swept, OwnOverdue, Upto;
    match e {
      case Arrive(_, _) =>
        QuietSame(slots, timeout, e, shard);
        SameGathering(slots, Step(slots, timeout, e), shard, entries, got);
      case Expire(now) =>
        SweepKeeps(slots, timeout, now);
        SweepsOwn(slots, timeout, now, shard, entries, got);
    }
  }

  lemma NothingServed(slots: seq<Slot>, shard: u16, entries: seq<Entry>)
    requires PoolOk(slots) && IsUpdate(entries) && Gathering(slots, shard, entries, {})
    ensures Served(slots, [], [], shard, entries)
  {
    FragmentsCover(entries);
  }

  /** Over any log in which the shard sends fragments of one update, whatever else happens to
      the pool: the update is handed out once for every completion, and the slot holds the
      fragments since. */
  lemma {:induction false} Reassembled(slots: seq<Slot>, timeout: u32, log: seq<Event>, shard: u16, entries: seq<Entry>)
    requires PoolOk(slots) && IsUpdate(entries) && Gathering(slots, shard, entries, {})
    requires LogOk(log) && Delivers(log, shard, entries)
    ensures Served(Run(slots, timeout, log), Outputs(slots, timeout, log, shard), Signals(slots, timeout, log, shard),
                   shard, entries)
    decreases |log|
  {
    hide Served, Gathering, PoolOk, EventOk, IsFragment, Step, OutputOf, SignalOf;
    if log == [] {
      NothingServed(slots, shard, entries);
    } else {
      var front, e := log[..|log| - 1], log[|log| - 1];
      Reassembled(slots, timeout, front, shard, entries);
      var before, outputs := Run(slots, timeout, front), Outputs(slots, timeout, front, shard);
      var signals := Signals(slots, timeout, front, shard);
      if IsFrom(e, shard) {
        ServeOwn(before, timeout, e, outputs, signals, shard, entries);
      } else {
        ServeOther(before, timeout, e, outputs, signals, shard, entries);
      }
    }
  }

  /** The pool answers 1 exactly at a fragment that completes the update, and what it then
      hands out decodes to the same dense vector as the update. */
  lemma Reassembly(slots: seq<Slot>, timeout: u32, log: seq<Event>, f: Frame, now: int, shard: u16, entries: seq<Entry>,
                   n: nat)
    requires PoolOk(slots) && IsUpdate(entries) && Gathering(slots, shard, entries, {})
    requires LogOk(log) && Delivers(log, shard, entries) && IsFragment(f, shard, entries)
    ensures Fits(f)
    ensures var before := Run(slots, timeout, log);
            Answer(before, f) == 1 <==>
              SignalOf(before, timeout, Arrive(f, now), shard) != [] &&
              Finishes(Held(Signals(slots, timeout, log, shard), FragmentCount(|entries|)), Arrival(f.fragIndex),
                       FragmentCount(|entries|))
    ensures var before := Run(slots, timeout, log);
            Answer(before, f) == 1 ==> Dense(HandedOut(before, f, now), n) == Dense(entries, n)
  {
    FragmentFits(f, shard, entries);
    Reassembled(slots, timeout, log, shard, entries);
    var before, got := Run(slots, timeout, log), Held(Signals(slots, timeout, log, shard), FragmentCount(|entries|));
    FitsInBounds(before, f);
    hide Gathering, Delivers, Dense, Finishes, Held, HandedOut, Answer, PoolOk, Hear, Completions, InBounds, Fits,
         IsFragment;
    if !(f.fragIndex == 0 && Answer(before, f) == -1) {
      RoomWhenTaken(before, f, shard, entries, got);
      OwnFragment(before, f, now, shard, entries, got);
      if Answer(before, f) == 1 {
        DenseUnordered(HandedOut(before, f, now), entries, n);
      }
    }
  }

  // ----- one update after another

  lemma RunOn(slots: seq<Slot>, timeout: u32, log: seq<Event>, e: Event, shard: u16)
    requires PoolOk(slots) && LogOk(log) && EventOk(e)
    ensures LogOk(log + [e])
    ensures var before := Run(slots, timeout, log);
            Run(slots, timeout, log + [e]) == Step(before, timeout, e) &&
            Outputs(slots, timeout, log + [e], shard) ==
              Outputs(slots, timeout, log, shard) + OutputOf(before, e, shard)
  {
    assert (log + [e])[..|log|] == log;
    hide PoolOk, EventOk, Step, OutputOf;
  }

  lemma {:induction false} RunJoined(slots: seq<Slot>, timeout: u32, a: seq<Event>, b: seq<Event>, shard: u16)
    requires PoolOk(slots) && LogOk(a) && LogOk(b)
    ensures LogOk(a + b)
    ensures var between := Run(slots, timeout, a);
            Run(slots, timeout, a + b) == Run(between, timeout, b) &&
            Outputs(slots, timeout, a + b, shard) ==
              Outputs(slots, timeout, a, shard) + Outputs(between, timeout, b, shard)
    decreases |b|
  {
    hide PoolOk, EventOk, Step, OutputOf;
    if b == [] {
      assert a + b == a;
    } else {
      var front := b[..|b| - 1];
      RunJoined(slots, timeout, a, front, shard);
      assert (a + b)[..|a + b| - 1] == a + front;
    }
  }

  /** A second update after a first one whose fragments are all accounted for: what is handed
      out is copies of the first and then copies of the second. */
  lemma Consecutive(slots: seq<Slot>, timeout: u32, a: seq<Event>, b: seq<Event>, shard: u16, first: seq<Entry>,
                    second: seq<Entry>)
    requires PoolOk(slots) && IsUpdate(first) && IsUpdate(second) && Gathering(slots, shard, first, {})
    requires LogOk(a) && LogOk(b) && Delivers(a, shard, first) && Delivers(b, shard, second)
    requires Held(Signals(slots, timeout, a, shard), FragmentCount(|first|)) == {}
    ensures LogOk(a + b)
    ensures var between := Run(slots, timeout, a);
            var ones := Completions(Signals(slots, timeout, a, shard), FragmentCount(|first|));
            var twos := Completions(Signals(between, timeout, b, shard), FragmentCount(|second|));
            var outputs := Outputs(slots, timeout, a + b, shard);
            |outputs| == ones + twos && Copies(outputs[..ones], first) && Copies(outputs[ones..], second)
  {
    Reassembled(slots, timeout, a, shard, first);
    var between := Run(slots, timeout, a);
    NothingHeld(between, shard, first, second);
    hide Gathering, PoolOk, Completions, Held, LogOk, Delivers, FragmentCount;
    Reassembled(between, timeout, b, shard, second);
    RunJoined(slots, timeout, a, b, shard);
  }

  lemma NothingHeld(slots: seq<Slot>, shard: u16, first: seq<Entry>, second: seq<Entry>)
    requires PoolOk(slots) && IsUpdate(first) && IsUpdate(second) && Gathering(slots, shard, first, {})
    ensures Gathering(slots, shard, second, {})
  {
    hide PoolOk;
  }
}
