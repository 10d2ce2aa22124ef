/** Two updates of one shard, one after the other: when the pool keeps them apart, and what it
    hands out when it does not. */
module Mixing {
  import opened Words
  import opened TopK
  import opened Sparse
  import opened Frame
  import opened FragmentPool
  import opened Completion
  import opened Reassembly
  import opened Transmission

  /** Two updates that are cut into as many fragments. */
  predicate Alike(first: seq<Entry>, second: seq<Entry>) {
    IsUpdate(first) && IsUpdate(second) && FragmentCount(|first|) == FragmentCount(|second|)
  }

  // ----- the mixture

  /** An index of the mixture is one of the update it is taken from. */
  lemma BlendIndex(first: seq<Entry>, second: seq<Entry>, got: set<nat>, k: nat)
    requires Alike(first, second)
    requires k < if FragmentCount(|first|) - 1 in got then |first| else |second|
    ensures if k / PER_FRAGMENT in got then k < |first| else k < |second|
  {
    CountCovers(|first|);
    CountCovers(|second|);
  }

  /** The fragments in `got` from the first update and the others from the second. */
  function Blend(first: seq<Entry>, second: seq<Entry>, got: set<nat>): seq<Entry>
    requires Alike(first, second)
  {
    var len := if FragmentCount(|first|) - 1 in got then |first| else |second|;
    seq(len, k requires 0 <= k < len =>
      BlendIndex(first, second, got, k);
      if k / PER_FRAGMENT in got then first[k] else second[k])
  }

  lemma BlendCount(first: seq<Entry>, second: seq<Entry>, got: set<nat>)
    requires Alike(first, second)
    ensures IsUpdate(Blend(first, second, got)) && FragmentCount(|Blend(first, second, got)|) == FragmentCount(|first|)
  {
  }

  lemma ChunkAt(entries: seq<Entry>, i: nat, k: nat)
    requires k < |Chunk(entries, i)|
    ensures var j := i * PER_FRAGMENT + k;
            j < |entries| && j / PER_FRAGMENT == i && Chunk(entries, i)[k] == entries[j]
  {
  }

  lemma ChunkSize(first: seq<Entry>, second: seq<Entry>, got: set<nat>, i: nat)
    requires Alike(first, second) && i < FragmentCount(|first|)
    ensures |Chunk(Blend(first, second, got), i)| == |Chunk(if i in got then first else second, i)|
  {
    CountCovers(|first|);
    CountCovers(|second|);
  }

  lemma BlendChunk(first: seq<Entry>, second: seq<Entry>, got: set<nat>, i: nat)
    requires Alike(first, second) && i < FragmentCount(|first|)
    ensures Chunk(Blend(first, second, got), i) == Chunk(if i in got then first else second, i)
  {
    ChunkSize(first, second, got, i);
    var blend, from := Blend(first, second, got), if i in got then first else second;
    hide Chunk, FragmentCount;
    forall k | 0 <= k < |Chunk(from, i)|
      ensures Chunk(blend, i)[k] == Chunk(from, i)[k]
    {
      ChunkAt(from, i, k);
      ChunkAt(blend, i, k);
    }
  }

  /** The same fragments of two updates. */
  lemma {:induction false} PartOfBoth(a: seq<Entry>, b: seq<Entry>, got: set<nat>, n: nat)
    requires forall i: nat :: i in got && i < n ==> Chunk(a, i) == Chunk(b, i)
    ensures Part(a, got, n) == Part(b, got, n)
  {
    hide Chunk;
    if n > 0 {
      PartOfBoth(a, b, got, n - 1);
    }
  }

  lemma {:induction false} PartSplit(entries: seq<Entry>, got: set<nat>, rest: set<nat>, n: nat)
    requires got !! rest
    ensures Part(entries, got + rest, n) == Part(entries, got, n) + Part(entries, rest, n)
  {
    hide Chunk;
    if n > 0 {
      PartSplit(entries, got, rest, n - 1);
    }
  }

  /** An update is its fragments in `got` and the others. */
  lemma WholeSplit(entries: seq<Entry>, got: set<nat>)
    requires IsUpdate(entries) && got <= All(entries)
    ensures var n := FragmentCount(|entries|);
            multiset(entries) == Part(entries, got, n) + Part(entries, All(entries) - got, n)
  {
    FragmentsCover(entries);
    PartWhole(entries, All(entries), FragmentCount(|entries|));
    PartSplit(entries, got, All(entries) - got, FragmentCount(|entries|));
    assert got + (All(entries) - got) == All(entries);
  }

  lemma BlendSplit(first: seq<Entry>, second: seq<Entry>, got: set<nat>)
    requires Alike(first, second) && got <= All(first)
    ensures var n, blend := FragmentCount(|first|), Blend(first, second, got);
            Part(blend, got, n) == Part(first, got, n) &&
            multiset(blend) == Part(first, got, n) + Part(second, All(first) - got, n)
  {
    var n, blend := FragmentCount(|first|), Blend(first, second, got);
    BlendCount(first, second, got);
    forall i: nat | i < n
      ensures Chunk(blend, i) == Chunk(if i in got then first else second, i)
    {
      BlendChunk(first, second, got, i);
    }
    hide Blend, Chunk, FragmentCount;
    PartOfBoth(blend, first, got, n);
    PartOfBoth(blend, second, All(first) - got, n);
    WholeSplit(blend, got);
  }

  lemma Cancel<T>(a: multiset<T>, b: multiset<T>, c: multiset<T>)
    ensures a + c == b + c <==> a == b
  {
    assert a + c - c == a && b + c - c == b;
  }

  lemma FourParts<T>(mixed: multiset<T>, first: multiset<T>, second: multiset<T>, a: multiset<T>, b: multiset<T>,
                     c: multiset<T>, d: multiset<T>)
    requires mixed == a + d && first == a + b && second == c + d
    ensures mixed == second <==> a == c
    ensures mixed == first <==> b == d
  {
    Cancel(a, c, d);
    Cancel(d, b, a);
    assert a + d == d + a && a + b == b + a;
  }

  /** The mixture is one of the two updates exactly when the fragments that tell them apart are
      the same. */
  lemma BlendExactly(first: seq<Entry>, second: seq<Entry>, got: set<nat>)
    requires Alike(first, second) && got <= All(first)
    ensures var n, rest, blend := FragmentCount(|first|), All(first) - got, Blend(first, second, got);
            (multiset(blend) == multiset(second) <==> Part(first, got, n) == Part(second, got, n)) &&
            (multiset(blend) == multiset(first) <==> Part(first, rest, n) == Part(second, rest, n))
  {
    var n, rest := FragmentCount(|first|), All(first) - got;
    BlendSplit(first, second, got);
    WholeSplit(first, got);
    WholeSplit(second, got);
    hide Part, Blend, FragmentCount, Upto;
    FourParts(multiset(Blend(first, second, got)), multiset(first), multiset(second), Part(first, got, n),
              Part(first, rest, n), Part(second, got, n), Part(second, rest, n));
  }

  // ----- the missing fragments of the second update

  /** The fragments below i that are not in `got`, one after the other. */
  function RestLog(shard: u16, round: u8, second: seq<Entry>, got: set<nat>, i: nat, now: int): seq<Event>
    requires IsUpdate(second) && i <= FragmentCount(|second|)
  {
    if i == 0 then []
    else if i - 1 in got then RestLog(shard, round, second, got, i - 1, now)
    else
      RestLog(shard, round, second, got, i - 1, now)
      + [Arrive(FragmentFrame(UPDATE, shard, round, second, i - 1), now)]
  }

  lemma {:induction false} RestDelivers(shard: u16, round: u8, second: seq<Entry>, got: set<nat>, i: nat, now: int)
    requires IsUpdate(second) && i <= FragmentCount(|second|)
    ensures var log := RestLog(shard, round, second, got, i, now); LogOk(log) && Delivers(log, shard, second)
  {
    hide FragmentFrame, FragmentCount, IsFragment, Fits;
    if i > 0 {
      RestDelivers(shard, round, second, got, i - 1, now);
      FragmentFrameFits(UPDATE, shard, round, second, i - 1);
    }
  }

  /** Such a fragment is one of the mixture too. */
  lemma BlendFragment(f: Frame, shard: u16, first: seq<Entry>, second: seq<Entry>, got: set<nat>)
    requires Alike(first, second) && IsFragment(f, shard, second) && f.fragIndex as nat !in got
    ensures IsUpdate(Blend(first, second, got)) && IsFragment(f, shard, Blend(first, second, got))
  {
    BlendCount(first, second, got);
    BlendChunk(first, second, got, f.fragIndex);
    hide Blend, Chunk, FragmentCount;
  }

  lemma GatheringBlend(slots: seq<Slot>, shard: u16, first: seq<Entry>, second: seq<Entry>, got: set<nat>)
    requires PoolOk(slots) && Alike(first, second) && Gathering(slots, shard, first, got)
    ensures IsUpdate(Blend(first, second, got)) && Gathering(slots, shard, Blend(first, second, got), got)
  {
    BlendCount(first, second, got);
    BlendSplit(first, second, got);
    hide PoolOk, Blend, Part, Find;
  }

  /** A fragment that is taken and is not the last one missing. */
  lemma TakesOne(slots: seq<Slot>, timeout: u32, f: Frame, now: int, shard: u16, entries: seq<Entry>, got: set<nat>)
    requires PoolOk(slots) && IsUpdate(entries) && IsFragment(f, shard, entries) && Fits(f)
    requires Gathering(slots, shard, entries, got) && got != {} && got != All(entries)
    ensures var e, more := Arrive(f, now), got + {f.fragIndex as nat};
            if more == All(entries) then
              |OutputOf(slots, e, shard)| == 1 && multiset(OutputOf(slots, e, shard)[0]) == multiset(entries)
            else Gathering(Step(slots, timeout, e), shard, entries, more) && OutputOf(slots, e, shard) == []
  {
    OwnFragment(slots, f, now, shard, entries, got);
    HearCases(got, f.fragIndex, entries);
    hide PoolOk, Gathering, Handled, HandedOut, Answer, FragmentCount, Hear, Finishes, Fits, All;
  }

  /** What the fragments of the second update below i do to a slot that holds `got`. */
  ghost predicate RestHeld(slots: seq<Slot>, timeout: u32, log: seq<Event>, shard: u16, entries: seq<Entry>,
                           got: set<nat>, i: nat)
    requires PoolOk(slots) && LogOk(log) && IsUpdate(entries)
  {
    Gathering(Run(slots, timeout, log), shard, entries, got + Upto(i)) && Outputs(slots, timeout, log, shard) == []
  }

  lemma RestNone(slots: seq<Slot>, timeout: u32, shard: u16, entries: seq<Entry>, got: set<nat>)
    requires PoolOk(slots) && IsUpdate(entries) && Gathering(slots, shard, entries, got)
    ensures LogOk([]) && RestHeld(slots, timeout, [], shard, entries, got, 0)
  {
    assert got + Upto(0) == got;
    hide PoolOk, Gathering;
  }

  lemma RestNext(slots: seq<Slot>, timeout: u32, log: seq<Event>, f: Frame, now: int, shard: u16, entries: seq<Entry>,
                 got: set<nat>, i: nat)
    requires PoolOk(slots) && LogOk(log) && IsUpdate(entries) && RestHeld(slots, timeout, log, shard, entries, got, i)
    requires IsFragment(f, shard, entries) && f.fragIndex == i && Fits(f) && got != {} && got + Upto(i) != All(entries)
    ensures var e := Arrive(f, now);
            LogOk(log + [e]) &&
            if got + Upto(i + 1) == All(entries) then
              var o := Outputs(slots, timeout, log + [e], shard); |o| == 1 && multiset(o[0]) == multiset(entries)
            else RestHeld(slots, timeout, log + [e], shard, entries, got, i + 1)
  {
    var before := Run(slots, timeout, log);
    assert got + Upto(i) != {} && got + Upto(i) + {i} == got + Upto(i + 1);
    hide PoolOk, Gathering, IsFragment, Step, OutputOf, Run, Outputs, Fits, All, Upto, LogOk;
    TakesOne(before, timeout, f, now, shard, entries, got + Upto(i));
    OneEvent(f, now);
    RunOn(slots, timeout, log, Arrive(f, now), shard);
  }

  lemma OneEvent(f: Frame, now: int)
    requires Fits(f)
    ensures EventOk(Arrive(f, now))
  {
  }

  lemma StillMissing(entries: seq<Entry>, got: set<nat>, i: nat, m: nat)
    requires IsUpdate(entries) && i <= m < FragmentCount(|entries|) && m !in got
    ensures got + Upto(i) != All(entries)
  {
    assert m in All(entries);
  }

  lemma RestStep(slots: seq<Slot>, timeout: u32, shard: u16, round: u8, first: seq<Entry>, second: seq<Entry>,
                 got: set<nat>, i: nat, now: int)
    requires PoolOk(slots) && Alike(first, second) && i < FragmentCount(|second|) && i !in got && got != {}
    requires IsUpdate(Blend(first, second, got))
    requires var log := RestLog(shard, round, second, got, i, now);
             LogOk(log) && RestHeld(slots, timeout, log, shard, Blend(first, second, got), got, i)
    requires got + Upto(i) != All(Blend(first, second, got))
    ensures var log, blend := RestLog(shard, round, second, got, i + 1, now), Blend(first, second, got);
            LogOk(log) &&
            if got + Upto(i + 1) == All(blend) then
              var o := Outputs(slots, timeout, log, shard); |o| == 1 && multiset(o[0]) == multiset(blend)
            else RestHeld(slots, timeout, log, shard, blend, got, i + 1)
  {
    FragmentFrameFits(UPDATE, shard, round, second, i);
    var f, log := FragmentFrame(UPDATE, shard, round, second, i), RestLog(shard, round, second, got, i, now);
    hide PoolOk, RestHeld, Blend, FragmentFrame, IsFragment, Fits, All, Upto, LogOk, Outputs;
    BlendFragment(f, shard, first, second, got);
    RestNext(slots, timeout, log, f, now, shard, Blend(first, second, got), got, i);
  }

  /** What the missing fragments below i lead to. */
  ghost predicate Rested(slots: seq<Slot>, timeout: u32, shard: u16, round: u8, first: seq<Entry>, second: seq<Entry>,
                         got: set<nat>, i: nat, now: int)
    requires PoolOk(slots) && Alike(first, second) && i <= FragmentCount(|second|)
  {
    && IsUpdate(Blend(first, second, got)) && LogOk(RestLog(shard, round, second, got, i, now))
    && RestHeld(slots, timeout, RestLog(shard, round, second, got, i, now), shard, Blend(first, second, got), got, i)
  }

  lemma RestedNone(slots: seq<Slot>, timeout: u32, shard: u16, round: u8, first: seq<Entry>, second: seq<Entry>,
                   got: set<nat>, now: int)
    requires PoolOk(slots) && Alike(first, second) && Gathering(slots, shard, first, got)
    ensures Rested(slots, timeout, shard, round, first, second, got, 0, now)
  {
    hide PoolOk, Gathering, Blend, FragmentCount, RestHeld;
    GatheringBlend(slots, shard, first, second, got);
    RestNone(slots, timeout, shard, Blend(first, second, got), got);
  }

  lemma RestedSkip(slots: seq<Slot>, timeout: u32, shard: u16, round: u8, first: seq<Entry>, second: seq<Entry>,
                   got: set<nat>, i: nat, now: int)
    requires PoolOk(slots) && Alike(first, second) && i < FragmentCount(|second|) && i in got
    requires Rested(slots, timeout, shard, round, first, second, got, i, now)
    ensures Rested(slots, timeout, shard, round, first, second, got, i + 1, now)
  {
    hide PoolOk, Gathering, Blend, FragmentCount, RestHeld, LogOk;
    RestSkip(slots, timeout, RestLog(shard, round, second, got, i, now), shard, Blend(first, second, got), got, i);
  }

  lemma RestedNext(slots: seq<Slot>, timeout: u32, shard: u16, round: u8, first: seq<Entry>, second: seq<Entry>,
                   got: set<nat>, i: nat, m: nat, now: int)
    requires PoolOk(slots) && Alike(first, second) && i < m < FragmentCount(|second|) && i !in got && m !in got
    requires Rested(slots, timeout, shard, round, first, second, got, i, now) && got != {}
    ensures Rested(slots, timeout, shard, round, first, second, got, i + 1, now)
  {
    BlendCount(first, second, got);
    hide PoolOk, Gathering, Blend, FragmentCount, RestHeld, LogOk, RestLog, Outputs, All;
    StillMissing(Blend(first, second, got), got, i, m);
    StillMissing(Blend(first, second, got), got, i + 1, m);
    RestStep(slots, timeout, shard, round, first, second, got, i, now);
  }

  lemma {:induction false} RestGathers(slots: seq<Slot>, timeout: u32, shard: u16, round: u8, first: seq<Entry>,
                                       second: seq<Entry>, got: set<nat>, i: nat, m: nat, now: int)
    requires PoolOk(slots) && Alike(first, second) && Gathering(slots, shard, first, got) && got != {}
    requires i <= m < FragmentCount(|second|) && m !in got
    ensures Rested(slots, timeout, shard, round, first, second, got, i, now)
    decreases i
  {
    hide PoolOk, Gathering, FragmentCount, Rested;
    if i == 0 {
      RestedNone(slots, timeout, shard, round, first, second, got, now);
    } else {
      RestGathers(slots, timeout, shard, round, first, second, got, i - 1, m, now);
      if i - 1 in got {
        RestedSkip(slots, timeout, shard, round, first, second, got, i - 1, now);
      } else {
        RestedNext(slots, timeout, shard, round, first, second, got, i - 1, m, now);
      }
    }
  }

  /** The last missing fragment. */
  lemma RestCompletes(slots: seq<Slot>, timeout: u32, shard: u16, round: u8, first: seq<Entry>, second: seq<Entry>,
                      got: set<nat>, m: nat, now: int)
    requires PoolOk(slots) && Alike(first, second) && m < FragmentCount(|second|) && m !in got
    requires Rested(slots, timeout, shard, round, first, second, got, m, now) && got != {} && got <= All(first)
    requires forall j: nat :: m < j < FragmentCount(|second|) ==> j in got
    ensures LogOk(RestLog(shard, round, second, got, m + 1, now))
    ensures var o := Outputs(slots, timeout, RestLog(shard, round, second, got, m + 1, now), shard);
            |o| == 1 && multiset(o[0]) == multiset(Blend(first, second, got))
  {
    BlendCount(first, second, got);
    assert All(Blend(first, second, got)) == All(first);
    hide PoolOk, Gathering, Blend, FragmentCount, RestHeld, LogOk, RestLog, Outputs, All;
    StillMissing(Blend(first, second, got), got, m, m);
    AllThere(Blend(first, second, got), got, m);
    RestStep(slots, timeout, shard, round, first, second, got, m, now);
  }

  lemma RestSkip(slots: seq<Slot>, timeout: u32, log: seq<Event>, shard: u16, entries: seq<Entry>, got: set<nat>,
                 i: nat)
    requires PoolOk(slots) && LogOk(log) && IsUpdate(entries) && RestHeld(slots, timeout, log, shard, entries, got, i)
    requires i in got
    ensures RestHeld(slots, timeout, log, shard, entries, got, i + 1)
  {
    assert got + Upto(i) == got + Upto(i + 1);
    hide PoolOk, Gathering, LogOk, Run, Outputs;
  }

  lemma {:induction false} LastMissing(got: set<nat>, n: nat) returns (m: nat)
    requires exists j: nat :: j < n && j !in got
    ensures m < n && m !in got && forall j: nat :: m < j < n ==> j in got
    decreases n
  {
    if n - 1 !in got {
      m := n - 1;
    } else {
      m := LastMissing(got, n - 1);
    }
  }

  lemma OneMissing(slots: seq<Slot>, shard: u16, first: seq<Entry>, got: set<nat>) returns (m: nat)
    requires PoolOk(slots) && IsUpdate(first) && Gathering(slots, shard, first, got) && got != All(first)
    ensures got <= All(first) && m < FragmentCount(|first|) && m !in got
    ensures forall j: nat :: m < j < FragmentCount(|first|) ==> j in got
  {
    assert got <= All(first) && exists j: nat :: j < FragmentCount(|first|) && j !in got;
    m := LastMissing(got, FragmentCount(|first|));
  }

  lemma AllThere(entries: seq<Entry>, got: set<nat>, m: nat)
    requires IsUpdate(entries) && got <= All(entries) && m < FragmentCount(|entries|)
    requires forall j: nat :: m < j < FragmentCount(|entries|) ==> j in got
    ensures got + Upto(m + 1) == All(entries)
  {
    forall j | j in All(entries)
      ensures j in got + Upto(m + 1)
    {
    }
  }

  // ----- what is handed out

  /** A slot that still holds a part of the first update, and the fragments of the second that
      it lacks: what is handed out is the mixture of the two. */
  lemma UpdatesMix(slots: seq<Slot>, timeout: u32, shard: u16, round: u8, first: seq<Entry>, second: seq<Entry>,
                   got: set<nat>, now: int) returns (b: seq<Event>)
    requires PoolOk(slots) && Alike(first, second) && Gathering(slots, shard, first, got)
    requires got != {} && got != All(first)
    ensures LogOk(b) && Delivers(b, shard, second)
    ensures var o := Outputs(slots, timeout, b, shard);
            |o| == 1 && multiset(o[0]) == multiset(Blend(first, second, got))
  {
    hide PoolOk, Gathering, Blend, FragmentCount, LogOk, Rested, Outputs, Delivers, RestLog, All, IsUpdate;
    var m := OneMissing(slots, shard, first, got);
    RestGathers(slots, timeout, shard, round, first, second, got, m, m, now);
    RestCompletes(slots, timeout, shard, round, first, second, got, m, now);
    RestDelivers(shard, round, second, got, m + 1, now);
    b := RestLog(shard, round, second, got, m + 1, now);
  }

  // ----- exactly when the second update is kept apart

  /** One event, when the slot holds fragments of the update and the shard sends no others. */
  lemma StepCopies(slots: seq<Slot>, timeout: u32, e: Event, shard: u16, entries: seq<Entry>, got: set<nat>)
    returns (more: set<nat>)
    requires PoolOk(slots) && IsUpdate(entries) && EventOk(e) && Gathering(slots, shard, entries, got)
    requires got != All(entries) && (IsFrom(e, shard) ==> IsFragment(e.f, shard, entries))
    ensures Gathering(Step(slots, timeout, e), shard, entries, more) && more != All(entries)
    ensures Copies(OutputOf(slots, e, shard), entries)
  {
    if IsFrom(e, shard) {
      more := OwnCopies(slots, timeout, e, shard, entries, got);
    } else {
      more := OtherCopies(slots, timeout, e, shard, entries, got);
    }
  }

  lemma OwnRejected(slots: seq<Slot>, timeout: u32, e: Event, shard: u16)
    requires PoolOk(slots) && EventOk(e) && IsFrom(e, shard) && InBounds(slots, e.f) && Answer(slots, e.f) == -1
    ensures Step(slots, timeout, e) == slots && OutputOf(slots, e, shard) == []
  {
    hide PoolOk, Answer, HandedOut, InBounds, Fits;
    Rejected(slots, e.f, e.now);
  }

  lemma OwnTaken(slots: seq<Slot>, timeout: u32, e: Event, shard: u16, entries: seq<Entry>, got: set<nat>)
    returns (more: set<nat>)
    requires PoolOk(slots) && IsUpdate(entries) && EventOk(e) && Gathering(slots, shard, entries, got)
    requires got != All(entries) && IsFrom(e, shard) && IsFragment(e.f, shard, entries)
    requires InBounds(slots, e.f) && (e.f.fragIndex == 0 ==> Answer(slots, e.f) != -1)
    ensures Gathering(Step(slots, timeout, e), shard, entries, more) && more != All(entries)
    ensures Copies(OutputOf(slots, e, shard), entries)
  {
    hide PoolOk, Gathering, Handled, HandedOut, Answer, FragmentCount, IsFragment, Hear, Finishes, Fits, All, InBounds;
    RoomWhenTaken(slots, e.f, shard, entries, got);
    OwnFragment(slots, e.f, e.now, shard, entries, got);
    more := Hear(got, Arrival(e.f.fragIndex), FragmentCount(|entries|));
  }

  lemma OwnCopies(slots: seq<Slot>, timeout: u32, e: Event, shard: u16, entries: seq<Entry>, got: set<nat>)
    returns (more: set<nat>)
    requires PoolOk(slots) && IsUpdate(entries) && EventOk(e) && Gathering(slots, shard, entries, got)
    requires got != All(entries) && IsFrom(e, shard) && IsFragment(e.f, shard, entries)
    ensures Gathering(Step(slots, timeout, e), shard, entries, more) && more != All(entries)
    ensures Copies(OutputOf(slots, e, shard), entries)
  {
    FitsInBounds(slots, e.f);
    hide PoolOk, Gathering, Step, OutputOf, Answer, IsFragment, All, InBounds;
    if e.f.fragIndex == 0 && Answer(slots, e.f) == -1 {
      OwnRejected(slots, timeout, e, shard);
      more := got;
    } else {
      more := OwnTaken(slots, timeout, e, shard, entries, got);
    }
  }

  lemma OtherCopies(slots: seq<Slot>, timeout: u32, e: Event, shard: u16, entries: seq<Entry>, got: set<nat>)
    returns (more: set<nat>)
    requires PoolOk(slots) && IsUpdate(entries) && EventOk(e) && Gathering(slots, shard, entries, got)
    requires got != All(entries) && !IsFrom(e, shard)
    ensures Gathering(Step(slots, timeout, e), shard, entries, more) && more != All(entries)
    ensures OutputOf(slots, e, shard) == []
  {
    FragmentsCover(entries);
    assert All(entries) != {};
    hide Gathering, PoolOk, FragmentCount, Handled, Swept, OwnOverdue, Upto, All;
    match e {
      case Arrive(_, _) =>
        QuietSame(slots, timeout, e, shard);
        SameGathering(slots, Step(slots, timeout, e), shard, entries, got);
        more := got;
      case Expire(now) =>
        SweepKeeps(slots, timeout, now);
        SweepsOwn(slots, timeout, now, shard, entries, got);
        more := if OwnOverdue(slots, timeout, now, shard) then {} else got;
    }
  }

  lemma {:induction false} RunCopies(slots: seq<Slot>, timeout: u32, log: seq<Event>, shard: u16, entries: seq<Entry>,
                                     got: set<nat>) returns (more: set<nat>)
    requires PoolOk(slots) && IsUpdate(entries) && Gathering(slots, shard, entries, got) && got != All(entries)
    requires LogOk(log) && Delivers(log, shard, entries)
    ensures Gathering(Run(slots, timeout, log), shard, entries, more) && more != All(entries)
    ensures Copies(Outputs(slots, timeout, log, shard), entries)
    decreases |log|
  {
    hide Gathering, PoolOk, EventOk, IsFragment, Step, OutputOf, All;
    if log == [] {
      more := got;
    } else {
      var front, e := log[..|log| - 1], log[|log| - 1];
      var before := RunCopies(slots, timeout, front, shard, entries, got);
      more := StepCopies(Run(slots, timeout, front), timeout, e, shard, entries, before);
    }
  }

  lemma SameParts(slots: seq<Slot>, shard: u16, first: seq<Entry>, second: seq<Entry>, got: set<nat>)
    requires PoolOk(slots) && Alike(first, second) && Gathering(slots, shard, first, got)
    requires Part(first, got, FragmentCount(|first|)) == Part(second, got, FragmentCount(|second|))
    ensures Gathering(slots, shard, second, got)
  {
    hide PoolOk, Find, Part;
  }

  /** Whatever the shard sends of the second update, and whatever else happens, everything that
      is handed out is the second update, if and only if the fragments that the slot still holds
      of the first are those of the second; an empty slot holds none. */
  lemma KeptApartExactly(slots: seq<Slot>, timeout: u32, shard: u16, first: seq<Entry>, second: seq<Entry>,
                         got: set<nat>)
    requires PoolOk(slots) && Alike(first, second) && Gathering(slots, shard, first, got) && got != All(first)
    ensures (forall b | LogOk(b) && Delivers(b, shard, second) ::
               Copies(Outputs(slots, timeout, b, shard), second)) <==>
            Part(first, got, FragmentCount(|first|)) == Part(second, got, FragmentCount(|first|))
  {
    assert got <= All(first);
    hide PoolOk, Gathering, Part, Delivers, LogOk, Outputs, Blend, FragmentCount;
    if Part(first, got, FragmentCount(|first|)) == Part(second, got, FragmentCount(|first|)) {
      SameParts(slots, shard, first, second, got);
      forall b | LogOk(b) && Delivers(b, shard, second)
        ensures Copies(Outputs(slots, timeout, b, shard), second)
      {
        var more := RunCopies(slots, timeout, b, shard, second, got);
      }
    } else {
      if got == {} {
        PartNone(first, FragmentCount(|first|));
        PartNone(second, FragmentCount(|first|));
      }
      var b := UpdatesMix(slots, timeout, shard, 0, first, second, got, 0);
      BlendExactly(first, second, got);
      assert !Copies(Outputs(slots, timeout, b, shard), second);
    }
  }

  /** After any delivery of the first update. */
  lemma ApartAfter(slots: seq<Slot>, timeout: u32, a: seq<Event>, shard: u16, first: seq<Entry>, second: seq<Entry>)
    requires PoolOk(slots) && Alike(first, second) && Gathering(slots, shard, first, {})
    requires LogOk(a) && Delivers(a, shard, first)
    ensures var n, between := FragmentCount(|first|), Run(slots, timeout, a);
            var got := Held(Signals(slots, timeout, a, shard), n);
            (forall b | LogOk(b) && Delivers(b, shard, second) ::
               Copies(Outputs(between, timeout, b, shard), second)) <==>
            Part(first, got, n) == Part(second, got, n)
  {
    Reassembled(slots, timeout, a, shard, first);
    hide PoolOk, Gathering, Part, Delivers, LogOk, Outputs, FragmentCount, Held, Signals, Run;
    KeptApartExactly(Run(slots, timeout, a), timeout, shard, first, second,
                     Held(Signals(slots, timeout, a, shard), FragmentCount(|first|)));
  }
}
