/** When the slot of a shard is lost to expiry: exactly when a sweep comes more than the timeout
    after its last new fragment. */
module Timely {
  import opened Words
  import opened TopK
  import opened Sparse
  import opened Frame
  import opened FragmentPool
  import opened Completion
  import opened Reassembly

  /** When the shard's active slot has last taken a new fragment. */
  function LastAt(slots: seq<Slot>, shard: u16): int {
    var i := Find(slots, Active, shard);
    if i < |slots| then slots[i].lastFragAt else 0
  }

  /** Expiry takes the shard's slot exactly when the timeout has passed since. */
  lemma LostExactly(slots: seq<Slot>, timeout: u32, now: int, shard: u16, entries: seq<Entry>, got: set<nat>)
    requires PoolOk(slots) && IsUpdate(entries) && Gathering(slots, shard, entries, got)
    ensures OwnOverdue(slots, timeout, now, shard) <==> got != {} && now > LastAt(slots, shard) + timeout
  {
    hide PoolOk;
  }

  lemma OwnTime(slots: seq<Slot>, f: Frame, now: int, shard: u16, entries: seq<Entry>, got: set<nat>)
    requires PoolOk(slots) && IsUpdate(entries) && IsFragment(f, shard, entries) && InBounds(slots, f)
    requires f.fragTotal <= MAX_FRAGMENTS && Gathering(slots, shard, entries, got) && got != All(entries)
    requires (got == {} ==> f.fragIndex == 0 && Room(slots, shard)) && got + {f.fragIndex as nat} != All(entries)
    ensures LastAt(Handled(slots, f, now), shard) == if f.fragIndex as nat in got then LastAt(slots, shard) else now
  {
    SlotBefore(slots, f, shard, entries, got);
    FragmentTaken(slots, f, now, shard, entries, got);
    var i, s := Place(slots, f), Before(slots, f);
    TakeTime(slots, f, now, shard, entries, got);
    var t := Taken(s, f, now);
    hide Gathering, Gathered, Before, Part, Count, Taken, Chunk, Chunks, Serialized, SlotOk, IsFragment, All, Upto;
    TakeFragment(s, f, now, shard, entries, got);
    FoundAt(slots, i, t);
  }

  lemma TakeTime(slots: seq<Slot>, f: Frame, now: int, shard: u16, entries: seq<Entry>, got: set<nat>)
    requires PoolOk(slots) && IsUpdate(entries) && IsFragment(f, shard, entries) && InBounds(slots, f)
    requires f.fragTotal <= MAX_FRAGMENTS && Gathering(slots, shard, entries, got) && Place(slots, f) < |slots|
    requires var s := Before(slots, f); forall b :: 0 <= b < BITMAP_BITS ==> (s.bitmap[b] <==> b in got)
    ensures var t := Taken(Before(slots, f), f, now);
            t.lastFragAt == if f.fragIndex as nat in got then LastAt(slots, shard) else now
  {
    hide SlotOk, Part, Count, Appended;
  }

  lemma SameTime(slots: seq<Slot>, after: seq<Slot>, shard: u16)
    requires SameFor(slots, after, shard)
    ensures LastAt(after, shard) == LastAt(slots, shard)
  {
    SameFind(slots, after, shard, Active);
    hide Find;
  }

  // ----- over a log

  /** The fragments that are held next. */
  function HeldNext(got: set<nat>, s: seq<Signal>, n: nat): set<nat> {
    if s == [] then got else Hear(got, s[0], n)
  }

  /** The moment of the last new fragment, when the event brings one. */
  function TimeNext(e: Event, shard: u16, s: seq<Signal>, got: set<nat>, at: int): int {
    if IsFrom(e, shard) && s != [] && e.f.fragIndex as nat !in got then e.now else at
  }

  /** The moment of the last new fragment in a log. */
  function NewAt(slots: seq<Slot>, timeout: u32, log: seq<Event>, shard: u16, n: nat): int
    requires PoolOk(slots) && LogOk(log)
    decreases |log|
  {
    if log == [] then 0
    else
      var front, e := log[..|log| - 1], log[|log| - 1];
      TimeNext(e, shard, SignalOf(Run(slots, timeout, front), timeout, e, shard),
               Held(Signals(slots, timeout, front, shard), n), NewAt(slots, timeout, front, shard, n))
  }

  ghost predicate Dated(slots: seq<Slot>, shard: u16, got: set<nat>, at: int) {
    got != {} ==> LastAt(slots, shard) == at
  }

  lemma OwnDated(slots: seq<Slot>, timeout: u32, e: Event, shard: u16, entries: seq<Entry>, got: set<nat>, at: int)
    requires PoolOk(slots) && IsUpdate(entries) && EventOk(e) && Gathering(slots, shard, entries, got)
    requires got != All(entries) && IsFrom(e, shard) && IsFragment(e.f, shard, entries) && Dated(slots, shard, got, at)
    ensures var s := SignalOf(slots, timeout, e, shard);
            Dated(Step(slots, timeout, e), shard, HeldNext(got, s, FragmentCount(|entries|)),
                  TimeNext(e, shard, s, got, at))
  {
    FitsInBounds(slots, e.f);
    HandledKeeps(slots, e.f, e.now);
    FragmentFits(e.f, shard, entries);
    HearCases(got, e.f.fragIndex, entries);
    hide PoolOk, Gathering, Handled, Answer, FragmentCount, IsFragment, Hear, Finishes, Fits, All, InBounds, LastAt;
    if e.f.fragIndex == 0 && Answer(slots, e.f) == -1 {
      Rejected(slots, e.f, e.now);
    } else if (got != {} || e.f.fragIndex == 0) && got + {e.f.fragIndex as nat} != All(entries) {
      RoomWhenTaken(slots, e.f, shard, entries, got);
      OwnTime(slots, e.f, e.now, shard, entries, got);
    }
  }

  lemma OtherDated(slots: seq<Slot>, timeout: u32, e: Event, shard: u16, got: set<nat>, at: int)
    requires PoolOk(slots) && EventOk(e) && !IsFrom(e, shard) && Dated(slots, shard, got, at)
    ensures var s := SignalOf(slots, timeout, e, shard);
            forall n: nat :: Dated(Step(slots, timeout, e), shard, HeldNext(got, s, n), TimeNext(e, shard, s, got, at))
  {
    hide PoolOk, LastAt, Step, OwnOverdue, SameFor;
    match e {
      case Arrive(_, _) =>
        QuietSame(slots, timeout, e, shard);
        SameTime(slots, Step(slots, timeout, e), shard);
      case Expire(now) =>
        if !OwnOverdue(slots, timeout, now, shard) {
          OneActive(slots, timeout, now, shard);
          QuietSame(slots, timeout, e, shard);
          SameTime(slots, Step(slots, timeout, e), shard);
        }
    }
  }

  lemma HeldSignals(signals: seq<Signal>, s: seq<Signal>, n: nat)
    requires |s| <= 1
    ensures Held(signals + s, n) == HeldNext(Held(signals, n), s, n)
  {
    if s == [] {
      assert signals + s == signals;
    } else {
      HeldMore(signals, s[0], n);
      assert [s[0]] == s;
    }
  }

  /** The date of the shard's slot is that of its last new fragment. */
  lemma {:induction false} DatedRun(slots: seq<Slot>, timeout: u32, log: seq<Event>, shard: u16, entries: seq<Entry>)
    requires PoolOk(slots) && IsUpdate(entries) && Gathering(slots, shard, entries, {})
    requires LogOk(log) && Delivers(log, shard, entries)
    ensures var n := FragmentCount(|entries|);
            Dated(Run(slots, timeout, log), shard, Held(Signals(slots, timeout, log, shard), n),
                  NewAt(slots, timeout, log, shard, n))
    decreases |log|
  {
    hide Gathering, PoolOk, EventOk, IsFragment, Step, SignalOf, Dated, Held, FragmentCount, HeldNext, TimeNext, All;
    if log == [] {
      DatedNone(slots, timeout, shard, entries);
    } else {
      var n, front, e := FragmentCount(|entries|), log[..|log| - 1], log[|log| - 1];
      DatedRun(slots, timeout, front, shard, entries);
      Reassembled(slots, timeout, front, shard, entries);
      var before, signals, at := Run(slots, timeout, front), Signals(slots, timeout, front, shard),
        NewAt(slots, timeout, front, shard, n);
      var s := SignalOf(before, timeout, e, shard);
      HeldSignals(signals, s, n);
      if IsFrom(e, shard) {
        OwnDated(before, timeout, e, shard, entries, Held(signals, n), at);
      } else {
        OtherDated(before, timeout, e, shard, Held(signals, n), at);
      }
    }
  }

  lemma DatedNone(slots: seq<Slot>, timeout: u32, shard: u16, entries: seq<Entry>)
    requires PoolOk(slots) && IsUpdate(entries)
    ensures var n := FragmentCount(|entries|);
            Dated(Run(slots, timeout, []), shard, Held(Signals(slots, timeout, [], shard), n),
                  NewAt(slots, timeout, [], shard, n))
  {
  }

  // ----- exactly when nothing is lost

  /** Every sweep while fragments are held comes at most the timeout after the last new one. */
  predicate InTime(slots: seq<Slot>, timeout: u32, log: seq<Event>, shard: u16, n: nat)
    requires PoolOk(slots) && LogOk(log)
    decreases |log|
  {
    log == [] ||
    var front, e := log[..|log| - 1], log[|log| - 1];
    InTime(slots, timeout, front, shard, n) &&
    (e.Expire? && Held(Signals(slots, timeout, front, shard), n) != {} ==>
       e.now <= NewAt(slots, timeout, front, shard, n) + timeout)
  }

  predicate NoLoss(signals: seq<Signal>) {
    forall k :: 0 <= k < |signals| ==> signals[k].Arrival?
  }

  lemma LossIn(slots: seq<Slot>, timeout: u32, e: Event, shard: u16, entries: seq<Entry>, got: set<nat>, at: int)
    requires PoolOk(slots) && IsUpdate(entries) && EventOk(e) && Gathering(slots, shard, entries, got)
    requires Dated(slots, shard, got, at)
    ensures NoLoss(SignalOf(slots, timeout, e, shard)) <==> (e.Expire? && got != {} ==> e.now <= at + timeout)
  {
    hide Gathering, PoolOk, LastAt, OwnOverdue, Answer, Fits;
    if e.Expire? {
      LostExactly(slots, timeout, e.now, shard, entries, got);
      assert OwnOverdue(slots, timeout, e.now, shard) ==> !SignalOf(slots, timeout, e, shard)[0].Arrival?;
    }
  }

  /** The event loses the slot exactly when it is a sweep that comes too late. */
  lemma LossExactly(slots: seq<Slot>, timeout: u32, log: seq<Event>, e: Event, shard: u16, entries: seq<Entry>)
    requires PoolOk(slots) && IsUpdate(entries) && Gathering(slots, shard, entries, {})
    requires LogOk(log) && Delivers(log, shard, entries) && EventOk(e)
    ensures var n := FragmentCount(|entries|);
            NoLoss(SignalOf(Run(slots, timeout, log), timeout, e, shard)) <==>
              (e.Expire? && Held(Signals(slots, timeout, log, shard), n) != {} ==>
                 e.now <= NewAt(slots, timeout, log, shard, n) + timeout)
  {
    DatedRun(slots, timeout, log, shard, entries);
    Reassembled(slots, timeout, log, shard, entries);
    hide Gathering, PoolOk, Held, FragmentCount, NewAt, Signals, Run, All, Delivers, NoLoss, SignalOf, Dated, Outputs;
    LossIn(Run(slots, timeout, log), timeout, e, shard, entries,
           Held(Signals(slots, timeout, log, shard), FragmentCount(|entries|)),
           NewAt(slots, timeout, log, shard, FragmentCount(|entries|)));
  }

  lemma NoLossJoined(a: seq<Signal>, b: seq<Signal>)
    ensures NoLoss(a + b) <==> NoLoss(a) && NoLoss(b)
  {
    if NoLoss(a + b) {
      forall k | 0 <= k < |a|
        ensures a[k].Arrival?
      {
        assert (a + b)[k] == a[k];
      }
      forall k | 0 <= k < |b|
        ensures b[k].Arrival?
      {
        assert (a + b)[|a| + k] == b[k];
      }
    }
  }

  /** Over any log in which the shard sends fragments of one update: nothing gathered is lost if
      and only if no sweep comes more than the timeout after the last new fragment. */
  lemma {:induction false} NothingLostExactly(slots: seq<Slot>, timeout: u32, log: seq<Event>, shard: u16,
                                              entries: seq<Entry>)
    requires PoolOk(slots) && IsUpdate(entries) && Gathering(slots, shard, entries, {})
    requires LogOk(log) && Delivers(log, shard, entries)
    ensures NoLoss(Signals(slots, timeout, log, shard)) <==>
              InTime(slots, timeout, log, shard, FragmentCount(|entries|))
    decreases |log|
  {
    hide Gathering, PoolOk, EventOk, IsFragment, SignalOf, Held, FragmentCount, NewAt, Run, NoLoss;
    if log == [] {
      NoLossNone();
    } else {
      var front := log[..|log| - 1];
      NothingLostExactly(slots, timeout, front, shard, entries);
      LossExactly(slots, timeout, front, log[|log| - 1], shard, entries);
      NoLossJoined(Signals(slots, timeout, front, shard),
                   SignalOf(Run(slots, timeout, front), timeout, log[|log| - 1], shard));
    }
  }

  lemma NoLossNone()
    ensures NoLoss([])
  {
  }

  /** The indices of arrivals. */
  function IndicesOf(signals: seq<Signal>): seq<nat>
    requires NoLoss(signals)
  {
    seq(|signals|, k requires 0 <= k < |signals| => signals[k].index)
  }

  lemma {:induction false} AllSinceLoss(signals: seq<Signal>)
    requires NoLoss(signals)
    ensures SinceLoss(signals) == IndicesOf(signals)
    decreases |signals|
  {
    if signals != [] {
      var front := signals[..|signals| - 1];
      AllSinceLoss(front);
      assert IndicesOf(signals) == IndicesOf(front) + [signals[|signals| - 1].index];
    }
  }

  /** When every sweep is in time, the update is handed out as soon as all fragments have been
      heard, from an index 0 on. */
  lemma FinishedInTime(slots: seq<Slot>, timeout: u32, log: seq<Event>, shard: u16, entries: seq<Entry>)
    requires PoolOk(slots) && IsUpdate(entries) && Gathering(slots, shard, entries, {})
    requires LogOk(log) && Delivers(log, shard, entries) && InTime(slots, timeout, log, shard, FragmentCount(|entries|))
    ensures var signals, n := Signals(slots, timeout, log, shard), FragmentCount(|entries|);
            NoLoss(signals) && (Covers(IndicesOf(signals), n) ==> Outputs(slots, timeout, log, shard) != [])
  {
    FragmentsCover(entries);
    NothingLostExactly(slots, timeout, log, shard, entries);
    Reassembled(slots, timeout, log, shard, entries);
    var signals, n := Signals(slots, timeout, log, shard), FragmentCount(|entries|);
    hide Gathering, PoolOk, Held, FragmentCount, Signals, Run, Outputs, InTime, Covers, Completions, Delivers, LogOk,
         Below;
    AllSinceLoss(signals);
    assert signals[..|signals|] == signals;
    if Covers(IndicesOf(signals), n) {
      CoveredThenComplete(signals, |signals|, n);
    }
  }
}
