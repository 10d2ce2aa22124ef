/** The round scheduler. */
module Round {
  import opened Words
  import opened Counters

  /** The learning rate is carried as the four bytes of its float. */
  datatype Policy = Policy(window: u32, delay: u32, minShards: u8, maxShards: u8, epochs: u8, rate: bytes)

  datatype Phase = Idle | Collecting | Aggregating

  datatype Schedule = Schedule(phase: Phase, roundId: u8, openAt: int, closeAt: int,
                               complete: u8, partial: u8, total: u32)

  function Reopened(s: Schedule, p: Policy, now: int): Schedule {
    s.(phase := Collecting, complete := 0, partial := 0, openAt := now, closeAt := now + p.window)
  }

  function Counted(s: Schedule): Schedule {
    s.(complete := (s.complete as int + 1) % TWO8)
  }

  predicate ShouldClose(s: Schedule, p: Policy, now: int) {
    s.phase == Collecting && (now >= s.closeAt || s.complete >= p.maxShards)
  }

  function Closed(s: Schedule): Schedule {
    s.(phase := Aggregating, total := Next(s.total), roundId := (s.roundId as int + 1) % TWO8)
  }

  /** The round number is the number of rounds so far, modulo 256, and stays so even when
      the counter of rounds wraps. */
  predicate InStep(s: Schedule) {
    s.roundId == s.total as int % TWO8
  }

  lemma CloseInStep(s: Schedule)
    requires InStep(s)
    ensures InStep(Closed(s))
  {
    var t := s.total as int;
    if t + 1 == TWO32 {
      assert t % TWO8 == TWO8 - 1;
    } else {
      assert Next(s.total) == t + 1;
      assert (t % TWO8 + 1) % TWO8 == (t + 1) % TWO8;
    }
  }

  /** A round that has its window ahead, with at most one more shard. */
  lemma EndOfRound(s: Schedule, p: Policy, counted: bool, now: int, later: int)
    requires s.phase == Collecting && s.closeAt == s.openAt + p.window
    requires s.complete < p.maxShards || s.complete == p.maxShards == 0
    ensures var m := if counted then Counted(s) else s;
            var reported := s.complete as int + if counted then 1 else 0;
            (ShouldClose(m, p, now) <==> now - s.openAt >= p.window || reported >= p.maxShards as int) &&
            m.complete as int == reported && m.openAt == s.openAt && m.closeAt == s.closeAt && m.roundId == s.roundId
    ensures var t := Reopened(Closed(if counted then Counted(s) else s), p, later);
            t.roundId != s.roundId && t.complete == 0 && t.openAt == later && t.closeAt == later + p.window
  {
    var r := (s.roundId as int + 1) % TWO8;
    assert r != s.roundId as int;
  }

  /** When a round closes by the overview in fl_round.h, and by its comment on the function. */
  predicate ClosesByOverview(s: Schedule, p: Policy, now: int) {
    s.phase == Collecting && (now >= s.closeAt || s.complete >= p.minShards)
  }

  predicate ClosesByComment(s: Schedule, p: Policy, now: int) {
    s.phase == Collecting && (now >= s.closeAt || (s.complete >= p.minShards && s.complete >= p.maxShards))
  }

  /** min_shards is never read: the code departs from the comment exactly while the window is
      open and max_shards have reported but not min_shards, and from the overview exactly
      while one of the two numbers is reached and the other is not. */
  lemma MinShardsIgnored(s: Schedule, p: Policy, now: int)
    ensures ShouldClose(s, p, now) != ClosesByComment(s, p, now) <==>
              s.phase == Collecting && now < s.closeAt && p.maxShards <= s.complete < p.minShards
    ensures ShouldClose(s, p, now) != ClosesByOverview(s, p, now) <==>
              s.phase == Collecting && now < s.closeAt
              && (p.minShards <= s.complete < p.maxShards || p.maxShards <= s.complete < p.minShards)
  {
  }

  class Scheduler {
    const policy: Policy
    var phase: Phase
    var roundId: u8
    var openAt: int
    var closeAt: int
    var complete: u8
    var partial: u8
    var total: u32

    function Value(): Schedule
      reads this
    {
      Schedule(phase, roundId, openAt, closeAt, complete, partial, total)
    }

    constructor (policy: Policy)
      ensures this.policy == policy && Value() == Schedule(Idle, 0, 0, 0, 0, 0, 0)
    {
      this.policy := policy;
      phase := Idle;
      roundId, openAt, closeAt, complete, partial, total := 0, 0, 0, 0, 0, 0;
    }

    method Open(now: int) returns (id: u8)
      modifies this
      ensures Value() == Reopened(old(Value()), policy, now) && id == roundId
    {
      complete, partial := 0, 0;
      openAt := now;
      closeAt := openAt + policy.window;
      phase := Collecting;
      id := roundId;
    }

    /** fl_round_shard_complete: the answer says whether enough shards have reported. */
    method ShardComplete() returns (enough: bool)
      modifies this
      ensures Value() == Counted(old(Value())) && (enough <==> complete >= policy.maxShards)
    {
      complete := (complete as int + 1) % TWO8;
      enough := complete >= policy.maxShards;
    }

    method ShouldCloseNow(now: int) returns (b: bool)
      ensures b <==> ShouldClose(Value(), policy, now)
    {
      if phase != Collecting { return false; }
      if now >= closeAt { return true; }
      if complete >= policy.maxShards { return true; }
      return false;
    }

    method Close()
      modifies this
      ensures Value() == Closed(old(Value()))
    {
      phase := Aggregating;
      total := Next(total);
      roundId := (roundId as int + 1) % TWO8;
    }
  }
}
