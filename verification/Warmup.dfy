/** Daily sending limits for new IPs: crates/sentio-smtp-client/src/warmup.rs. Reals stand for f64. */
module Warmup {
  import opened Basics
  import opened Kv

  const I32_MIN: int := -0x8000_0000
  const I32_MAX: int := 0x7fff_ffff

  type i32 = x: int | -0x8000_0000 <= x <= 0x7fff_ffff

  datatype Schedule = Schedule(id: nat, dailyLimit: i32, maxDailyLimit: i32, increasePct: real, completed: bool)

  const COUNTER_TTL_SECS: nat := 172800

  // ----- sequential use of the counters

  function CounterOf(data: map<Key, Slot>, s: Schedule, day: int, now: int): int {
    ReadWhole(data, WarmupKey(s.id, day), now)
  }

  predicate Full(data: map<Key, Slot>, s: Schedule, day: int, now: int) {
    CounterOf(data, s, day, now) >= s.dailyLimit
  }

  ghost predicate DistinctIds(ss: seq<Schedule>) {
    forall i, j :: 0 <= i < j < |ss| ==> ss[i].id != ss[j].id
  }

  /** The first `n` counters were raised by one, the others left alone. */
  ghost predicate Charged(d0: map<Key, Slot>, d1: map<Key, Slot>, ss: seq<Schedule>, n: int, day: int, now: int) {
    forall i :: 0 <= i < |ss| ==>
      CounterOf(d1, ss[i], day, now) == CounterOf(d0, ss[i], day, now) + if i < n then 1 else 0
  }

  /** The first `n` counters can be read for two days. */
  ghost predicate Lasting(d1: map<Key, Slot>, ss: seq<Schedule>, n: int, day: int, now: int) {
    forall i, t :: 0 <= i < n && i < |ss| && now <= t < now + 2 * 24 * 60 * 60 ==>
      CounterOf(d1, ss[i], day, t) == CounterOf(d1, ss[i], day, now)
  }

  /** A schedule lets a sender pass: by its counter, or when that cannot be read because zero is below the limit. */
  predicate Passes(data: map<Key, Slot>, s: Schedule, day: int, now: int, readOk: bool) {
    if readOk then !Full(data, s, day, now) else 0 < s.dailyLimit
  }

  /**
    `check_and_increment`: refused at the first schedule that does not let the sender pass. Note what a refusal has
    already charged: every schedule before that one; and that a failed read counts as zero.
  */
  method CheckAndIncrement(store: Store, ss: seq<Schedule>, day: int, now: int, readOk: nat -> bool)
    returns (ok: bool, ghost stop: nat)
    requires DistinctIds(ss)
    modifies store
    ensures stop <= |ss| && ok == (stop == |ss|)
    ensures forall i :: 0 <= i < stop ==> Passes(old(store.data), ss[i], day, now, readOk(i))
    ensures !ok ==> !Passes(old(store.data), ss[stop], day, now, readOk(stop))
    ensures Charged(old(store.data), store.data, ss, stop, day, now) && Lasting(store.data, ss, stop, day, now)
  {
    stop := 0;
    for i := 0 to |ss|
      invariant stop == i
      invariant forall k :: 0 <= k < i ==> Passes(old(store.data), ss[k], day, now, readOk(k))
      invariant Charged(old(store.data), store.data, ss, i, day, now) && Lasting(store.data, ss, i, day, now)
    {
      var key := WarmupKey(ss[i].id, day);
      var count := 0;
      ghost var d0 := store.data;
      if readOk(i) {
        var v := store.Get(key, now);
        count := if v.Some? && v.value.Whole? then v.value.n else 0;
      }
      ghost var d1 := store.data;
      assert Charged(old(store.data), d1, ss, i, day, now);
      LastingSame(d0, d1, ss, i, day, now);
      if count >= ss[i].dailyLimit {
        return false, i;
      }
      var n := store.Incr(key, now);
      var _ := store.Expire(key, now, COUNTER_TTL_SECS);
      Charge(old(store.data), d1, store.data, ss, i, day, now, n);
      LastingCharge(d1, store.data, ss, i, day, now, n);
      stop := i + 1;
    }
    ok := true;
  }

  /** A full schedule with a positive limit lets a sender pass if and only if its own read failed. */
  lemma FullPassesExactly(data: map<Key, Slot>, s: Schedule, day: int, now: int, readOk: bool)
    requires Full(data, s, day, now) && s.dailyLimit > 0
    ensures Passes(data, s, day, now, readOk) <==> !readOk
  {
  }

  lemma Charge(d: map<Key, Slot>, d1: map<Key, Slot>, d2: map<Key, Slot>, ss: seq<Schedule>, i: nat, day: int,
               now: int, n: int)
    requires DistinctIds(ss) && i < |ss| && Charged(d, d1, ss, i, day, now)
    requires n == CounterOf(d1, ss[i], day, now) + 1
    requires var key := WarmupKey(ss[i].id, day); d2 == d1[key := Slot(Whole(n), Some(now + COUNTER_TTL_SECS))]
    ensures Charged(d, d2, ss, i + 1, day, now)
  {
  }

  lemma LastingSame(d0: map<Key, Slot>, d1: map<Key, Slot>, ss: seq<Schedule>, n: nat, day: int, now: int)
    requires Lasting(d0, ss, n, day, now) && forall k, t :: t >= now ==> Read(d1, k, t) == Read(d0, k, t)
    ensures Lasting(d1, ss, n, day, now)
  {
    forall i, t | 0 <= i < n && i < |ss| && now <= t < now + 2 * 24 * 60 * 60
      ensures CounterOf(d1, ss[i], day, t) == CounterOf(d1, ss[i], day, now)
    {
      assert CounterOf(d0, ss[i], day, t) == CounterOf(d0, ss[i], day, now);
    }
  }

  lemma LastingCharge(d1: map<Key, Slot>, d2: map<Key, Slot>, ss: seq<Schedule>, i: nat, day: int, now: int, n: int)
    requires DistinctIds(ss) && i < |ss| && Lasting(d1, ss, i, day, now)
    requires var key := WarmupKey(ss[i].id, day); d2 == d1[key := Slot(Whole(n), Some(now + COUNTER_TTL_SECS))]
    ensures Lasting(d2, ss, i + 1, day, now)
  {
    forall k, t | 0 <= k < i + 1 && k < |ss| && now <= t < now + 2 * 24 * 60 * 60
      ensures CounterOf(d2, ss[k], day, t) == CounterOf(d2, ss[k], day, now)
    {
      assert k < i ==> CounterOf(d1, ss[k], day, t) == CounterOf(d1, ss[k], day, now);
    }
  }

  /** Used one sender at a time, a counter within its limit stays within its limit. */
  lemma SequentialNeverExceeds(d0: map<Key, Slot>, d1: map<Key, Slot>, ss: seq<Schedule>, stop: nat, day: int,
                               now: int, i: nat)
    requires Charged(d0, d1, ss, stop, day, now) && i < |ss|
    requires forall k :: 0 <= k < stop && k < |ss| ==> !Full(d0, ss[k], day, now)
    requires CounterOf(d0, ss[i], day, now) <= ss[i].dailyLimit
    ensures CounterOf(d1, ss[i], day, now) <= ss[i].dailyLimit
  {
    assert i < stop ==> !Full(d0, ss[i], day, now);
  }

  // ----- concurrent senders on one counter

  /** `passed` are the senders between their check and their increment. */
  datatype Race = Race(count: nat, passed: set<nat>)

  datatype Action = Check(t: nat) | Bump(t: nat)

  predicate Enabled(limit: nat, k: nat, s: Race, a: Action) {
    match a
    case Check(t) => t < k && t !in s.passed && s.count < limit
    case Bump(t) => t in s.passed
  }

  function Apply(s: Race, a: Action): Race {
    match a
    case Check(t) => s.(passed := s.passed + {t})
    case Bump(t) => Race(s.count + 1, s.passed - {t})
  }

  ghost predicate IsRun(limit: nat, k: nat, states: seq<Race>, actions: seq<Action>) {
    && |states| == |actions| + 1 && states[0] == Race(0, {})
    && forall i :: 0 <= i < |actions| ==>
         Enabled(limit, k, states[i], actions[i]) && states[i + 1] == Apply(states[i], actions[i])
  }

  ghost predicate RaceInv(limit: nat, k: nat, s: Race) {
    && (forall t :: t in s.passed ==> t < k) && s.count + |s.passed| <= limit + k - 1
    && (limit == 0 ==> s == Race(0, {}))
  }

  lemma {:induction false} BoundedSet(s: set<nat>, k: nat)
    requires forall t :: t in s ==> t < k
    ensures |s| <= k
  {
    if k == 0 {
      assert s == {};
    } else {
      BoundedSet(s - {k - 1}, k - 1);
      assert s <= (s - {k - 1}) + {k - 1};
      SubsetSize(s, (s - {k - 1}) + {k - 1});
    }
  }

  /** With k concurrent senders the counter never exceeds limit + k - 1, and with a limit of zero it never moves. */
  lemma {:induction false} OvershootBound(limit: nat, k: nat, states: seq<Race>, actions: seq<Action>)
    requires k >= 1 && IsRun(limit, k, states, actions)
    ensures RaceInv(limit, k, states[|actions|])
    ensures states[|actions|].count <= if limit == 0 then 0 else limit + k - 1
    decreases |actions|
  {
    if actions != [] {
      var n := |actions| - 1;
      OvershootBound(limit, k, states[..n + 1], actions[..n]);
      BoundedSet(states[n + 1].passed, k);
    }
  }

  lemma ExtendRun(limit: nat, k: nat, states: seq<Race>, actions: seq<Action>, a: Action)
    requires IsRun(limit, k, states, actions) && Enabled(limit, k, states[|actions|], a)
    ensures IsRun(limit, k, states + [Apply(states[|actions|], a)], actions + [a])
  {
    var all, more := states + [Apply(states[|actions|], a)], actions + [a];
    forall i | 0 <= i < |more|
      ensures Enabled(limit, k, all[i], more[i]) && all[i + 1] == Apply(all[i], more[i])
    {
      assert all[i] == states[i];
      if i < |actions| {
        assert more[i] == actions[i] && all[i + 1] == states[i + 1];
      }
    }
  }

  function Below(n: nat): (s: set<nat>)
    ensures forall t: nat :: t in s <==> t < n
  {
    if n == 0 then {} else Below(n - 1) + {n - 1}
  }

  lemma {:induction false} ReachCount(limit: nat, k: nat, n: nat) returns (states: seq<Race>, actions: seq<Action>)
    requires k >= 1 && n < limit
    ensures IsRun(limit, k, states, actions) && states[|actions|] == Race(n, {})
  {
    if n == 0 {
      states, actions := [Race(0, {})], [];
    } else {
      states, actions := ReachCount(limit, k, n - 1);
      ExtendRun(limit, k, states, actions, Check(0));
      states, actions := states + [Apply(states[|actions|], Check(0))], actions + [Check(0)];
      ExtendRun(limit, k, states, actions, Bump(0));
      states, actions := states + [Apply(states[|actions|], Bump(0))], actions + [Bump(0)];
    }
  }

  lemma {:induction false} ReachPassed(limit: nat, k: nat, p: nat) returns (states: seq<Race>, actions: seq<Action>)
    requires 1 <= k && p <= k && limit >= 1
    ensures IsRun(limit, k, states, actions) && states[|actions|] == Race(limit - 1, Below(p))
  {
    if p == 0 {
      states, actions := ReachCount(limit, k, limit - 1);
      assert Below(0) == {};
    } else {
      states, actions := ReachPassed(limit, k, p - 1);
      ExtendRun(limit, k, states, actions, Check(p - 1));
      states, actions := states + [Apply(states[|actions|], Check(p - 1))], actions + [Check(p - 1)];
      assert Below(p) == Below(p - 1) + {p - 1};
    }
  }

  lemma {:induction false} ReachBumped(limit: nat, k: nat, p: nat) returns (states: seq<Race>, actions: seq<Action>)
    requires 1 <= k && p <= k && limit >= 1
    ensures IsRun(limit, k, states, actions) && states[|actions|] == Race(limit - 1 + k - p, Below(p))
    decreases k - p
  {
    if p == k {
      states, actions := ReachPassed(limit, k, k);
    } else {
      states, actions := ReachBumped(limit, k, p + 1);
      ExtendRun(limit, k, states, actions, Bump(p));
      states, actions := states + [Apply(states[|actions|], Bump(p))], actions + [Bump(p)];
      assert Below(p) == Below(p + 1) - {p};
    }
  }

  /** The bound is met by every number of senders: all check at one below the limit, then all increment. */
  lemma OvershootIsReached(limit: nat, k: nat) returns (states: seq<Race>, actions: seq<Action>)
    requires k >= 1
    ensures IsRun(limit, k, states, actions)
    ensures states[|actions|].count == if limit == 0 then 0 else limit + k - 1
  {
    if limit == 0 {
      states, actions := [Race(0, {})], [];
    } else {
      states, actions := ReachBumped(limit, k, 0);
    }
  }

  // ----- advancing schedules

  /** `f64::round`: half away from zero. */
  function Round(x: real): int {
    if x >= 0.0 then (x + 0.5).Floor else -((-x + 0.5).Floor)
  }

  /** The new limit; the conversion to 32 bits saturates. */
  function NewLimit(s: Schedule): i32 {
    Max(I32_MIN, Min(Round(s.dailyLimit as real * (1.0 + s.increasePct / 100.0)), s.maxDailyLimit))
  }

  function Advanced(s: Schedule): Schedule {
    var n := NewLimit(s);
    if s.completed then s
    else if n >= s.maxDailyLimit then s.(dailyLimit := s.maxDailyLimit, completed := true)
    else s.(dailyLimit := n)
  }

  function AdvancedTimes(s: Schedule, n: nat): Schedule {
    if n == 0 then s else Advanced(AdvancedTimes(s, n - 1))
  }

  /** The two writes of one day: the progress, and on completion the status; a failure ends the whole call. */
  predicate WritesFail(s: Schedule, progressOk: bool, statusOk: bool) {
    !s.completed && (!progressOk || (NewLimit(s) >= s.maxDailyLimit && !statusOk))
  }

  /** What is stored after the writes that were made. */
  function Stored(s: Schedule, progressOk: bool, statusOk: bool): Schedule {
    if !WritesFail(s, progressOk, statusOk) then Advanced(s)
    else if progressOk then s.(dailyLimit := s.maxDailyLimit) else s
  }

  /** No write fails before schedule `i`. */
  ghost predicate Reached(ss: seq<Schedule>, progressOk: nat -> bool, statusOk: nat -> bool, i: nat)
    requires i <= |ss|
  {
    forall k :: 0 <= k < i ==> !WritesFail(ss[k], progressOk(k), statusOk(k))
  }

  /**
    `advance_daily_schedules` over the stored schedules: each is advanced on its own up to the first failed write;
    that one may be left at its maximum without being completed, and those after it are not touched.
  */
  method AdvanceDaily(ss: seq<Schedule>, progressOk: nat -> bool, statusOk: nat -> bool)
    returns (r: seq<Schedule>, ok: bool)
    ensures |r| == |ss| && ok == Reached(ss, progressOk, statusOk, |ss|)
    ensures forall i :: 0 <= i < |ss| ==>
      r[i] == if Reached(ss, progressOk, statusOk, i) then Stored(ss[i], progressOk(i), statusOk(i)) else ss[i]
  {
    r, ok := ss, true;
    for i := 0 to |ss|
      invariant |r| == |ss| && Reached(ss, progressOk, statusOk, i)
      invariant forall k :: 0 <= k < i ==> r[k] == Stored(ss[k], progressOk(k), statusOk(k))
      invariant forall k :: i <= k < |ss| ==> r[k] == ss[k]
    {
      var s := ss[i];
      if !s.completed {
        var n := NewLimit(s);
        if !progressOk(i) { return r, false; }
        if n >= s.maxDailyLimit {
          r := r[i := s.(dailyLimit := s.maxDailyLimit)];
          if !statusOk(i) { return r, false; }
          r := r[i := s.(dailyLimit := s.maxDailyLimit, completed := true)];
        } else {
          r := r[i := s.(dailyLimit := n)];
        }
      }
    }
  }

  /** How much one day adds before the cap; negative when the percentage is. */
  function Growth(s: Schedule): real {
    s.dailyLimit as real * s.increasePct / 100.0
  }

  function Product(s: Schedule): real {
    s.dailyLimit as real * s.increasePct
  }

  /** The growth of a day rounds to at least one. */
  predicate Grows(s: Schedule) {
    if s.dailyLimit >= 0 then Product(s) >= 50.0 else Product(s) > 50.0
  }

  /** The growth of a day rounds to minus one or less, and the limit is not the smallest there is. */
  predicate Shrinks(s: Schedule) {
    s.dailyLimit > I32_MIN && if s.dailyLimit >= 0 then Product(s) < -50.0 else Product(s) <= -50.0
  }

  /** Rounding a limit plus its growth, against the limit; halves are rounded away from zero. */
  lemma RoundAgainst(l: int, g: real)
    requires l == 0 ==> g == 0.0
    ensures Round(l as real + g) < l <==> if l >= 0 then g < -0.5 else g <= -0.5
    ensures Round(l as real + g) > l <==> if l >= 0 then g >= 0.5 else g > 0.5
  {
    var x := l as real + g;
    if x >= 0.0 {
      FloorBounds(x + 0.5);
    } else {
      FloorBounds(-x + 0.5);
    }
  }

  lemma FloorBounds(x: real)
    ensures x.Floor as real <= x < x.Floor as real + 1.0
  {
  }

  /**
    The new limit: one that is below the maximum, and not held up by the smallest 32-bit integer, is within one half of
    the old limit grown by the percentage, and a half is rounded away from zero.
  */
  lemma NewLimitExactly(s: Schedule)
    ensures var n, x := NewLimit(s), s.dailyLimit as real * (1.0 + s.increasePct / 100.0);
            && n <= s.maxDailyLimit
            && (I32_MIN < n < s.maxDailyLimit ==>
                  if x >= 0.0 then n as real - 0.5 <= x < n as real + 0.5 else n as real - 0.5 < x <= n as real + 0.5)
            && (n == s.maxDailyLimit > I32_MIN ==> x >= n as real - 0.5)
  {
    var x := s.dailyLimit as real * (1.0 + s.increasePct / 100.0);
    if x >= 0.0 {
      FloorBounds(x + 0.5);
    } else {
      FloorBounds(-x + 0.5);
    }
  }

  /** What a day makes of the limit before the cap. */
  lemma DayExactly(s: Schedule)
    ensures var n := Max(I32_MIN, Round(s.dailyLimit as real * (1.0 + s.increasePct / 100.0)));
            (n < s.dailyLimit <==> Shrinks(s)) && (n > s.dailyLimit <==> Grows(s))
  {
    var l := s.dailyLimit as real;
    assert l * (1.0 + s.increasePct / 100.0) == l + Growth(s);
    assert Growth(s) == Product(s) / 100.0;
    RoundAgainst(s.dailyLimit, Growth(s));
  }

  /** A day lowers the limit of an active schedule if and only if it is above its maximum or its growth is negative. */
  lemma LoweredExactly(s: Schedule)
    requires !s.completed
    ensures Advanced(s).dailyLimit < s.dailyLimit <==> s.maxDailyLimit < s.dailyLimit || Shrinks(s)
    ensures s.maxDailyLimit <= s.dailyLimit && !Shrinks(s) ==>
              Advanced(s) == s.(dailyLimit := s.maxDailyLimit, completed := true)
  {
    DayExactly(s);
  }

  /** A day never passes the maximum, and raises a limit below it exactly when the growth rounds to at least one. */
  lemma AdvanceMonotone(s: Schedule)
    requires s.dailyLimit <= s.maxDailyLimit
    ensures Advanced(s).dailyLimit <= s.maxDailyLimit
    ensures s.dailyLimit <= Advanced(s).dailyLimit <==> s.completed || !Shrinks(s)
    ensures Grows(s) && !s.completed ==> Advanced(s).completed || Advanced(s).dailyLimit >= s.dailyLimit + 1
    ensures Advanced(s).dailyLimit > s.dailyLimit <==> !s.completed && s.dailyLimit < s.maxDailyLimit && Grows(s)
  {
    DayExactly(s);
  }

  lemma GrowsKept(s: Schedule, t: Schedule)
    requires Grows(s) && s.increasePct == t.increasePct && 0 <= s.dailyLimit <= t.dailyLimit
    ensures Grows(t)
  {
    var d := (t.dailyLimit - s.dailyLimit) as real;
    PositivePct(s.dailyLimit as real, s.increasePct);
    assert d * s.increasePct >= 0.0;
    assert t.dailyLimit as real == s.dailyLimit as real + d;
    assert Product(t) == Product(s) + d * s.increasePct;
  }

  lemma PositivePct(l: real, pct: real)
    requires l >= 0.0 && l * pct >= 50.0
    ensures pct > 0.0
  {
    assert pct <= 0.0 ==> l * (-pct) >= 0.0;
  }

  /** Enough growth completes the schedule within max(1, max - limit) days. */
  lemma {:induction false} Completes(s: Schedule, n: nat)
    requires 0 <= s.dailyLimit <= s.maxDailyLimit && Grows(s)
    ensures var t := AdvancedTimes(s, n);
            && t.maxDailyLimit == s.maxDailyLimit && t.increasePct == s.increasePct
            && s.dailyLimit <= t.dailyLimit <= t.maxDailyLimit && Grows(t)
            && (t.completed || t.dailyLimit >= s.dailyLimit + n)
    ensures n >= Max(1, s.maxDailyLimit - s.dailyLimit) ==> AdvancedTimes(s, n).completed
  {
    if n > 0 {
      Completes(s, n - 1);
      var t := AdvancedTimes(s, n - 1);
      AdvanceMonotone(t);
      AdvancedKeeps(t);
      GrowsKept(t, Advanced(t));
    }
  }

  lemma AdvancedKeeps(s: Schedule)
    ensures Advanced(s).maxDailyLimit == s.maxDailyLimit && Advanced(s).increasePct == s.increasePct
    ensures s.completed ==> Advanced(s) == s
    ensures !Advanced(s).completed ==> Advanced(s).dailyLimit < s.maxDailyLimit
  {
  }

  /** Completed, or below the maximum with a growth that rounds to nothing. */
  predicate Still(s: Schedule) {
    s.completed || (s.dailyLimit < s.maxDailyLimit && !Grows(s) && !Shrinks(s))
  }

  lemma StillExactly(s: Schedule)
    ensures Advanced(s) == s <==> Still(s)
  {
    DayExactly(s);
  }

  lemma OneDay(s: Schedule)
    ensures AdvancedTimes(s, 1) == Advanced(s)
  {
    assert AdvancedTimes(s, 0) == s;
  }

  /** A schedule never changes again if and only if it is completed or its growth below the maximum rounds to zero. */
  lemma StuckExactly(s: Schedule)
    ensures (forall n: nat :: AdvancedTimes(s, n) == s) <==> Still(s)
  {
    StillExactly(s);
    if Still(s) {
      forall n: nat
        ensures AdvancedTimes(s, n) == s
      {
        StuckForever(s, n);
      }
    } else {
      OneDay(s);
      assert AdvancedTimes(s, 1) != s;
    }
  }

  lemma {:induction false} StuckForever(s: Schedule, n: nat)
    requires Still(s)
    ensures AdvancedTimes(s, n) == s
  {
    if n > 0 {
      StuckForever(s, n - 1);
      StillExactly(s);
    }
  }
}
