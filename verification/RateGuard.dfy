/** The sliding-window connection limit: crates/sentio-abuse/src/rate_guard.rs. Time is in seconds. */
module RateGuard {
  import opened Basics
  import opened Kv

  /** One call of `check_rate` and its answer. */
  datatype Call = Call(ip: string, at: nat, ok: bool)

  function Minute(t: nat): nat {
    t / 60
  }

  /** Calls from `ip` in a minute, accepted or not. */
  function CallsIn(h: seq<Call>, ip: string, m: int): nat {
    if h == [] then 0
    else
      var c := h[|h| - 1];
      CallsIn(h[..|h| - 1], ip, m) + if c.ip == ip && Minute(c.at) == m then 1 else 0
  }

  /** Calls from `ip` accepted at a time in [lo, hi). */
  function AcceptedIn(h: seq<Call>, ip: string, lo: int, hi: int): nat {
    if h == [] then 0
    else
      var c := h[|h| - 1];
      AcceptedIn(h[..|h| - 1], ip, lo, hi) + if c.ip == ip && c.ok && lo <= c.at < hi then 1 else 0
  }

  /** The decision: the previous minute's calls, weighted by what is left of the window, plus this minute's. */
  predicate Allowed(prev: int, current: int, elapsed: int, max: nat) {
    prev * (60 - elapsed) + current * 60 <= max * 60
  }

  /** As long as this minute's calls and all of the previous one's fit the limit a call is accepted; beyond it alone, not. */
  lemma QuietAccepted(h: seq<Call>, ip: string, at: nat, max: nat)
    ensures CallsIn(h, ip, Minute(at)) + 1 + CallsIn(h, ip, Minute(at) - 1) <= max ==> Decision(h, ip, at, max)
    ensures CallsIn(h, ip, Minute(at)) + 1 > max ==> !Decision(h, ip, at, max)
    ensures at % 60 == 0 ==>
              (Decision(h, ip, at, max) <==> CallsIn(h, ip, Minute(at)) + 1 + CallsIn(h, ip, Minute(at) - 1) <= max)
  {
    var prev, left := CallsIn(h, ip, Minute(at) - 1), 60 - at % 60;
    assert 0 <= prev * left <= prev * 60 by {
      ScaleMonotone(left, 60, prev);
    }
  }

  ghost predicate Ordered(h: seq<Call>) {
    forall i, j :: 0 <= i < j < |h| ==> h[i].at <= h[j].at
  }

  /** The answer due to a call from `ip` at time `at` after the calls `h`. */
  predicate Decision(h: seq<Call>, ip: string, at: nat, max: nat) {
    Allowed(CallsIn(h, ip, Minute(at) - 1), CallsIn(h, ip, Minute(at)) + 1, at % 60, max)
  }

  ghost predicate Decided(h: seq<Call>, i: nat, max: nat)
    requires i < |h|
  {
    h[i].ok == Decision(h[..i], h[i].ip, h[i].at, max)
  }

  /** Every answer is the decision on the calls before it, and the clock never runs backwards. */
  ghost predicate History(h: seq<Call>, max: nat) {
    Ordered(h) && forall i :: 0 <= i < |h| ==> Decided(h, i, max)
  }

  // ----- counting

  lemma {:induction false} CallsInLater(h: seq<Call>, ip: string, m: int, now: nat)
    requires (forall i :: 0 <= i < |h| ==> h[i].at <= now) && Minute(now) < m
    ensures CallsIn(h, ip, m) == 0
  {
    if h != [] {
      CallsInLater(h[..|h| - 1], ip, m, now);
    }
  }

  lemma {:induction false} CallsInPrefix(h: seq<Call>, j: nat, ip: string, m: int)
    requires j <= |h|
    ensures CallsIn(h[..j], ip, m) <= CallsIn(h, ip, m)
  {
    if j < |h| {
      CallsInPrefix(h[..|h| - 1], j, ip, m);
      assert h[..|h| - 1][..j] == h[..j];
    } else {
      assert h[..j] == h;
    }
  }

  lemma {:induction false} AcceptedSplit(h: seq<Call>, ip: string, lo: int, mid: int, hi: int)
    requires lo <= mid <= hi
    ensures AcceptedIn(h, ip, lo, hi) == AcceptedIn(h, ip, lo, mid) + AcceptedIn(h, ip, mid, hi)
  {
    if h != [] {
      AcceptedSplit(h[..|h| - 1], ip, lo, mid, hi);
    }
  }

  /** Within one minute no more are accepted than there were calls. */
  lemma {:induction false} AcceptedAtMostCalls(h: seq<Call>, ip: string, lo: int, hi: int, m: nat)
    requires 60 * m <= lo && hi <= 60 * (m + 1)
    ensures AcceptedIn(h, ip, lo, hi) <= CallsIn(h, ip, m)
  {
    if h != [] {
      AcceptedAtMostCalls(h[..|h| - 1], ip, lo, hi, m);
      var at := h[|h| - 1].at;
      assert lo <= at < hi ==> Minute(at) == m;
    }
  }

  /** The last accepted call of an interval, after which none follows. */
  lemma {:induction false} LastAccepted(h: seq<Call>, ip: string, lo: int, hi: int) returns (j: nat)
    requires AcceptedIn(h, ip, lo, hi) > 0
    ensures j < |h| && h[j].ip == ip && h[j].ok && lo <= h[j].at < hi
    ensures AcceptedIn(h[..j], ip, lo, hi) + 1 == AcceptedIn(h, ip, lo, hi)
  {
    var c := h[|h| - 1];
    if c.ip == ip && c.ok && lo <= c.at < hi {
      j := |h| - 1;
    } else {
      j := LastAccepted(h[..|h| - 1], ip, lo, hi);
      assert h[..|h| - 1][..j] == h[..j];
    }
  }

  /** Calls made before time `hi` all lie in a prefix that reaches past `hi`. */
  lemma {:induction false} AcceptedBefore(h: seq<Call>, j: nat, ip: string, lo: int, hi: int)
    requires Ordered(h) && j < |h| && hi <= h[j].at
    ensures AcceptedIn(h, ip, lo, hi) == AcceptedIn(h[..j], ip, lo, hi)
  {
    if j == |h| - 1 {
    } else {
      AcceptedBefore(h[..|h| - 1], j, ip, lo, hi);
      assert h[..|h| - 1][..j] == h[..j];
      assert h[j].at <= h[|h| - 1].at;
    }
  }

  // ----- the window bound

  lemma DecisionBound(a: nat, b: nat, prev: nat, current: nat, e: nat, max: nat)
    requires Allowed(prev, current, e, max) && a <= prev && b <= current && e < 60
    ensures a * (60 - e) + b * 60 <= max * 60
  {
    ScaleMonotone(a, prev, 60 - e);
  }

  /** Within one minute at most `max` calls are accepted. */
  lemma MinuteBound(h: seq<Call>, max: nat, ip: string, lo: nat, hi: nat, m: nat)
    requires History(h, max) && 60 * m <= lo && hi <= 60 * (m + 1)
    ensures AcceptedIn(h, ip, lo, hi) <= max
  {
    var b := AcceptedIn(h, ip, lo, hi);
    if b > 0 {
      var j := LastAccepted(h, ip, lo, hi);
      AcceptedAtMostCalls(h[..j], ip, lo, hi, m);
      AcceptedCall(h, max, j, m);
      DecisionBound(0, b, CallsIn(h[..j], ip, m - 1), CallsIn(h[..j], ip, m) + 1, h[j].at % 60, max);
    }
  }

  lemma AcceptedCall(h: seq<Call>, max: nat, j: nat, m: nat)
    requires History(h, max) && j < |h| && h[j].ok && 60 * m <= h[j].at < 60 * (m + 1)
    ensures Allowed(CallsIn(h[..j], h[j].ip, m - 1), CallsIn(h[..j], h[j].ip, m) + 1, h[j].at % 60, max)
  {
    assert Decided(h, j, max);
    assert Minute(h[j].at) == m;
  }

  /** Seconds by which a window starting `s` seconds into a minute reaches past the first second of the next. */
  function Overlap(s: nat): nat {
    if s >= 1 then s - 1 else 0
  }

  /**
    Over every history, in every window of 60 seconds starting at `w`, that is s = w mod 60 seconds into a
    minute: 60 * accepted <= max * (60 + max(s - 1, 0)), hence fewer than 2 * max for a positive limit.
  */
  lemma WindowBound(h: seq<Call>, max: nat, ip: string, w: nat)
    requires History(h, max)
    ensures 60 * AcceptedIn(h, ip, w, w + 60) <= max * (60 + Overlap(w % 60))
    ensures max > 0 ==> AcceptedIn(h, ip, w, w + 60) < 2 * max
  {
    var m := Minute(w);
    var mid := 60 * (m + 1);
    var a := AcceptedIn(h, ip, w, mid);
    var b := AcceptedIn(h, ip, mid, w + 60);
    AcceptedSplit(h, ip, w, mid, w + 60);
    MinuteBound(h, max, ip, w, mid, m);
    if b == 0 {
      assert max * (60 + Overlap(w % 60)) == max * 60 + max * Overlap(w % 60);
      assert max * Overlap(w % 60) >= 0;
    } else {
      var j := LastAccepted(h, ip, mid, w + 60);
      var e := h[j].at % 60;
      assert Minute(h[j].at) == m + 1 && e == h[j].at - mid && e <= Overlap(w % 60);
      AcceptedAtMostCalls(h[..j], ip, mid, w + 60, m + 1);
      AcceptedBefore(h, j, ip, w, mid);
      AcceptedAtMostCalls(h[..j], ip, w, mid, m);
      assert Decided(h, j, max);
      DecisionBound(a, b, CallsIn(h[..j], ip, m), CallsIn(h[..j], ip, m + 1) + 1, e, max);
      Combine(a, b, e, Overlap(w % 60), max);
    }
    assert Overlap(w % 60) <= 58;
    BelowDouble(a + b, Overlap(w % 60), max);
  }

  lemma Combine(a: nat, b: nat, e: nat, o: nat, max: nat)
    requires a * (60 - e) + b * 60 <= max * 60 && a <= max && e <= o
    ensures 60 * (a + b) <= max * (60 + o)
  {
    assert a * (60 - e) == a * 60 - a * e;
    assert a * e <= max * e by { assert (max - a) * e >= 0; }
    assert max * e <= max * o by { assert max * (o - e) >= 0; }
    assert max * (60 + o) == max * 60 + max * o;
  }

  lemma BelowDouble(n: nat, o: nat, max: nat)
    requires 60 * n <= max * (60 + o) && o <= 58
    ensures max > 0 ==> n < 2 * max
  {
    assert max * (60 + o) <= max * 118 by { assert max * (58 - o) >= 0; }
  }


  // ----- the bound is met

  function Repeat(c: Call, n: nat): seq<Call> {
    if n == 0 then [] else Repeat(c, n - 1) + [c]
  }

  lemma CountOneMore(h: seq<Call>, c: Call, ip: string, m: int, lo: int, hi: int)
    ensures CallsIn(h + [c], ip, m) == CallsIn(h, ip, m) + if c.ip == ip && Minute(c.at) == m then 1 else 0
    ensures AcceptedIn(h + [c], ip, lo, hi)
            == AcceptedIn(h, ip, lo, hi) + if c.ip == ip && c.ok && lo <= c.at < hi then 1 else 0
  {
    assert (h + [c])[..|h|] == h;
  }

  lemma {:induction false} RepeatCounts(h: seq<Call>, c: Call, n: nat, ip: string, m: int, lo: int, hi: int)
    requires c.ip == ip && c.ok
    ensures CallsIn(h + Repeat(c, n), ip, m) == CallsIn(h, ip, m) + if Minute(c.at) == m then n else 0
    ensures AcceptedIn(h + Repeat(c, n), ip, lo, hi) == AcceptedIn(h, ip, lo, hi) + if lo <= c.at < hi then n else 0
  {
    if n == 0 {
      assert h + [] == h;
    } else {
      RepeatCounts(h, c, n - 1, ip, m, lo, hi);
      CountOneMore(h + Repeat(c, n - 1), c, ip, m, lo, hi);
      assert h + Repeat(c, n) == (h + Repeat(c, n - 1)) + [c];
    }
  }

  lemma AllowedFewer(prev: int, current: int, fewer: int, e: int, max: nat)
    requires Allowed(prev, current, e, max) && fewer <= current
    ensures Allowed(prev, fewer, e, max)
  {
  }

  lemma DecisionAfterBurst(h: seq<Call>, c: Call, n: nat, max: nat)
    requires c.ok
    ensures Decision(h + Repeat(c, n), c.ip, c.at, max)
            == Allowed(CallsIn(h, c.ip, Minute(c.at) - 1), CallsIn(h, c.ip, Minute(c.at)) + n + 1, c.at % 60, max)
  {
    RepeatCounts(h, c, n, c.ip, Minute(c.at) - 1, 0, 0);
    RepeatCounts(h, c, n, c.ip, Minute(c.at), 0, 0);
  }

  lemma {:induction false} BurstTimes(h: seq<Call>, c: Call, n: nat)
    requires forall i :: 0 <= i < |h| ==> h[i].at <= c.at
    ensures forall i :: 0 <= i < |h + Repeat(c, n)| ==> (h + Repeat(c, n))[i].at <= c.at
  {
    if n > 0 {
      BurstTimes(h, c, n - 1);
      assert h + Repeat(c, n) == (h + Repeat(c, n - 1)) + [c];
    }
  }

  /** A burst stays a history as long as its last call is still allowed. */
  lemma {:induction false} BurstAccepted(h: seq<Call>, c: Call, n: nat, max: nat)
    requires History(h, max) && c.ok && forall i :: 0 <= i < |h| ==> h[i].at <= c.at
    requires Allowed(CallsIn(h, c.ip, Minute(c.at) - 1), CallsIn(h, c.ip, Minute(c.at)) + n, c.at % 60, max)
    ensures History(h + Repeat(c, n), max)
  {
    if n == 0 {
      assert h + [] == h;
    } else {
      var current := CallsIn(h, c.ip, Minute(c.at)) + n;
      AllowedFewer(CallsIn(h, c.ip, Minute(c.at) - 1), current, current - 1, c.at % 60, max);
      BurstAccepted(h, c, n - 1, max);
      BurstTimes(h, c, n - 1);
      DecisionAfterBurst(h, c, n - 1, max);
      OneMoreCall(h, c, n, max, h + Repeat(c, n - 1));
    }
  }

  lemma OneMoreCall(h: seq<Call>, c: Call, n: nat, max: nat, before: seq<Call>)
    requires n > 0 && c.ok && before == h + Repeat(c, n - 1) && History(before, max)
    requires (forall i :: 0 <= i < |before| ==> before[i].at <= c.at) && Decision(before, c.ip, c.at, max)
    ensures History(h + Repeat(c, n), max)
  {
    HistoryStep(before, max, c);
    assert before + [c] == h + Repeat(c, n);
  }

  lemma FirstBurst(ip: string, s: nat, max: nat) returns (h: seq<Call>)
    requires 1 <= s < 60
    ensures History(h, max) && (forall i :: 0 <= i < |h| ==> h[i].at <= s)
    ensures CallsIn(h, ip, 0) == max && CallsIn(h, ip, 1) == 0 && AcceptedIn(h, ip, s, s + 60) == max
  {
    var first := Call(ip, s, true);
    assert Minute(s) == 0;
    BurstAccepted([], first, max, max);
    RepeatCounts([], first, max, ip, 0, s, s + 60);
    RepeatCounts([], first, max, ip, 1, s, s + 60);
    BurstTimes([], first, max);
    h := [] + Repeat(first, max);
  }

  lemma OneMinuteLater(s: nat)
    requires 1 <= s < 60
    ensures Minute(s + 59) == 1 && (s + 59) % 60 == s - 1
  {
  }

  /** `max` calls at time s, and 59 seconds later as many more as are allowed. */
  lemma TwoBursts(ip: string, s: nat, max: nat, n: nat) returns (h: seq<Call>)
    requires 1 <= s < 60 && Allowed(max, n, s - 1, max)
    ensures History(h, max) && AcceptedIn(h, ip, s, s + 60) == max + n
  {
    var h1 := FirstBurst(ip, s, max);
    var second := Call(ip, s + 59, true);
    OneMinuteLater(s);
    BurstAccepted(h1, second, n, max);
    RepeatCounts(h1, second, n, ip, 1, s, s + 60);
    h := h1 + Repeat(second, n);
  }

  /** For every limit and every window offset the bound, rounded down, is attained: max + max * (s - 1) / 60. */
  lemma WindowBoundIsExact(ip: string, s: nat, max: nat) returns (h: seq<Call>)
    requires 1 <= s < 60
    ensures History(h, max) && AcceptedIn(h, ip, s, s + 60) == max + max * Overlap(s) / 60
  {
    SecondBurst(max, s, max * Overlap(s) / 60);
    h := TwoBursts(ip, s, max, max * Overlap(s) / 60);
  }

  lemma SecondBurst(max: nat, s: nat, n: nat)
    requires 1 <= s < 60 && n == max * Overlap(s) / 60
    ensures Allowed(max, n, s - 1, max)
  {
    assert max * (60 - (s - 1)) == max * 60 - max * (s - 1);
  }

  // ----- the guard on the store

  /** Counters of the current and the previous minute are alive and exact. */
  ghost predicate Faithful(data: map<Key, Slot>, h: seq<Call>, now: nat) {
    && (forall i :: 0 <= i < |h| ==> h[i].at <= now)
    && (forall ip, m: int :: Minute(now) - 1 <= m ==> CounterOk(data, h, ip, m))
  }

  /** A minute's counter exists once somebody called in it, holds the number of calls and lives two minutes on. */
  ghost predicate CounterOk(data: map<Key, Slot>, h: seq<Call>, ip: string, m: int) {
    var k := RateKey(ip, m);
    if CallsIn(h, ip, m) == 0 then k !in data
    else
      && k in data && data[k].value == Whole(CallsIn(h, ip, m))
      && data[k].expires.Some? && data[k].expires.value >= 60 * (m + 2)
  }

  /** The 120 s expiry set in a minute's first call keeps its counter alive whenever it is read. */
  lemma CounterAlive(data: map<Key, Slot>, h: seq<Call>, ip: string, m: int, now: nat)
    requires CounterOk(data, h, ip, m) && Minute(now) - 1 <= m
    ensures ReadWhole(data, RateKey(ip, m), now) == CallsIn(h, ip, m)
    ensures RateKey(ip, m) in data ==> Live(data[RateKey(ip, m)], now)
  {
  }

  class Guard {
    const store: Store
    const max: nat
    ghost var history: seq<Call>
    ghost var clock: nat

    ghost predicate Valid()
      reads this, store
    {
      History(history, max) && Faithful(store.data, history, clock)
    }

    constructor (max: nat)
      ensures Valid() && fresh(store) && this.max == max && history == [] && clock == 0
    {
      store := new Store();
      this.max := max;
      history, clock := [], 0;
    }

    /** `check_rate`: the answer extends the history, which stays one that the window bound speaks about. */
    method CheckRate(ip: string, now: nat) returns (ok: bool)
      requires Valid() && now >= clock
      modifies this, store
      ensures Valid() && clock == now
      ensures history == old(history) + [Call(ip, now, ok)]
    {
      ghost var d0 := store.data;
      FaithfulLater(d0, history, clock, now);
      var current := RateKey(ip, now / 60);
      var previous := RateKey(ip, now / 60 - 1);
      CounterAlive(d0, history, ip, Minute(now), now);
      CounterAlive(d0, history, ip, Minute(now) - 1, now);
      var count := store.Incr(current, now);
      if count == 1 {
        var _ := store.Expire(current, now, 120);
      }
      ghost var d1 := store.data;
      var prev := store.Get(previous, now);
      assert store.data == d1;
      var prevCount := if prev.Some? && prev.value.Whole? then prev.value.n else 0;
      assert prevCount == CallsIn(history, ip, Minute(now) - 1);
      ok := Allowed(prevCount, count, now % 60, max);
      HistoryStep(history, max, Call(ip, now, ok));
      FaithfulStep(d0, d1, history, Call(ip, now, ok));
      history, clock := history + [Call(ip, now, ok)], now;
    }
  }

  lemma FaithfulLater(data: map<Key, Slot>, h: seq<Call>, clock: nat, now: nat)
    requires Faithful(data, h, clock) && clock <= now
    ensures Faithful(data, h, now)
  {
  }

  lemma HistoryStep(h: seq<Call>, max: nat, c: Call)
    requires History(h, max) && (forall i :: 0 <= i < |h| ==> h[i].at <= c.at)
    requires c.ok == Decision(h, c.ip, c.at, max)
    ensures History(h + [c], max)
  {
    var h' := h + [c];
    forall i | 0 <= i < |h'|
      ensures Decided(h', i, max)
    {
      if i < |h| {
        assert h'[..i] == h[..i];
        assert Decided(h, i, max);
      } else {
        assert h'[..i] == h;
      }
    }
  }

  lemma FaithfulStep(d0: map<Key, Slot>, d1: map<Key, Slot>, h: seq<Call>, c: Call)
    requires Faithful(d0, h, c.at)
    requires var k := RateKey(c.ip, Minute(c.at));
             var n := CallsIn(h, c.ip, Minute(c.at)) + 1;
             d1 == d0[k := Slot(Whole(n), if n == 1 then Some(c.at + 120) else if k in d0 then d0[k].expires else None)]
    ensures Faithful(d1, h + [c], c.at)
  {
    var h' := h + [c];
    assert h'[..|h|] == h;
    forall ip, m: int | Minute(c.at) - 1 <= m
      ensures CounterOk(d1, h', ip, m)
    {
      assert CounterOk(d0, h, ip, m);
      assert c.at + 120 >= 60 * (Minute(c.at) + 2);
    }
  }
}
