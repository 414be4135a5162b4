/** The pool object: the mutex-guarded map and semaphores of crates/sentio-smtp-client/src/pool.rs. */
module PoolObject {
  import opened Basics
  import opened Pool
  import opened PoolReuse

  /** Idle connections over all domains. */
  ghost function TotalIdle(m: map<string, DomainPool>): nat {
    if m == map[] then 0 else var d :| d in m; |m[d].idle| + TotalIdle(m - {d})
  }

  lemma {:induction false} TotalIdleWithout(m: map<string, DomainPool>, d: string)
    requires d in m
    ensures TotalIdle(m) == |m[d].idle| + TotalIdle(m - {d})
    decreases |m|
  {
    var k :| k in m && TotalIdle(m) == |m[k].idle| + TotalIdle(m - {k});
    if k != d {
      assert |m - {k}| < |m| by { assert (m - {k}).Keys == m.Keys - {k}; }
      assert |m - {d}| < |m| by { assert (m - {d}).Keys == m.Keys - {d}; }
      TotalIdleWithout(m - {k}, d);
      TotalIdleWithout(m - {d}, k);
      assert m - {k} - {d} == m - {d} - {k};
    }
  }

  lemma {:induction false} UsableOnesShorter(c: Config, idle: seq<IdleConn>, now: nat)
    ensures |UsableOnes(c, idle, now)| <= |idle|
    ensures forall x :: x in UsableOnes(c, idle, now) <==> x in idle && Usable(c, x, now)
  {
    if idle != [] {
      UsableOnesShorter(c, idle[..|idle| - 1], now);
      assert idle == idle[..|idle| - 1] + [idle[|idle| - 1]];
    }
  }

  lemma SweptAdd(c: Config, m: map<string, DomainPool>, d: string, p: DomainPool, now: nat)
    requires d !in m
    ensures var usable := UsableOnes(c, p.idle, now);
            Swept(c, m[d := p], now)
            == if usable == [] then Swept(c, m, now) else Swept(c, m, now)[d := p.(idle := usable)]
  {
  }

  lemma TotalIdleAdd(m: map<string, DomainPool>, d: string, p: DomainPool)
    requires d !in m
    ensures TotalIdle(m[d := p]) == TotalIdle(m) + |p.idle|
  {
    TotalIdleWithout(m[d := p], d);
    assert m[d := p] - {d} == m;
  }

  /** Part of the sweep is done: `seen` has been reduced to `kept`, `left` is still to come. */
  ghost predicate Sweeping(c: Config, all: map<string, DomainPool>, seen: map<string, DomainPool>,
                           left: map<string, DomainPool>, kept: map<string, DomainPool>, removed: nat, now: nat) {
    && SplitInto(all, seen, left)
    && kept == Swept(c, seen, now)
    && removed + TotalIdle(left) + TotalIdle(kept) == TotalIdle(all)
  }

  ghost predicate SplitInto(all: map<string, DomainPool>, seen: map<string, DomainPool>,
                            left: map<string, DomainPool>) {
    && seen.Keys !! left.Keys && all.Keys == seen.Keys + left.Keys
    && (forall d :: d in seen ==> seen[d] == all[d]) && (forall d :: d in left ==> left[d] == all[d])
  }

  lemma SplitStep(all: map<string, DomainPool>, seen: map<string, DomainPool>, left: map<string, DomainPool>, d: string)
    requires SplitInto(all, seen, left) && d in left
    ensures d !in seen && SplitInto(all, seen[d := left[d]], left - {d})
  {
  }

  lemma SweepStep(c: Config, all: map<string, DomainPool>, seen: map<string, DomainPool>,
                  left: map<string, DomainPool>, kept: map<string, DomainPool>, removed: nat, now: nat, d: string)
    requires Sweeping(c, all, seen, left, kept, removed, now) && d in left
    ensures var usable := UsableOnes(c, left[d].idle, now);
            && |usable| <= |left[d].idle|
            && Sweeping(c, all, seen[d := left[d]], left - {d},
                        if usable == [] then kept else kept[d := left[d].(idle := usable)],
                        removed + |left[d].idle| - |usable|, now)
  {
    var usable := UsableOnes(c, left[d].idle, now);
    SplitStep(all, seen, left, d);
    UsableOnesShorter(c, left[d].idle, now);
    TotalIdleWithout(left, d);
    SweptAdd(c, seen, d, left[d], now);
    TotalIdleAdd(kept, d, left[d].(idle := usable));
  }

  lemma SweepDone(c: Config, all: map<string, DomainPool>, seen: map<string, DomainPool>,
                  left: map<string, DomainPool>, kept: map<string, DomainPool>, removed: nat, now: nat)
    requires Sweeping(c, all, seen, left, kept, removed, now) && left.Keys == {}
    ensures kept == Swept(c, all, now) && removed == TotalIdle(all) - TotalIdle(kept)
  {
    assert left == map[];
    assert seen == all;
  }

  /** The pool with no task under way. */
  ghost function Alone(p: Core): Sys {
    Sys(p, map[], map[])
  }

  ghost function Try(c: Config, s: Sys, a: Action): Sys {
    if Enabled(s, a) then Apply(c, s, a) else s
  }

  /** One task runs `acquire_permit` until it is done or has to wait. */
  ghost function Advance(c: Config, s: Sys, t: nat, d: string): Sys {
    Try(c, Try(c, Try(c, Try(c, s, Begin(t, d)), TakeGlobal(t)), Lookup(t)), TakeDomain(t))
  }

  ghost predicate Entries(p: Core) {
    && |p.free| == |p.owner|
    && forall d :: d in p.domains ==> p.domains[d].sem < |p.owner| && p.owner[p.domains[d].sem] == d
  }

  lemma AdvanceBlocked(c: Config, p: Core, d: string)
    requires p.globalFree == 0
    ensures var s := Advance(c, Alone(p), 0, d); s.core == p && PcOf(s, 0) == WantGlobal(d)
  {
  }

  lemma AdvanceOn(c: Config, p: Core, d: string, k: nat)
    requires Entries(p) && p.globalFree > 0 && d in Ensure(c, p, d).domains && k == Ensure(c, p, d).domains[d].sem
    ensures var q := Ensure(c, p.(globalFree := p.globalFree - 1), d);
            var s := Advance(c, Alone(p), 0, d);
            && k < |q.free|
            && if q.free[k] > 0 then s.core == q.(free := q.free[k := q.free[k] - 1]) && PcOf(s, 0) == Holding(d, k)
               else s.core == q && PcOf(s, 0) == WantDomain(d, k)
  {
    EnsureFacts(c, p, d);
    var s := Try(c, Try(c, Alone(p), Begin(0, d)), TakeGlobal(0));
    assert s == Sys(p.(globalFree := p.globalFree - 1), map[0 := HasGlobal(d)], map[]);
  }

  class ConnectionPool {
    const config: Config
    var globalFree: nat
    var domains: map<string, DomainPool>
    var free: seq<nat>
    ghost var owner: seq<string>

    ghost function State(): Core
      reads this
    {
      Core(globalFree, domains, free, owner)
    }

    constructor (config: Config)
      ensures this.config == config && State() == Start(config).core
    {
      this.config := config;
      globalFree, domains, free, owner := config.maxConnections, map[], [], [];
    }

    /** Find or create the entry of a domain. */
    method EnsureEntry(d: string)
      modifies this
      ensures State() == Ensure(config, old(State()), d)
    {
      if d !in domains {
        domains := domains[d := DomainPool([], |free|)];
        free := free + [config.maxPerDest];
        owner := owner + [d];
      }
    }

    /** The lookup inside `acquire_permit`, between the two semaphores. */
    method SemaphoreFor(d: string) returns (k: nat)
      modifies this
      ensures State() == Ensure(config, old(State()), d)
      ensures d in domains && k == domains[d].sem
    {
      EnsureEntry(d);
      k := domains[d].sem;
    }

    /** One permit of the global semaphore, if there is one; otherwise the task keeps waiting. */
    method TryGlobal() returns (ok: bool)
      modifies this`globalFree
      ensures ok == (old(globalFree) > 0)
      ensures State() == if ok then old(State()).(globalFree := old(globalFree) - 1) else old(State())
    {
      ok := globalFree > 0;
      if ok { globalFree := globalFree - 1; }
    }

    method TryDomain(k: nat) returns (ok: bool)
      requires k < |free|
      modifies this`free
      ensures ok == (old(free)[k] > 0)
      ensures State() == if ok then old(State()).(free := old(free)[k := old(free)[k] - 1]) else old(State())
    {
      ok := free[k] > 0;
      if ok { free := free[k := free[k] - 1]; }
    }

    /**
      `acquire_permit`, as far as it gets without waiting: blocked on the global semaphore, waiting for the domain's
      with the global permit in hand, or done. The steps are those of the transition system.
    */
    method AcquirePermit(d: string) returns (pc: Pc)
      requires Entries(State())
      modifies this
      ensures var s := Advance(config, Alone(old(State())), 0, d); State() == s.core && pc == PcOf(s, 0)
    {
      ghost var p := State();
      var ok := TryGlobal();
      if !ok {
        AdvanceBlocked(config, p, d);
        return WantGlobal(d);
      }
      var k := SemaphoreFor(d);
      AdvanceOn(config, p, d, k);
      var got := TryDomain(k);
      pc := if got then Holding(d, k) else WantDomain(d, k);
    }

    /** Dropping a `PoolPermit` gives back both permits, the domain one to the semaphore it came from. */
    method DropPermit(k: nat)
      requires k < |free|
      modifies this`globalFree, this`free
      ensures State() == old(State()).(globalFree := old(globalFree) + 1, free := old(free)[k := old(free)[k] + 1])
    {
      globalFree := globalFree + 1;
      free := free[k := free[k] + 1];
    }

    /** `checkin_with_age`. */
    method CheckInWithAge(d: string, stream: nat, createdAt: nat, now: nat)
      modifies this
      ensures State() == CheckedIn(config, old(State()), d, IdleConn(stream, createdAt, now))
      ensures Joined(config, old(State()), State(), d, IdleConn(stream, createdAt, now))
    {
      EnsureEntry(d);
      domains := domains[d := domains[d].(idle := domains[d].idle + [IdleConn(stream, createdAt, now)])];
    }

    /** `checkin`: the age restarts, so a returned connection is usable again however long it has been open. */
    method CheckInConn(d: string, stream: nat, now: nat)
      modifies this
      ensures State() == CheckedIn(config, old(State()), d, IdleConn(stream, now, now))
      ensures Joined(config, old(State()), State(), d, IdleConn(stream, now, now))
      ensures config.idleTimeout > 0 && config.maxAge > 0 ==>
        Usable(config, domains[d].idle[|domains[d].idle| - 1], now)
    {
      CheckInWithAge(d, stream, now, now);
    }

    /** `checkout`: the most recently returned usable connection; everything returned after it was stale. */
    method CheckOutConn(d: string, now: nat) returns (r: Option<nat>)
      modifies this
      ensures State() == CheckedOut(config, old(State()), d, now)
      ensures d in old(domains) ==>
        var taken := Taken(config, old(domains)[d].idle, now);
        r == if taken.Some? then Some(taken.value.stream) else None
      ensures d !in old(domains) ==> r == None
      ensures r.Some? ==>
        && d in old(domains)
        && var idle := old(domains)[d].idle;
           exists i :: 0 <= i < |idle| && r.value == idle[i].stream && Usable(config, idle[i], now)
             && domains[d].idle == idle[..i] && forall j :: i < j < |idle| ==> !Usable(config, idle[j], now)
      ensures r.None? && d in old(domains) ==>
        && domains[d].idle == []
        && forall j :: 0 <= j < |old(domains)[d].idle| ==> !Usable(config, old(domains)[d].idle[j], now)
    {
      if d !in domains { return None; }
      var pool := domains[d];
      var n := |pool.idle|;
      r := None;
      assert pool.idle[..n] == pool.idle;
      while n > 0 && r.None?
        invariant 0 <= n <= |pool.idle|
        invariant r.None? ==> LeftIdle(config, pool.idle, now) == LeftIdle(config, pool.idle[..n], now)
        invariant r.None? ==> Taken(config, pool.idle, now) == Taken(config, pool.idle[..n], now)
        invariant r.Some? ==> var x := Taken(config, pool.idle, now); x.Some? && x.value.stream == r.value
        invariant r.Some? ==> n < |pool.idle| && r.value == pool.idle[n].stream && Usable(config, pool.idle[n], now)
                              && LeftIdle(config, pool.idle, now) == pool.idle[..n]
        invariant forall j :: (if r.Some? then n + 1 else n) <= j < |pool.idle| ==> !Usable(config, pool.idle[j], now)
        decreases n, r.None?
      {
        n := n - 1;
        assert pool.idle[..n + 1][..n] == pool.idle[..n];
        if Usable(config, pool.idle[n], now) {
          r := Some(pool.idle[n].stream);
        }
      }
      domains := domains[d := pool.(idle := pool.idle[..n])];
    }

    /** `cleanup_expired`: sweep every entry and count what was dropped. */
    method CleanUpExpired(now: nat) returns (removed: nat)
      modifies this
      ensures State() == old(State()).(domains := Swept(config, old(domains), now))
      ensures removed == TotalIdle(old(domains)) - TotalIdle(domains)
    {
      domains, removed := SweepAll(domains, now);
    }

    method SweepAll(all: map<string, DomainPool>, now: nat) returns (kept: map<string, DomainPool>, removed: nat)
      ensures kept == Swept(config, all, now)
      ensures removed == TotalIdle(all) - TotalIdle(kept)
    {
      kept, removed := map[], 0;
      var left := all;
      ghost var seen: map<string, DomainPool> := map[];
      while left.Keys != {}
        invariant Sweeping(config, all, seen, left, kept, removed, now)
        decreases left.Keys
      {
        var d :| d in left;
        SweepStep(config, all, seen, left, kept, removed, now, d);
        var usable := UsableOnesOf(left[d].idle, now);
        removed := removed + |left[d].idle| - |usable|;
        if usable != [] {
          kept := kept[d := left[d].(idle := usable)];
        }
        seen := seen[d := left[d]];
        left := left - {d};
      }
      SweepDone(config, all, seen, left, kept, removed, now);
    }

    method UsableOnesOf(idle: seq<IdleConn>, now: nat) returns (r: seq<IdleConn>)
      ensures r == UsableOnes(config, idle, now)
    {
      r := [];
      for i := 0 to |idle|
        invariant r == UsableOnes(config, idle[..i], now)
      {
        assert idle[..i + 1][..i] == idle[..i];
        if Usable(config, idle[i], now) {
          r := r + [idle[i]];
        }
      }
      assert idle[..|idle|] == idle;
    }
  }
}
