/** How far the pool keeps its limit per destination: the bound is attained, and what evictions have to do with it. */
module PoolLimits {
  import opened Basics
  import opened Pool

  // ----- runs that use every permit there is

  /** Task `t` has got a permit for `d`, with nobody interfering. */
  ghost predicate Acquires(c: Config, s: Sys, s': Sys, t: nat, d: string) {
    var p := Ensure(c, s.core, d);
    && d in p.domains && p.domains[d].sem < |p.free| == |s'.core.free|
    && s'.tasks == s.tasks[t := Holding(d, p.domains[d].sem)] && s'.evictions == s.evictions
    && s'.core.domains == p.domains && s'.core.globalFree == s.core.globalFree - 1
    && s'.core.free[p.domains[d].sem] + 1 == p.free[p.domains[d].sem]
  }

  /** One task acquires a permit for `d` from a state where the entry is missing or has a permit left. */
  lemma AcquireOne(c: Config, s: Sys, t: nat, d: string) returns (states: seq<Sys>, actions: seq<Action>)
    requires WellFormed(s) && t !in s.tasks && s.core.globalFree > 0 && c.maxPerDest >= 1
    requires d in s.core.domains ==> s.core.free[s.core.domains[d].sem] > 0
    ensures IsRun(c, states, actions) && states[0] == s
    ensures WellFormed(states[|actions|]) && Acquires(c, s, states[|actions|], t, d)
  {
    var s1 := Apply(c, s, Begin(t, d));
    var s2 := Apply(c, s1, TakeGlobal(t));
    WellFormedKept(c, s, Begin(t, d));
    WellFormedKept(c, s1, TakeGlobal(t));
    var s3 := Apply(c, s2, Lookup(t));
    WellFormedKept(c, s2, Lookup(t));
    LookedUp(c, s, s2, t, d);
    var s4 := Apply(c, s3, TakeDomain(t));
    WellFormedKept(c, s3, TakeDomain(t));
    states := [s, s1, s2, s3, s4];
    actions := [Begin(t, d), TakeGlobal(t), Lookup(t), TakeDomain(t)];
  }

  lemma LookedUp(c: Config, s: Sys, s2: Sys, t: nat, d: string)
    requires WellFormed(s) && s.core.globalFree > 0 && c.maxPerDest >= 1
    requires d in s.core.domains ==> s.core.free[s.core.domains[d].sem] > 0
    requires s2 == Sys(s.core.(globalFree := s.core.globalFree - 1), s.tasks[t := HasGlobal(d)], s.evictions)
    ensures var s3 := Apply(c, s2, Lookup(t));
            Enabled(s3, TakeDomain(t)) && Acquires(c, s, Apply(c, s3, TakeDomain(t)), t, d)
  {
    EnsureFacts(c, s.core, d);
    var k := Ensure(c, s.core, d).domains[d].sem;
    assert s.tasks[t := HasGlobal(d)][t := WantDomain(d, k)][t := Holding(d, k)] == s.tasks[t := Holding(d, k)];
  }

  lemma ConcatRuns(c: Config, s1: seq<Sys>, a1: seq<Action>, s2: seq<Sys>, a2: seq<Action>)
    requires IsRun(c, s1, a1) && IsRun(c, s2, a2) && s1[|a1|] == s2[0]
    ensures IsRun(c, s1 + s2[1..], a1 + a2) && (s1 + s2[1..])[0] == s1[0]
    ensures (s1 + s2[1..])[|a1 + a2|] == s2[|a2|]
  {
    var s, a := s1 + s2[1..], a1 + a2;
    forall i | 0 <= i < |a|
      ensures Enabled(s[i], a[i]) && s[i + 1] == Apply(c, s[i], a[i])
    {
      if i < |a1| {
        assert s[i] == s1[i] && s[i + 1] == s1[i + 1] && a[i] == a1[i];
      } else {
        assert s[i] == s2[i - |a1|] && s[i + 1] == s2[i + 1 - |a1|] && a[i] == a2[i - |a1|];
      }
    }
  }

  function Numbers(n: nat): (r: set<nat>)
    ensures |r| == n && forall t: nat :: t in r <==> t < n
  {
    if n == 0 then {} else Numbers(n - 1) + {n - 1}
  }

  /** Tasks 0 to h - 1 hold permits for `d`, and there are no others. */
  ghost predicate AllHold(tasks: map<nat, Pc>, d: string, h: nat) {
    && (forall t: nat :: t in tasks <==> t < h)
    && (forall t :: t in tasks ==> tasks[t].Holding? && tasks[t].d == d)
  }

  lemma HoldOneMore(tasks: map<nat, Pc>, d: string, h: nat, k: nat)
    requires AllHold(tasks, d, h)
    ensures AllHold(tasks[h := Holding(d, k)], d, h + 1)
  {
  }

  /** The only entry is that of `d`; nothing is idle and `left` permits remain in its semaphore. */
  ghost predicate OnlyEntry(p: Core, d: string, left: nat) {
    && p.domains.Keys == {d} && p.domains[d].idle == []
    && p.domains[d].sem < |p.free| && p.free[p.domains[d].sem] == left
  }

  ghost predicate Crowded(c: Config, s: Sys, d: string, h: nat, left: nat, evictions: nat) {
    && WellFormed(s) && AllHold(s.tasks, d, h) && OnlyEntry(s.core, d, left)
    && s.core.globalFree + h == c.maxConnections && EvictionsOf(s, d) == evictions
  }

  /** Nobody's entry is left, and `h` tasks hold permits. */
  ghost predicate Emptied(c: Config, s: Sys, d: string, h: nat, evictions: nat) {
    && WellFormed(s) && AllHold(s.tasks, d, h) && s.core.domains == map[]
    && s.core.globalFree + h == c.maxConnections && EvictionsOf(s, d) == evictions
  }

  lemma OneMore(c: Config, s: Sys, s': Sys, d: string, h: nat, left: nat, evictions: nat)
    requires left >= 1 && Crowded(c, s, d, h, left, evictions) && Acquires(c, s, s', h, d) && WellFormed(s')
    ensures Crowded(c, s', d, h + 1, left - 1, evictions)
  {
    HoldOneMore(s.tasks, d, h, s.core.domains[d].sem);
  }

  lemma FirstOne(c: Config, s: Sys, s': Sys, d: string, h: nat, evictions: nat)
    requires c.maxPerDest >= 1 && Emptied(c, s, d, h, evictions) && Acquires(c, s, s', h, d) && WellFormed(s')
    ensures Crowded(c, s', d, h + 1, c.maxPerDest - 1, evictions)
  {
    HoldOneMore(s.tasks, d, h, |s.core.free|);
    NewEntry(c, s.core, s'.core, d);
  }

  lemma NewEntry(c: Config, p: Core, p': Core, d: string)
    requires p.domains == map[] && p'.domains == Ensure(c, p, d).domains
    requires |p'.free| == |p.free| + 1 && p'.free[|p.free|] + 1 == c.maxPerDest
    ensures OnlyEntry(p', d, c.maxPerDest - 1)
  {
    assert p'.domains == map[d := DomainPool([], |p.free|)];
  }

  lemma Evict(c: Config, s: Sys, d: string, h: nat, left: nat, evictions: nat)
    requires Crowded(c, s, d, h, left, evictions)
    ensures Emptied(c, Apply(c, s, CleanUp(0)), d, h, evictions + 1)
  {
    WellFormedKept(c, s, CleanUp(0));
    assert UsableOnes(c, [], 0) == [];
    assert d !in Swept(c, s.core.domains, 0);
  }

  /** A run from the start, and where it ends. */
  ghost predicate Reaches(c: Config, states: seq<Sys>, actions: seq<Action>, s: Sys) {
    IsRun(c, states, actions) && states[0] == Start(c) && states[|actions|] == s
  }

  lemma ReachOneMore(c: Config, states: seq<Sys>, actions: seq<Action>, s: Sys, t: nat, d: string)
    returns (states': seq<Sys>, actions': seq<Action>, s': Sys)
    requires Reaches(c, states, actions, s) && WellFormed(s) && t !in s.tasks && s.core.globalFree > 0
    requires c.maxPerDest >= 1 && (d in s.core.domains ==> s.core.free[s.core.domains[d].sem] > 0)
    ensures Reaches(c, states', actions', s') && WellFormed(s') && Acquires(c, s, s', t, d)
  {
    var more, acts := AcquireOne(c, s, t, d);
    ConcatRuns(c, states, actions, more, acts);
    states', actions', s' := states + more[1..], actions + acts, more[|acts|];
  }

  lemma ReachNext(c: Config, states: seq<Sys>, actions: seq<Action>, s: Sys, d: string, h: nat, left: nat,
                  evictions: nat)
    returns (states': seq<Sys>, actions': seq<Action>, s': Sys)
    requires Reaches(c, states, actions, s) && Crowded(c, s, d, h, left, evictions)
    requires left >= 1 && h < c.maxConnections && c.maxPerDest >= 1
    ensures Reaches(c, states', actions', s') && Crowded(c, s', d, h + 1, left - 1, evictions)
  {
    states', actions', s' := ReachOneMore(c, states, actions, s, h, d);
    OneMore(c, s, s', d, h, left, evictions);
  }

  lemma ReachFirst(c: Config, states: seq<Sys>, actions: seq<Action>, s: Sys, d: string, h: nat, evictions: nat)
    returns (states': seq<Sys>, actions': seq<Action>, s': Sys)
    requires Reaches(c, states, actions, s) && Emptied(c, s, d, h, evictions)
    requires h < c.maxConnections && c.maxPerDest >= 1
    ensures Reaches(c, states', actions', s') && Crowded(c, s', d, h + 1, c.maxPerDest - 1, evictions)
  {
    states', actions', s' := ReachOneMore(c, states, actions, s, h, d);
    FirstOne(c, s, s', d, h, evictions);
  }

  lemma ReachEvicted(c: Config, states: seq<Sys>, actions: seq<Action>, s: Sys)
    returns (states': seq<Sys>, actions': seq<Action>)
    requires Reaches(c, states, actions, s)
    ensures Reaches(c, states', actions', Apply(c, s, CleanUp(0)))
  {
    var s' := Apply(c, s, CleanUp(0));
    ConcatRuns(c, states, actions, [s, s'], [CleanUp(0)]);
    states', actions' := states + [s, s'][1..], actions + [CleanUp(0)];
  }

  /**
    For every number of evictions e and every j from 1 to the limit, as far as the global limit allows, a run with
    exactly e evictions of the destination and e * limit + j permits out for it.
  */
  lemma LimitAttained(c: Config, d: string, e: nat, j: nat)
    returns (states: seq<Sys>, actions: seq<Action>, s: Sys)
    requires 1 <= j <= c.maxPerDest && e * c.maxPerDest + j <= c.maxConnections
    ensures Reaches(c, states, actions, s)
    ensures |HoldersFor(s, d)| == e * c.maxPerDest + j && EvictionsOf(s, d) == e
  {
    SumIs(c, e);
    states, actions, s := ReachCrowded(c, d, e, j, Sum(c, e) + j, c.maxPerDest - j);
    CrowdedHolders(c, s, d, e * c.maxPerDest + j, c.maxPerDest - j, e);
  }

  /** The permits of `e` full semaphores. */
  function Sum(c: Config, e: nat): nat {
    if e == 0 then 0 else Sum(c, e - 1) + c.maxPerDest
  }

  lemma {:induction false} SumIs(c: Config, e: nat)
    ensures Sum(c, e) == e * c.maxPerDest
  {
    if e > 0 {
      SumIs(c, e - 1);
      assert (e - 1) * c.maxPerDest + c.maxPerDest == e * c.maxPerDest;
    }
  }

  lemma {:induction false} ReachCrowded(c: Config, d: string, e: nat, j: nat, h: nat, left: nat)
    returns (states: seq<Sys>, actions: seq<Action>, s: Sys)
    requires j >= 1 && j + left == c.maxPerDest && h == Sum(c, e) + j <= c.maxConnections
    ensures Reaches(c, states, actions, s) && Crowded(c, s, d, h, left, e)
    decreases e, j
  {
    var before;
    if j > 1 {
      states, actions, before := ReachCrowded(c, d, e, j - 1, h - 1, left + 1);
      states, actions, s := ReachNext(c, states, actions, before, d, h - 1, left + 1, e);
    } else {
      states, actions, before := ReachEmptied(c, d, e, h - 1);
      states, actions, s := ReachFirst(c, states, actions, before, d, h - 1, e);
    }
  }

  lemma CrowdedHolders(c: Config, s: Sys, d: string, h: nat, left: nat, evictions: nat)
    requires Crowded(c, s, d, h, left, evictions)
    ensures |HoldersFor(s, d)| == h
  {
    assert HoldersFor(s, d) == Numbers(h);
  }

  lemma {:induction false} ReachEmptied(c: Config, d: string, e: nat, h: nat)
    returns (states: seq<Sys>, actions: seq<Action>, s: Sys)
    requires c.maxPerDest >= 1 && h == Sum(c, e) <= c.maxConnections
    ensures Reaches(c, states, actions, s) && Emptied(c, s, d, h, e)
    decreases e, 0
  {
    if e == 0 {
      states, actions, s := [Start(c)], [], Start(c);
      StartInv(c);
    } else {
      var before;
      states, actions, before := ReachCrowded(c, d, e - 1, c.maxPerDest, h, 0);
      states, actions := ReachEvicted(c, states, actions, before);
      s := Apply(c, before, CleanUp(0));
      Evict(c, before, d, h, 0, e - 1);
    }
  }

  // ----- when the plain limit can be broken

  /** A run that ends with more permits out for `d` than the limit per destination. */
  ghost predicate OverLimit(c: Config, d: string, states: seq<Sys>, actions: seq<Action>) {
    IsRun(c, states, actions) && states[0] == Start(c) && |HoldersFor(states[|actions|], d)| > c.maxPerDest
  }

  lemma HoldersOwnGlobal(s: Sys, d: string)
    ensures |HoldersFor(s, d)| <= |GlobalOwners(s)|
  {
    assert HoldersFor(s, d) <= GlobalOwners(s);
    SubsetSize(HoldersFor(s, d), GlobalOwners(s));
  }

  /** Without an eviction, or when the global limit is no larger, the plain limit per destination holds. */
  lemma LimitKept(c: Config, states: seq<Sys>, actions: seq<Action>, d: string)
    requires IsRun(c, states, actions) && states[0] == Start(c)
    requires EvictionsOf(states[|actions|], d) == 0 || c.maxConnections <= c.maxPerDest
    ensures |HoldersFor(states[|actions|], d)| <= c.maxPerDest
  {
    Limits(c, states, actions, d);
    HoldersOwnGlobal(states[|actions|], d);
  }

  /**
    Some run breaks the limit per destination if and only if that limit is positive and below the global one; one
    eviction is then enough.
  */
  lemma LimitBreaksExactly(c: Config, d: string)
    ensures (exists states, actions :: OverLimit(c, d, states, actions)) <==> 1 <= c.maxPerDest < c.maxConnections
    ensures 1 <= c.maxPerDest < c.maxConnections ==>
      exists states, actions :: OverLimit(c, d, states, actions) && EvictionsOf(states[|actions|], d) == 1
  {
    if states, actions :| OverLimit(c, d, states, actions) {
      Limits(c, states, actions, d);
      HoldersOwnGlobal(states[|actions|], d);
    }
    if 1 <= c.maxPerDest < c.maxConnections {
      var states, actions, s := LimitAttained(c, d, 1, 1);
      assert OverLimit(c, d, states, actions);
    }
  }

  // ----- what the comment on the clean-up promises

  /** Some task holds or waits for a permit of the destination's semaphore. */
  ghost predicate InUse(s: Sys, d: string) {
    exists t :: t in s.tasks && (s.tasks[t].WantDomain? || s.tasks[t].Holding?) && s.tasks[t].d == d
  }

  /** The clean-up drops no entry in use. */
  ghost predicate Careful(c: Config, s: Sys, a: Action) {
    a.CleanUp? ==> forall d :: d in s.core.domains && d !in Swept(c, s.core.domains, a.now) ==> !InUse(s, d)
  }

  /** Every permit held or awaited belongs to the present entry of its destination. */
  ghost predicate Current(s: Sys) {
    forall t :: t in s.tasks && (s.tasks[t].WantDomain? || s.tasks[t].Holding?) ==>
      s.tasks[t].d in s.core.domains && s.core.domains[s.tasks[t].d].sem == s.tasks[t].sem
  }

  lemma CurrentKept(c: Config, s: Sys, a: Action)
    requires Current(s) && Enabled(s, a) && Careful(c, s, a)
    ensures Current(Apply(c, s, a))
  {
  }

  lemma {:induction false} RunCurrent(c: Config, states: seq<Sys>, actions: seq<Action>)
    requires IsRun(c, states, actions) && states[0] == Start(c)
    requires forall i :: 0 <= i < |actions| ==> Careful(c, states[i], actions[i])
    ensures Current(states[|actions|])
    decreases |actions|
  {
    if actions != [] {
      var n := |actions| - 1;
      RunCurrent(c, states[..n + 1], actions[..n]);
      CurrentKept(c, states[n], actions[n]);
    }
  }

  /** If clean-ups kept entries with outstanding permits, as the comment says, the plain limit would always hold. */
  lemma CarefulRunsKeepLimit(c: Config, states: seq<Sys>, actions: seq<Action>, d: string)
    requires IsRun(c, states, actions) && states[0] == Start(c)
    requires forall i :: 0 <= i < |actions| ==> Careful(c, states[i], actions[i])
    ensures |HoldersFor(states[|actions|], d)| <= c.maxPerDest
  {
    RunCurrent(c, states, actions);
    StartInv(c);
    RunInv(c, states, actions);
    var s := states[|actions|];
    if d in s.core.domains {
      var k := s.core.domains[d].sem;
      assert HoldersFor(s, d) <= HoldersOf(s, k);
      SubsetSize(HoldersFor(s, d), HoldersOf(s, k));
    } else {
      assert HoldersFor(s, d) == {};
    }
  }
}
