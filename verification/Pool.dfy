/**
  The outbound connection pool: crates/sentio-smtp-client/src/pool.rs. Semaphores have identities, because an
  evicted domain entry is re-created with a new one while old permits still refer to the old one.
*/
module Pool {
  import opened Basics

  datatype Config = Config(maxConnections: nat, maxPerDest: nat, idleTimeout: nat, maxAge: nat)

  datatype IdleConn = IdleConn(stream: nat, createdAt: nat, lastUsed: nat)

  datatype DomainPool = DomainPool(idle: seq<IdleConn>, sem: nat)

  /** `free[k]` permits are left in domain semaphore `k`, which was created for `owner[k]`. */
  datatype Core = Core(
    globalFree: nat,
    domains: map<string, DomainPool>,
    free: seq<nat>,
    owner: seq<string>)

  function Age(now: nat, since: nat): nat {
    if since <= now then now - since else 0
  }

  predicate Usable(c: Config, x: IdleConn, now: nat) {
    Age(now, x.lastUsed) < c.idleTimeout && Age(now, x.createdAt) < c.maxAge
  }

  function UsableOnes(c: Config, idle: seq<IdleConn>, now: nat): seq<IdleConn> {
    if idle == [] then []
    else
      var last := idle[|idle| - 1];
      UsableOnes(c, idle[..|idle| - 1], now) + if Usable(c, last, now) then [last] else []
  }

  /** `entry(domain).or_insert_with(..)`. */
  function Ensure(c: Config, p: Core, d: string): Core {
    if d in p.domains then p
    else p.(domains := p.domains[d := DomainPool([], |p.free|)],
            free := p.free + [c.maxPerDest],
            owner := p.owner + [d])
  }

  function CheckedIn(c: Config, p: Core, d: string, x: IdleConn): Core {
    var p1 := Ensure(c, p, d);
    p1.(domains := p1.domains[d := p1.domains[d].(idle := p1.domains[d].idle + [x])])
  }

  /** What a checkout returns: the newest usable connection. */
  function Taken(c: Config, idle: seq<IdleConn>, now: nat): (r: Option<IdleConn>)
    ensures r.Some? ==> r.value in idle && Usable(c, r.value, now)
  {
    if idle == [] then None
    else if Usable(c, idle[|idle| - 1], now) then Some(idle[|idle| - 1])
    else Taken(c, idle[..|idle| - 1], now)
  }

  /** What a checkout leaves idle: everything before the newest usable connection. */
  function LeftIdle(c: Config, idle: seq<IdleConn>, now: nat): seq<IdleConn> {
    if idle == [] then []
    else if Usable(c, idle[|idle| - 1], now) then idle[..|idle| - 1]
    else LeftIdle(c, idle[..|idle| - 1], now)
  }

  function CheckedOut(c: Config, p: Core, d: string, now: nat): Core {
    if d !in p.domains then p
    else p.(domains := p.domains[d := p.domains[d].(idle := LeftIdle(c, p.domains[d].idle, now))])
  }

  /** Entries with nothing usable idle are dropped, whether or not permits are out. */
  function Swept(c: Config, m: map<string, DomainPool>, now: nat): map<string, DomainPool> {
    map d | d in m && UsableOnes(c, m[d].idle, now) != [] :: m[d].(idle := UsableOnes(c, m[d].idle, now))
  }

  // ----- tasks interleaving on the pool

  /** Where a task is inside `acquire_permit`, or that it holds a permit. */
  datatype Pc =
    | Outside
    | WantGlobal(d: string)
    | HasGlobal(d: string)
    | WantDomain(d: string, sem: nat)
    | Holding(d: string, sem: nat)
  {
    predicate Waiting() {
      WantGlobal? || HasGlobal? || WantDomain?
    }

    predicate OwnsGlobal() {
      HasGlobal? || WantDomain? || Holding?
    }
  }

  datatype Sys = Sys(core: Core, tasks: map<nat, Pc>, evictions: map<string, nat>)

  datatype Action =
    | Begin(t: nat, dest: string)
    | TakeGlobal(t: nat)
    | Lookup(t: nat)
    | TakeDomain(t: nat)
    | Release(t: nat)                   // drop of a PoolPermit
    | Abandon(t: nat)                   // drop of a pending acquisition, as a timeout does
    | CheckIn(dest: string, conn: IdleConn)
    | CheckOut(dest: string, now: nat)
    | CleanUp(now: nat)

  function PcOf(s: Sys, t: nat): Pc {
    if t in s.tasks then s.tasks[t] else Outside
  }

  function EvictionsOf(s: Sys, d: string): nat {
    if d in s.evictions then s.evictions[d] else 0
  }

  predicate Enabled(s: Sys, a: Action) {
    match a
    case Begin(t, _) => PcOf(s, t).Outside?
    case TakeGlobal(t) => PcOf(s, t).WantGlobal? && s.core.globalFree > 0
    case Lookup(t) => PcOf(s, t).HasGlobal?
    case TakeDomain(t) => PcOf(s, t).WantDomain? && PcOf(s, t).sem < |s.core.free| && s.core.free[PcOf(s, t).sem] > 0
    case Release(t) => PcOf(s, t).Holding? && PcOf(s, t).sem < |s.core.free|
    case Abandon(t) => PcOf(s, t).Waiting()
    case _ => true
  }

  function MoveTo(s: Sys, t: nat, pc: Pc): Sys {
    s.(tasks := s.tasks[t := pc])
  }

  function Apply(c: Config, s: Sys, a: Action): Sys
    requires Enabled(s, a)
  {
    var p := s.core;
    match a
    case Begin(t, d) => MoveTo(s, t, WantGlobal(d))
    case TakeGlobal(t) =>
      MoveTo(s, t, HasGlobal(s.tasks[t].d)).(core := p.(globalFree := p.globalFree - 1))
    case Lookup(t) =>
      var d := s.tasks[t].d;
      var p1 := Ensure(c, p, d);
      MoveTo(s, t, WantDomain(d, p1.domains[d].sem)).(core := p1)
    case TakeDomain(t) =>
      var k := s.tasks[t].sem;
      MoveTo(s, t, Holding(s.tasks[t].d, k)).(core := p.(free := p.free[k := p.free[k] - 1]))
    case Release(t) =>
      var k := s.tasks[t].sem;
      MoveTo(s, t, Outside).(core := p.(globalFree := p.globalFree + 1, free := p.free[k := p.free[k] + 1]))
    case Abandon(t) =>
      MoveTo(s, t, Outside).(core := p.(globalFree := p.globalFree + if s.tasks[t].WantGlobal? then 0 else 1))
    case CheckIn(d, x) => s.(core := CheckedIn(c, p, d, x))
    case CheckOut(d, now) => s.(core := CheckedOut(c, p, d, now))
    case CleanUp(now) =>
      var kept := Swept(c, p.domains, now);
      s.(core := p.(domains := kept),
         evictions := map d | d in s.evictions.Keys + p.domains.Keys ::
                        EvictionsOf(s, d) + if d in p.domains && d !in kept then 1 else 0)
  }

  function Start(c: Config): Sys {
    Sys(Core(c.maxConnections, map[], [], []), map[], map[])
  }

  ghost predicate IsRun(c: Config, states: seq<Sys>, actions: seq<Action>) {
    && |states| == |actions| + 1
    && forall i :: 0 <= i < |actions| ==>
         Enabled(states[i], actions[i]) && states[i + 1] == Apply(c, states[i], actions[i])
  }

  // ----- the invariant

  function GlobalOwners(s: Sys): set<nat> {
    set t | t in s.tasks && s.tasks[t].OwnsGlobal()
  }

  function HoldersOf(s: Sys, k: nat): set<nat> {
    set t | t in s.tasks && s.tasks[t].Holding? && s.tasks[t].sem == k
  }

  function HoldersFor(s: Sys, d: string): set<nat> {
    set t | t in s.tasks && s.tasks[t].Holding? && s.tasks[t].d == d
  }

  /** The semaphores ever created for a destination. */
  function SemsFor(p: Core, d: string): set<nat> {
    set k | 0 <= k < |p.owner| && p.owner[k] == d
  }

  ghost predicate WellFormed(s: Sys) {
    && |s.core.free| == |s.core.owner|
    && (forall d :: d in s.core.domains ==>
          s.core.domains[d].sem < |s.core.owner| && s.core.owner[s.core.domains[d].sem] == d)
    && (forall t :: t in s.tasks && (s.tasks[t].WantDomain? || s.tasks[t].Holding?) ==>
          s.tasks[t].sem < |s.core.owner| && s.core.owner[s.tasks[t].sem] == s.tasks[t].d)
  }

  ghost predicate GlobalBalance(c: Config, s: Sys) {
    s.core.globalFree + |GlobalOwners(s)| == c.maxConnections
  }

  ghost predicate DomainBalance(c: Config, s: Sys) {
    forall k :: 0 <= k < |s.core.free| ==> s.core.free[k] + |HoldersOf(s, k)| == c.maxPerDest
  }

  /** A new semaphore is made only for the first entry of a destination or after an eviction. */
  ghost predicate FewSems(s: Sys) {
    forall d :: |SemsFor(s.core, d)| <= EvictionsOf(s, d) + if d in s.core.domains then 1 else 0
  }

  ghost predicate Inv(c: Config, s: Sys) {
    WellFormed(s) && GlobalBalance(c, s) && DomainBalance(c, s) && FewSems(s)
  }

  lemma StartInv(c: Config)
    ensures Inv(c, Start(c))
  {
    assert GlobalOwners(Start(c)) == {};
    forall d
      ensures SemsFor(Start(c).core, d) == {}
    {
    }
  }

  lemma EnsureFacts(c: Config, p: Core, d: string)
    requires |p.free| == |p.owner|
    requires forall d :: d in p.domains ==> p.domains[d].sem < |p.owner| && p.owner[p.domains[d].sem] == d
    ensures var p1 := Ensure(c, p, d);
            && d in p1.domains && p1.domains[d].sem < |p1.owner| && p1.owner[p1.domains[d].sem] == d
            && |p1.free| == |p1.owner| && p.free <= p1.free && p.owner <= p1.owner
            && (forall x :: x in p1.domains ==> p1.domains[x].sem < |p1.owner| && p1.owner[p1.domains[x].sem] == x)
            && (forall x :: x in p1.domains <==> x in p.domains || x == d)
            && (forall x :: SemsFor(p1, x) == SemsFor(p, x) + if x == d && d !in p.domains then {|p.owner|} else {})
            && (d !in p.domains ==> p1.free == p.free + [c.maxPerDest] && |p.owner| !in SemsFor(p, d))
  {
  }

  // One lemma per clause and kind of action keeps each obligation small.

  lemma WellFormedKept(c: Config, s: Sys, a: Action)
    requires WellFormed(s) && Enabled(s, a)
    ensures WellFormed(Apply(c, s, a))
  {
    match a {
      case Lookup(t) => EnsureFacts(c, s.core, s.tasks[t].d);
      case CheckIn(d, _) => EnsureFacts(c, s.core, d);
      case _ =>
    }
  }

  lemma OwnersAfterMove(s: Sys, s': Sys, t: nat)
    requires s'.tasks == s.tasks[t := PcOf(s', t)]
    ensures PcOf(s, t).OwnsGlobal() == PcOf(s', t).OwnsGlobal() ==> GlobalOwners(s') == GlobalOwners(s)
    ensures !PcOf(s, t).OwnsGlobal() && PcOf(s', t).OwnsGlobal() ==> |GlobalOwners(s')| == |GlobalOwners(s)| + 1
    ensures PcOf(s, t).OwnsGlobal() && !PcOf(s', t).OwnsGlobal() ==> |GlobalOwners(s')| == |GlobalOwners(s)| - 1
  {
    if !PcOf(s, t).OwnsGlobal() && PcOf(s', t).OwnsGlobal() {
      assert GlobalOwners(s') == GlobalOwners(s) + {t};
    } else if PcOf(s, t).OwnsGlobal() && !PcOf(s', t).OwnsGlobal() {
      assert GlobalOwners(s') == GlobalOwners(s) - {t};
    } else {
      assert GlobalOwners(s') == GlobalOwners(s);
    }
  }

  predicate HoldsOn(pc: Pc, k: nat) {
    pc.Holding? && pc.sem == k
  }

  lemma HoldersAfterMove(s: Sys, s': Sys, t: nat, k: nat)
    requires s'.tasks == s.tasks[t := PcOf(s', t)]
    ensures HoldsOn(PcOf(s, t), k) == HoldsOn(PcOf(s', t), k) ==> HoldersOf(s', k) == HoldersOf(s, k)
    ensures !HoldsOn(PcOf(s, t), k) && HoldsOn(PcOf(s', t), k) ==> |HoldersOf(s', k)| == |HoldersOf(s, k)| + 1
    ensures HoldsOn(PcOf(s, t), k) && !HoldsOn(PcOf(s', t), k) ==> |HoldersOf(s', k)| == |HoldersOf(s, k)| - 1
  {
    if !HoldsOn(PcOf(s, t), k) && HoldsOn(PcOf(s', t), k) {
      assert HoldersOf(s', k) == HoldersOf(s, k) + {t};
    } else if HoldsOn(PcOf(s, t), k) && !HoldsOn(PcOf(s', t), k) {
      assert HoldersOf(s', k) == HoldersOf(s, k) - {t};
    } else {
      assert HoldersOf(s', k) == HoldersOf(s, k);
    }
  }

  predicate OnTask(a: Action) {
    a.Begin? || a.TakeGlobal? || a.Lookup? || a.TakeDomain? || a.Release? || a.Abandon?
  }

  lemma GlobalBalanceKept(c: Config, s: Sys, a: Action)
    requires GlobalBalance(c, s) && Enabled(s, a)
    ensures GlobalBalance(c, Apply(c, s, a))
  {
    var s' := Apply(c, s, a);
    if OnTask(a) {
      OwnersAfterMove(s, s', a.t);
    } else {
      assert GlobalOwners(s') == GlobalOwners(s);
    }
  }

  lemma DomainBalanceKept(c: Config, s: Sys, a: Action)
    requires WellFormed(s) && DomainBalance(c, s) && Enabled(s, a)
    ensures DomainBalance(c, Apply(c, s, a))
  {
    var s' := Apply(c, s, a);
    forall k | 0 <= k < |s'.core.free|
      ensures s'.core.free[k] + |HoldersOf(s', k)| == c.maxPerDest
    {
      DomainBalanceAt(c, s, a, k);
    }
  }

  lemma DomainBalanceAt(c: Config, s: Sys, a: Action, k: nat)
    requires WellFormed(s) && DomainBalance(c, s) && Enabled(s, a) && k < |Apply(c, s, a).core.free|
    ensures Apply(c, s, a).core.free[k] + |HoldersOf(Apply(c, s, a), k)| == c.maxPerDest
  {
    var s' := Apply(c, s, a);
    if OnTask(a) {
      HoldersAfterMove(s, s', a.t, k);
    } else {
      assert HoldersOf(s', k) == HoldersOf(s, k);
    }
    if k == |s.core.free| {
      assert HoldersOf(s, k) == {};
    }
  }

  lemma FewSemsKept(c: Config, s: Sys, a: Action)
    requires WellFormed(s) && FewSems(s) && Enabled(s, a)
    ensures FewSems(Apply(c, s, a))
  {
    var s' := Apply(c, s, a);
    match a {
      case Lookup(t) => EnsureFewSems(c, s, s', s.tasks[t].d);
      case CheckIn(d, _) => EnsureFewSems(c, s, s', d);
      case _ =>
        forall d
          ensures SemsFor(s'.core, d) == SemsFor(s.core, d)
        {
        }
    }
  }

  lemma EnsureFewSems(c: Config, s: Sys, s': Sys, d: string)
    requires WellFormed(s) && FewSems(s) && s'.evictions == s.evictions
    requires s'.core.owner == Ensure(c, s.core, d).owner
    requires forall x :: x in s'.core.domains <==> x in s.core.domains || x == d
    ensures FewSems(s')
  {
    EnsureFacts(c, s.core, d);
    forall x
      ensures |SemsFor(s'.core, x)| <= EvictionsOf(s', x) + if x in s'.core.domains then 1 else 0
    {
      assert SemsFor(s'.core, x) == SemsFor(Ensure(c, s.core, d), x);
    }
  }

  lemma {:induction false} RunInv(c: Config, states: seq<Sys>, actions: seq<Action>)
    requires IsRun(c, states, actions) && Inv(c, states[0])
    ensures Inv(c, states[|actions|])
    decreases |actions|
  {
    if actions != [] {
      var n := |actions| - 1;
      RunInv(c, states[..n + 1], actions[..n]);
      WellFormedKept(c, states[n], actions[n]);
      GlobalBalanceKept(c, states[n], actions[n]);
      DomainBalanceKept(c, states[n], actions[n]);
      FewSemsKept(c, states[n], actions[n]);
    }
  }

  // ----- limits

  lemma {:induction false} HoldersBound(c: Config, s: Sys, d: string, sems: set<nat>, holders: set<nat>)
    requires DomainBalance(c, s) && (forall k :: k in sems ==> k < |s.core.free|)
    requires holders == set t | t in s.tasks && s.tasks[t].Holding? && s.tasks[t].sem in sems
    ensures |holders| <= |sems| * c.maxPerDest
    decreases sems
  {
    if sems == {} {
      assert holders == {};
    } else {
      var k :| k in sems;
      var rest := set t | t in s.tasks && s.tasks[t].Holding? && s.tasks[t].sem in sems - {k};
      HoldersBound(c, s, d, sems - {k}, rest);
      assert holders == rest + HoldersOf(s, k);
      assert rest !! HoldersOf(s, k);
      assert |sems| == |sems - {k}| + 1;
      assert (|sems - {k}| + 1) * c.maxPerDest == |sems - {k}| * c.maxPerDest + c.maxPerDest;
    }
  }

  /**
    In every run, permits out never exceed the global limit, and those for one destination never exceed the
    per-destination limit once for the entry and once more for every eviction of it.
  */
  lemma Limits(c: Config, states: seq<Sys>, actions: seq<Action>, d: string)
    requires IsRun(c, states, actions) && states[0] == Start(c)
    ensures |GlobalOwners(states[|actions|])| <= c.maxConnections
    ensures |HoldersFor(states[|actions|], d)| <= (1 + EvictionsOf(states[|actions|], d)) * c.maxPerDest
  {
    StartInv(c);
    RunInv(c, states, actions);
    var s := states[|actions|];
    var sems := SemsFor(s.core, d);
    var holders := set t | t in s.tasks && s.tasks[t].Holding? && s.tasks[t].sem in sems;
    HoldersBound(c, s, d, sems, holders);
    assert HoldersFor(s, d) == holders;
    ScaleMonotone(|sems|, 1 + EvictionsOf(s, d), c.maxPerDest);
  }
}
