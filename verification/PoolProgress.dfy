/** Progress of the pool's tasks, whatever the order in which the semaphores serve them. */
module PoolProgress {
  import opened Pool

  /** Actions that happen without outside help: the acquisitions and the drop of a held permit. */
  predicate Internal(a: Action) {
    a.TakeGlobal? || a.Lookup? || a.TakeDomain? || a.Release?
  }

  /** Actions that may also happen while tasks are served: the pool's housekeeping. */
  predicate Housekeeping(a: Action) {
    a.CheckIn? || a.CheckOut? || a.CleanUp?
  }

  lemma StepInv(c: Config, s: Sys, a: Action)
    requires Inv(c, s) && Enabled(s, a)
    ensures Inv(c, Apply(c, s, a))
  {
    WellFormedKept(c, s, a);
    GlobalBalanceKept(c, s, a);
    DomainBalanceKept(c, s, a);
    FewSemsKept(c, s, a);
  }

  // ----- something can always happen

  /** An exhausted domain semaphore has a holder. */
  lemma SomeHolder(c: Config, s: Sys, k: nat) returns (t: nat)
    requires Inv(c, s) && c.maxPerDest >= 1 && k < |s.core.free| && s.core.free[k] == 0
    ensures PcOf(s, t).Holding? && PcOf(s, t).sem == k
  {
    assert |HoldersOf(s, k)| >= 1;
    t :| t in HoldersOf(s, k);
  }

  /** A task with the global permit can go on, or somebody can drop what it waits for. */
  lemma OwnerMoves(c: Config, s: Sys, t: nat) returns (a: Action)
    requires Inv(c, s) && c.maxPerDest >= 1 && PcOf(s, t).OwnsGlobal()
    ensures Internal(a) && Enabled(s, a)
  {
    match PcOf(s, t) {
      case HasGlobal(_) => a := Lookup(t);
      case Holding(_, _) => a := Release(t);
      case WantDomain(_, k) =>
        a := TakeDomain(t);
        if s.core.free[k] == 0 {
          var u := SomeHolder(c, s, k);
          a := Release(u);
        }
    }
  }

  /** With both limits at least one, some acquisition or drop is enabled while any task is inside. */
  lemma SomethingMoves(c: Config, s: Sys, t: nat) returns (a: Action)
    requires Inv(c, s) && c.maxConnections >= 1 && c.maxPerDest >= 1 && !PcOf(s, t).Outside?
    ensures Internal(a) && Enabled(s, a)
  {
    if PcOf(s, t).OwnsGlobal() {
      a := OwnerMoves(c, s, t);
    } else if s.core.globalFree > 0 {
      a := TakeGlobal(t);
    } else {
      assert |GlobalOwners(s)| >= 1;
      var u :| u in GlobalOwners(s);
      a := OwnerMoves(c, s, u);
    }
  }

  /** No run deadlocks: whenever a task waits, some acquisition or drop is enabled. */
  lemma NoDeadlock(c: Config, states: seq<Sys>, actions: seq<Action>, t: nat) returns (a: Action)
    requires IsRun(c, states, actions) && states[0] == Start(c)
    requires c.maxConnections >= 1 && c.maxPerDest >= 1 && PcOf(states[|actions|], t).Waiting()
    ensures Internal(a) && Enabled(states[|actions|], a)
  {
    StartInv(c);
    RunInv(c, states, actions);
    a := SomethingMoves(c, states[|actions|], t);
  }

  // ----- how long it can take

  /** Internal actions a task still has before it. */
  function Rank(pc: Pc): nat {
    match pc
    case WantGlobal(_) => 4
    case HasGlobal(_) => 3
    case WantDomain(_, _) => 2
    case Holding(_, _) => 1
    case Outside => 0
  }

  ghost function Work(tasks: map<nat, Pc>): nat {
    if tasks == map[] then 0 else var t :| t in tasks; Rank(tasks[t]) + Work(tasks - {t})
  }

  lemma {:induction false} WorkWithout(tasks: map<nat, Pc>, t: nat)
    requires t in tasks
    ensures Work(tasks) == Rank(tasks[t]) + Work(tasks - {t})
    decreases |tasks|
  {
    var u :| u in tasks && Work(tasks) == Rank(tasks[u]) + Work(tasks - {u});
    if u != t {
      assert (tasks - {u}).Keys == tasks.Keys - {u} && (tasks - {t}).Keys == tasks.Keys - {t};
      WorkWithout(tasks - {u}, t);
      WorkWithout(tasks - {t}, u);
      assert tasks - {u} - {t} == tasks - {t} - {u};
    }
  }

  lemma WorkMoves(tasks: map<nat, Pc>, t: nat, pc: Pc)
    requires t in tasks && Rank(tasks[t]) == Rank(pc) + 1
    ensures Work(tasks) == Work(tasks[t := pc]) + 1
  {
    WorkWithout(tasks, t);
    WorkWithout(tasks[t := pc], t);
    assert tasks[t := pc] - {t} == tasks - {t};
  }

  /** Every internal action, of whichever task, does one unit of work. */
  lemma StepWorks(c: Config, s: Sys, a: Action)
    requires Internal(a) && Enabled(s, a)
    ensures Work(s.tasks) == Work(Apply(c, s, a).tasks) + 1
  {
    WorkMoves(s.tasks, a.t, Apply(c, s, a).tasks[a.t]);
  }

  // ----- first come, first served

  /** The order in which requests reached the global and the domain semaphores, for any numbering. */
  datatype Arrival = Arrival(global: nat -> nat, domain: nat -> nat)

  function WantGlobals(s: Sys): set<nat> {
    set t | t in s.tasks && s.tasks[t].WantGlobal?
  }

  function WantDomains(s: Sys, k: nat): set<nat> {
    set t | t in s.tasks && s.tasks[t].WantDomain? && s.tasks[t].sem == k
  }

  /** The action serves nobody before somebody who asked the same semaphore earlier. */
  ghost predicate InTurn(s: Sys, q: Arrival, a: Action) {
    match a
    case TakeGlobal(t) => forall u :: u in WantGlobals(s) ==> q.global(t) <= q.global(u)
    case TakeDomain(t) =>
      PcOf(s, t).WantDomain? ==> forall u :: u in WantDomains(s, PcOf(s, t).sem) ==> q.domain(t) <= q.domain(u)
    case _ => true
  }

  lemma {:induction false} Earliest(ts: set<nat>, f: nat -> nat) returns (t: nat)
    requires ts != {}
    ensures t in ts && forall u :: u in ts ==> f(t) <= f(u)
    decreases |ts|
  {
    t :| t in ts;
    if ts != {t} {
      var u := Earliest(ts - {t}, f);
      if f(u) < f(t) {
        t := u;
      }
    }
  }

  /** If anything can happen, something can happen in turn. */
  lemma SomethingInTurn(s: Sys, q: Arrival, a: Action) returns (b: Action)
    requires Internal(a) && Enabled(s, a)
    ensures Internal(b) && Enabled(s, b) && InTurn(s, q, b)
  {
    b := a;
    match a {
      case TakeGlobal(t) =>
        assert t in WantGlobals(s);
        var u := Earliest(WantGlobals(s), q.global);
        b := TakeGlobal(u);
      case TakeDomain(t) =>
        assert t in WantDomains(s, PcOf(s, t).sem);
        var u := Earliest(WantDomains(s, PcOf(s, t).sem), q.domain);
        b := TakeDomain(u);
      case _ =>
    }
  }

  // ----- everybody is served

  /** Internal actions in any order of service, and any housekeeping, leading from one state to another. */
  ghost predicate Leads(c: Config, s: Sys, actions: seq<Action>, s': Sys)
    decreases |actions|
  {
    if actions == [] then s' == s
    else
      && (Internal(actions[0]) || Housekeeping(actions[0])) && Enabled(s, actions[0])
      && Leads(c, Apply(c, s, actions[0]), actions[1..], s')
  }

  /** How many of the actions are acquisitions and drops. */
  function Internals(actions: seq<Action>): nat {
    if actions == [] then 0 else (if Internal(actions[0]) then 1 else 0) + Internals(actions[1..])
  }

  lemma {:induction false} LeadsWorks(c: Config, s: Sys, actions: seq<Action>, s': Sys)
    requires Leads(c, s, actions, s') && Inv(c, s)
    ensures Internals(actions) + Work(s'.tasks) == Work(s.tasks) && Inv(c, s')
    decreases |actions|
  {
    if actions != [] {
      if Internal(actions[0]) {
        StepWorks(c, s, actions[0]);
      }
      StepInv(c, s, actions[0]);
      LeadsWorks(c, Apply(c, s, actions[0]), actions[1..], s');
    }
  }

  /** A task that waits goes on waiting until it is granted its domain permit. */
  lemma {:induction false} WaitsUntilGranted(c: Config, s: Sys, actions: seq<Action>, s': Sys, t: nat)
    requires Leads(c, s, actions, s') && PcOf(s, t).Waiting() && TakeDomain(t) !in actions
    ensures PcOf(s', t).Waiting()
    decreases |actions|
  {
    if actions != [] {
      WaitsUntilGranted(c, Apply(c, s, actions[0]), actions[1..], s', t);
    }
  }

  lemma {:induction false} NoWorkLeft(tasks: map<nat, Pc>)
    requires forall t :: t in tasks ==> tasks[t].Outside?
    ensures Work(tasks) == 0
    decreases |tasks|
  {
    if tasks != map[] {
      var t :| t in tasks;
      WorkWithout(tasks, t);
      assert (tasks - {t}).Keys == tasks.Keys - {t};
      NoWorkLeft(tasks - {t});
    }
  }

  /** Nothing more can happen first come, first served. */
  ghost predicate AtRest(s: Sys, q: Arrival) {
    forall a :: Internal(a) && Enabled(s, a) ==> !InTurn(s, q, a)
  }

  /** With both limits at least one, only a pool nobody is in is at rest. */
  lemma RestMeansEmpty(c: Config, s: Sys, q: Arrival, t: nat)
    requires Inv(c, s) && c.maxConnections >= 1 && c.maxPerDest >= 1 && AtRest(s, q)
    ensures PcOf(s, t).Outside?
  {
    if !PcOf(s, t).Outside? {
      var a := SomethingMoves(c, s, t);
      var b := SomethingInTurn(s, q, a);
    }
  }

  /**
    Whatever has happened so far, in whatever order the semaphores serve their waiters, first come first served
    included, and whatever is checked in, checked out or evicted meanwhile: once no acquisition or drop is possible any
    more, every task that waited has been granted its permit and has dropped it, and the acquisitions and drops were
    exactly the work that was there, at most four for each task.
  */
  lemma EveryWaiterIsServed(c: Config, s: Sys, actions: seq<Action>, s': Sys, q: Arrival, t: nat)
    requires Inv(c, s) && c.maxConnections >= 1 && c.maxPerDest >= 1
    requires Leads(c, s, actions, s') && AtRest(s', q)
    ensures Internals(actions) == Work(s.tasks) <= 4 * |s.tasks|
    ensures PcOf(s, t).Waiting() ==> TakeDomain(t) in actions
    ensures PcOf(s', t).Outside?
  {
    LeadsWorks(c, s, actions, s');
    forall u
      ensures PcOf(s', u).Outside?
    {
      RestMeansEmpty(c, s', q, u);
    }
    forall u | u in s'.tasks
      ensures s'.tasks[u].Outside?
    {
      assert PcOf(s', u).Outside?;
    }
    NoWorkLeft(s'.tasks);
    WorkAtMost(s.tasks);
    if PcOf(s, t).Waiting() && TakeDomain(t) !in actions {
      WaitsUntilGranted(c, s, actions, s', t);
    }
  }

  /** The actions lead on and each serves in turn. */
  ghost predicate LeadsInTurn(c: Config, s: Sys, q: Arrival, actions: seq<Action>, s': Sys)
    decreases |actions|
  {
    if actions == [] then s' == s
    else
      && Internal(actions[0]) && Enabled(s, actions[0]) && InTurn(s, q, actions[0])
      && LeadsInTurn(c, Apply(c, s, actions[0]), q, actions[1..], s')
  }

  lemma {:induction false} InTurnLeads(c: Config, s: Sys, q: Arrival, actions: seq<Action>, s': Sys)
    requires LeadsInTurn(c, s, q, actions, s')
    ensures Leads(c, s, actions, s')
    decreases |actions|
  {
    if actions != [] {
      InTurnLeads(c, Apply(c, s, actions[0]), q, actions[1..], s');
    }
  }

  /** Serving in turn always comes to rest, so the theorem above speaks about something. */
  lemma {:induction false} InTurnComesToRest(c: Config, s: Sys, q: Arrival) returns (actions: seq<Action>, s': Sys)
    ensures LeadsInTurn(c, s, q, actions, s') && AtRest(s', q)
    decreases Work(s.tasks)
  {
    if a :| Internal(a) && Enabled(s, a) && InTurn(s, q, a) {
      StepWorks(c, s, a);
      var rest;
      rest, s' := InTurnComesToRest(c, Apply(c, s, a), q);
      actions := [a] + rest;
      assert actions[1..] == rest;
    } else {
      actions, s' := [], s;
    }
  }

  lemma {:induction false} WorkAtMost(tasks: map<nat, Pc>)
    ensures Work(tasks) <= 4 * |tasks|
    decreases |tasks|
  {
    if tasks != map[] {
      var t :| t in tasks;
      WorkWithout(tasks, t);
      assert (tasks - {t}).Keys == tasks.Keys - {t};
      WorkAtMost(tasks - {t});
    }
  }

  /** The hypothesis is needed: if either limit is zero, no run ever hands out a permit. */
  lemma ZeroLimitBlocks(c: Config, states: seq<Sys>, actions: seq<Action>, t: nat)
    requires IsRun(c, states, actions) && states[0] == Start(c)
    requires c.maxConnections == 0 || c.maxPerDest == 0
    ensures !PcOf(states[|actions|], t).Holding?
  {
    StartInv(c);
    RunInv(c, states, actions);
    var s := states[|actions|];
    assert PcOf(s, t).Holding? ==> t in GlobalOwners(s) && t in HoldersOf(s, PcOf(s, t).sem);
  }
}
