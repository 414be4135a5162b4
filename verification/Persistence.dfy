/** Two retry budgets on one message: the engine's per-domain policies and the consumer's own cap. */
module Persistence {
  import opened Basics
  import opened Delivery
  import opened Queue
  import Retry

  /** Some domain is deferred, none of the deferred ones may retry beyond `budget`, and one may up to it. */
  ghost predicate DeferredWithin(c: Retry.Config, outcomes: seq<(string, Outcome)>, elapsedMs: nat, budget: nat) {
    && (forall i :: 0 <= i < |outcomes| && outcomes[i].1.Deferred? ==>
          PolicyFor(c, outcomes[i].0).maxRetries <= budget && elapsedMs < PolicyFor(c, outcomes[i].0).queueLifetimeMs)
    && (exists i :: 0 <= i < |outcomes| && outcomes[i].1.Deferred? && PolicyFor(c, outcomes[i].0).maxRetries == budget)
  }

  /** The largest budget over the deferred domains is the one that counts. */
  lemma ExhaustedAtLargestBudget(c: Retry.Config, outcomes: seq<(string, Outcome)>, retries: u32, elapsedMs: nat,
                                 budget: nat)
    requires DeferredWithin(c, outcomes, elapsedMs, budget)
    ensures BudgetExhausted(c, outcomes, retries, elapsedMs) <==> retries >= budget
  {
    var i :| 0 <= i < |outcomes| && outcomes[i].1.Deferred? && PolicyFor(c, outcomes[i].0).maxRetries == budget;
    if retries >= budget {
      forall k | 0 <= k < |outcomes| && outcomes[k].1.Deferred?
        ensures !Retry.ShouldRetry(PolicyFor(c, outcomes[k].0), retries, elapsedMs)
      {
      }
    } else {
      assert Retry.ShouldRetry(PolicyFor(c, outcomes[i].0), retries, elapsedMs);
    }
  }

  /** Handling the entry with this move completes in time and defers within the budget. */
  ghost predicate Defers(c: Setup, r: Repo, e: Entry, v: Move, budget: nat) {
    && e.payload.Mail? && e.payload.m.id.Some? && NonEmptyGroups(v.groups)
    && var p := Deliver(r, v.world, e.payload.m, v.groups);
       && Alive(p.repo, v.world)
       && DeferredWithin(c.engine, p.outcomes, ElapsedMs(v.world, e.queuedAt), budget)
  }

  /** The handler gives up exactly when the retry count has reached the budget, and then marks a bounce. */
  lemma DeferredResult(c: Setup, r: Repo, e: Entry, v: Move, budget: nat)
    requires Defers(c, r, e, v, budget)
    ensures var h := HandleEntry(c, r, e, v);
            && Answers(e, h.result, budget)
            && (h.result == Ack && v.world.ok(h.repo.tick - 1) && h.repo.tick <= v.world.deadline ==>
                  e.payload.m.id.value in h.repo.status && h.repo.status[e.payload.m.id.value] == IsBounced)
  {
    var p := Deliver(r, v.world, e.payload.m, v.groups);
    var retries := RetryCount(e, AsU32(e.delivered + 1));
    var elapsed := ElapsedMs(v.world, e.queuedAt);
    ExhaustedAtLargestBudget(c.engine, p.outcomes, retries, elapsed, budget);
    assert AnyDeferred(p.outcomes);
  }

  /** What decides the fate of a persistently deferred message: the engine's budget and a legacy publisher's header. */
  datatype Plan = Plan(budget: nat, attempt: Option<u32>)

  /** Does the engine give up on the message before the consumer does? */
  predicate GivesUp(c: Setup, plan: Plan) {
    if plan.attempt.None? then plan.budget + 1 <= Cap(c) else plan.attempt.value >= plan.budget
  }

  /** How often a persistently deferred message is handled. */
  function Lifetime(c: Setup, plan: Plan): nat {
    if plan.attempt.None? then Min(plan.budget + 1, Cap(c)) else if GivesUp(c, plan) then 1 else Cap(c)
  }

  lemma LifetimeClosedForm(c: Setup, plan: Plan)
    ensures Lifetime(c, plan) ==
            match plan.attempt
            case None => Max(1, Min(plan.budget + 1, c.policy.maxRetries))
            case Some(a) => if a >= plan.budget then 1 else Max(1, c.policy.maxRetries)
  {
  }

  /** Nak before the last handling; then bounce if the engine gives up first, and otherwise dead-letter. */
  lemma DeferredDecision(c: Setup, r: Repo, e: Entry, v: Move, plan: Plan)
    requires Defers(c, r, e, v, plan.budget) && e.attempt == plan.attempt
    requires e.delivered < Lifetime(c, plan)
    ensures var d := Decision(c, e, v, HandleEntry(c, r, e, v).result);
            if e.delivered + 1 < Lifetime(c, plan) then d.Nakked?
            else if GivesUp(c, plan) then d.Acked?
            else d.DeadLettered?
  {
    DeferredResult(c, r, e, v, plan.budget);
    if e.attempt.None? {
      DecideCounting(c, e, v, HandleEntry(c, r, e, v).result, plan);
    } else {
      DecideFrozen(c, e, v, HandleEntry(c, r, e, v).result, plan.budget);
    }
  }

  /** The handler acknowledges once the retry count has reached the budget and asks for a retry before. */
  ghost predicate Answers(e: Entry, result: HandlerResult, budget: nat) {
    if RetryCount(e, AsU32(e.delivered + 1)) >= budget then result == Ack else result.RetryAfter?
  }

  lemma DecideCounting(c: Setup, e: Entry, v: Move, result: HandlerResult, plan: Plan)
    requires Answers(e, result, plan.budget) && e.attempt.None? && plan.attempt.None? && e.delivered < Lifetime(c, plan)
    ensures var d := Decision(c, e, v, result);
            if e.delivered + 1 < Lifetime(c, plan) then d.Nakked?
            else if GivesUp(c, plan) then d.Acked?
            else d.DeadLettered?
  {
    assert AsU32(e.delivered + 1) == e.delivered + 1;
  }

  lemma DecideFrozen(c: Setup, e: Entry, v: Move, result: HandlerResult, budget: nat)
    requires Answers(e, result, budget) && e.attempt.Some? && e.delivered < Cap(c)
    ensures var d := Decision(c, e, v, result);
            if e.attempt.value >= budget then d.Acked?
            else if e.delivered + 1 < Cap(c) then d.Nakked?
            else d.DeadLettered?
  {
    assert AsU32(e.delivered + 1) == e.delivered + 1;
  }

  /** With a legacy attempt header the count is frozen, so only one of the two budgets can ever matter. */
  lemma FrozenDecision(c: Setup, r: Repo, e: Entry, v: Move, budget: nat)
    requires Defers(c, r, e, v, budget) && e.attempt.Some? && e.delivered < Cap(c)
    ensures var d := Decision(c, e, v, HandleEntry(c, r, e, v).result);
            if e.attempt.value >= budget then d.Acked?
            else if e.delivered + 1 < Cap(c) then d.Nakked?
            else d.DeadLettered?
  {
    DeferredResult(c, r, e, v, budget);
    DecideFrozen(c, e, v, HandleEntry(c, r, e, v).result, budget);
  }

  // ----- over whole runs

  ghost predicate Waiting(q: seq<Entry>, n: nat, delivered: nat, attempt: Option<u32>) {
    exists i :: 0 <= i < |q| && q[i].seqNo == n && q[i].delivered == delivered && q[i].attempt == attempt
  }

  /** How often the run handles message `n`. */
  function Handlings(states: seq<Sys>, moves: seq<Move>, n: nat): nat
    requires |states| == |moves| + 1
    requires forall k :: 0 <= k < |moves| ==> moves[k].index < |states[k].queue|
  {
    if moves == [] then 0
    else
      var last := |moves| - 1;
      Handlings(states[..last + 1], moves[..last], n)
      + if states[last].queue[moves[last].index].seqNo == n then 1 else 0
  }

  /** Whenever the run handles message `n`, the handling defers within the budget. */
  ghost predicate AlwaysDefers(c: Setup, states: seq<Sys>, moves: seq<Move>, n: nat, budget: nat)
    requires |states| == |moves| + 1
  {
    forall k :: 0 <= k < |moves| && moves[k].index < |states[k].queue|
                && states[k].queue[moves[k].index].seqNo == n ==>
      Defers(c, states[k].repo, states[k].queue[moves[k].index], moves[k], budget)
  }

  lemma {:induction false} NotThere(q: seq<Entry>, n: nat, i: nat)
    requires Times(q, n) == 0 && i < |q|
    ensures q[i].seqNo != n
  {
    TimesWithout(q, i, n);
  }

  /** An entry that occurs once occurs at one index. */
  lemma {:induction false} OnlyOnce(q: seq<Entry>, n: nat, i: nat, j: nat)
    requires Times(q, n) <= 1 && i < |q| && j < |q| && q[i].seqNo == n && q[j].seqNo == n
    ensures i == j
  {
    if i != j {
      TimesWithout(q, i, n);
      var k := if j < i then j else j - 1;
      assert Without(q, i)[k] == q[j];
      NotThere(Without(q, i), n, k);
    }
  }

  lemma OthersWait(q: seq<Entry>, i: nat, born: seq<Entry>, again: bool, n: nat, d: nat, a: Option<u32>)
    requires i < |q| && Waiting(q, n, d, a) && q[i].seqNo != n
    ensures Waiting(QueueAfter(q, i, born, again), n, d, a)
  {
    var j :| 0 <= j < |q| && q[j].seqNo == n && q[j].delivered == d && q[j].attempt == a;
    var k := if j < i then j else j - 1;
    assert QueueAfter(q, i, born, again)[k] == q[j];
  }

  lemma NakkedWaits(q: seq<Entry>, i: nat, born: seq<Entry>)
    requires i < |q|
    ensures Waiting(QueueAfter(q, i, born, true), q[i].seqNo, q[i].delivered + 1, q[i].attempt)
  {
    var q' := QueueAfter(q, i, born, true);
    assert q'[|q'| - 1] == q[i].(delivered := q[i].delivered + 1);
  }

  /** Where message `n` is after `h` handlings. */
  ghost predicate Stage(c: Setup, s: Sys, n: nat, plan: Plan, h: nat) {
    if h < Lifetime(c, plan) then Waiting(s.queue, n, h, plan.attempt)
    else
      && h == Lifetime(c, plan) && Times(s.queue, n) == 0
      && (if GivesUp(c, plan) then Times(s.acked, n) == 1 else Times(s.dead, n) + Times(s.lost, n) == 1)
  }

  /** A turn on another message leaves the whereabouts of `n` alone. */
  lemma TimesAfterOther(s: Sys, i: nat, r: Repo, ms: seq<Message>, d: Disposition, ok: bool, n: nat)
    requires i < |s.queue| && s.queue[i].seqNo != n && n < s.nextSeq
    ensures var s' := After(s, i, r, ms, d, ok);
            && Times(s'.queue, n) == Times(s.queue, n) && Times(s'.acked, n) == Times(s.acked, n)
            && Times(s'.dead, n) == Times(s.dead, n) && Times(s'.lost, n) == Times(s.lost, n)
  {
    var seen := s.queue[i].(delivered := s.queue[i].delivered + 1);
    TimesSpawned(ms, s.nextSeq, n);
    TimesQueueAfter(s.queue, i, Spawned(ms, s.nextSeq), d.Nakked?, n);
    TimesOne(seen, n);
    TimesConcat(s.acked, [seen], n);
    TimesConcat(s.dead, [seen], n);
    TimesConcat(s.lost, [seen], n);
  }

  lemma StageAfterOther(c: Setup, s: Sys, i: nat, r: Repo, ms: seq<Message>, d: Disposition, ok: bool, n: nat,
                        plan: Plan, h: nat)
    requires i < |s.queue| && s.queue[i].seqNo != n && n < s.nextSeq && Stage(c, s, n, plan, h)
    ensures Stage(c, After(s, i, r, ms, d, ok), n, plan, h)
  {
    if h < Lifetime(c, plan) {
      OthersWait(s.queue, i, Spawned(ms, s.nextSeq), d.Nakked?, n, h, plan.attempt);
    } else {
      TimesAfterOther(s, i, r, ms, d, ok, n);
    }
  }

  /** A message that is not Nak'd leaves the queue for the one place decided. */
  lemma LeavesOnce(s: Sys, i: nat, r: Repo, ms: seq<Message>, d: Disposition, ok: bool, n: nat)
    requires i < |s.queue| && s.queue[i].seqNo == n && n < s.nextSeq && Accounted(s) && !d.Nakked?
    ensures var s' := After(s, i, r, ms, d, ok);
            && Times(s'.queue, n) == 0
            && (if d.Acked? then Times(s'.acked, n) == 1 else Times(s'.dead, n) + Times(s'.lost, n) == 1)
  {
    var seen := s.queue[i].(delivered := s.queue[i].delivered + 1);
    assert Everywhere(s, n) == 1;
    TimesWithout(s.queue, i, n);
    TimesSpawned(ms, s.nextSeq, n);
    TimesQueueAfter(s.queue, i, Spawned(ms, s.nextSeq), false, n);
    TimesOne(seen, n);
    TimesConcat(s.acked, [seen], n);
    TimesConcat(s.dead, [seen], n);
    TimesConcat(s.lost, [seen], n);
  }

  lemma StageAfterOwn(c: Setup, s: Sys, i: nat, r: Repo, ms: seq<Message>, d: Disposition, ok: bool, n: nat,
                      plan: Plan, h: nat)
    requires i < |s.queue| && s.queue[i].seqNo == n && n < s.nextSeq && Accounted(s)
    requires h < Lifetime(c, plan) && s.queue[i].delivered == h && s.queue[i].attempt == plan.attempt
    requires if h + 1 < Lifetime(c, plan) then d.Nakked?
             else if GivesUp(c, plan) then d.Acked? else d.DeadLettered?
    ensures Stage(c, After(s, i, r, ms, d, ok), n, plan, h + 1)
  {
    if h + 1 < Lifetime(c, plan) {
      NakkedWaits(s.queue, i, Spawned(ms, s.nextSeq));
    } else {
      LeavesOnce(s, i, r, ms, d, ok, n);
    }
  }

  lemma StageStep(c: Setup, s: Sys, v: Move, n: nat, plan: Plan, h: nat)
    requires Legal(s, v) && Accounted(s) && n < s.nextSeq && Stage(c, s, n, plan, h)
    requires s.queue[v.index].seqNo == n ==> Defers(c, s.repo, s.queue[v.index], v, plan.budget)
    ensures Stage(c, Step(c, s, v), n, plan, if s.queue[v.index].seqNo == n then h + 1 else h)
  {
    var e := s.queue[v.index];
    var hd := HandleEntry(c, s.repo, e, v);
    var ms := NewMessages(s.repo, hd.repo);
    var d := Decision(c, e, v, hd.result);
    if e.seqNo != n {
      StageAfterOther(c, s, v.index, hd.repo, ms, d, v.world.deadLetterOk, n, plan, h);
    } else {
      OwnTurn(c, s, v.index, n, plan, h);
      DeferredDecision(c, s.repo, e, v, plan);
      StageAfterOwn(c, s, v.index, hd.repo, ms, d, v.world.deadLetterOk, n, plan, h);
    }
  }

  lemma OwnTurn(c: Setup, s: Sys, i: nat, n: nat, plan: Plan, h: nat)
    requires i < |s.queue| && s.queue[i].seqNo == n && Accounted(s) && n < s.nextSeq && Stage(c, s, n, plan, h)
    ensures h < Lifetime(c, plan) && s.queue[i].delivered == h && s.queue[i].attempt == plan.attempt
  {
    TimesWithout(s.queue, i, n);
    assert Everywhere(s, n) == 1;
    var j :| && 0 <= j < |s.queue| && s.queue[j].seqNo == n && s.queue[j].delivered == h
             && s.queue[j].attempt == plan.attempt;
    OnlyOnce(s.queue, n, i, j);
  }

  /**
    In every run in which each handling of message `n` defers within the budget, the message is handled at most as
    often as its plan says; it leaves the queue exactly on the last of them, acknowledged as bounced when the engine
    gives up first and otherwise dead-lettered once.
  */
  lemma {:induction false} PersistentDeferral(c: Setup, t: Trust, states: seq<Sys>, moves: seq<Move>, n: nat,
                                              plan: Plan)
    requires IsRun(c, t, states, moves) && Accounted(states[0]) && n < states[0].nextSeq
    requires Waiting(states[0].queue, n, 0, plan.attempt)
    requires AlwaysDefers(c, states, moves, n, plan.budget)
    ensures Stage(c, states[|moves|], n, plan, Handlings(states, moves, n))
    ensures n < states[|moves|].nextSeq
    decreases |moves|
  {
    if moves != [] {
      var last := |moves| - 1;
      PersistentDeferral(c, t, states[..last + 1], moves[..last], n, plan);
      RunConserves(c, t, states[..last + 1], moves[..last]);
      StageStep(c, states[last], moves[last], n, plan, Handlings(states[..last + 1], moves[..last], n));
    }
  }

  /**
    Once the queue has drained, with engine budget M and consumer cap N. Without a legacy attempt header the message was
    handled exactly max(1, min(M + 1, N)) times, and is acknowledged if M + 1 <= max(1, N). With such a header it was
    handled once and acknowledged if the header is at least M, and otherwise handled max(1, N) times. If it is not
    acknowledged it is dead-lettered, once.
  */
  lemma DrainedWhereabouts(c: Setup, t: Trust, states: seq<Sys>, moves: seq<Move>, n: nat, plan: Plan)
    requires IsRun(c, t, states, moves) && Accounted(states[0]) && n < states[0].nextSeq
    requires Waiting(states[0].queue, n, 0, plan.attempt) && AlwaysDefers(c, states, moves, n, plan.budget)
    requires states[|moves|].queue == [] && t.deadLetters && states[0].lost == []
    ensures Handlings(states, moves, n) ==
            match plan.attempt
            case None => Max(1, Min(plan.budget + 1, c.policy.maxRetries))
            case Some(a) => if a >= plan.budget then 1 else Max(1, c.policy.maxRetries)
    ensures var s := states[|moves|];
            && Times(s.acked, n) == (if GivesUp(c, plan) then 1 else 0)
            && Times(s.dead, n) == (if GivesUp(c, plan) then 0 else 1)
  {
    PersistentDeferral(c, t, states, moves, n, plan);
    LifetimeClosedForm(c, plan);
    RunConserves(c, t, states, moves);
    assert Everywhere(states[|moves|], n) == 1;
  }
}
