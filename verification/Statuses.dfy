/**
  The status a persistently deferred message ends with: bounced, when the engine gave up on it and its id is its own.
*/
module Statuses {
  import opened Basics
  import opened Delivery
  import opened Queue
  import opened Persistence
  import Retry

  // ----- nobody else writes the status of an id

  ghost predicate SameStatus(r: Repo, r': Repo, id: nat) {
    (id in r.status <==> id in r'.status) && (id in r.status ==> r.status[id] == r'.status[id])
  }

  /** Reports never get this id. */
  ghost predicate NeverNew(w: World, id: nat) {
    forall k: nat :: w.newId(k) != id
  }

  lemma {:induction false} RecordAllStatus(w: World, e: Envelope, r: Repo, rcpts: seq<string>, o: Outcome, id: nat)
    requires NeverNew(w, id)
    ensures SameStatus(r, RecordAll(r, w, e, rcpts, o), id)
  {
    if rcpts != [] {
      var init := rcpts[..|rcpts| - 1];
      RecordAllStatus(w, e, r, init, o, id);
      RecordStatus(w, e, RecordAll(r, w, e, init, o), rcpts[|rcpts| - 1], o, id);
    }
  }

  lemma RecordStatus(w: World, e: Envelope, r: Repo, rcpt: string, o: Outcome, id: nat)
    requires NeverNew(w, id)
    ensures SameStatus(r, Record(r, w, e, rcpt, o), id)
  {
  }

  lemma {:induction false} CheckAllStatus(w: World, e: Envelope, r: Repo, rcpts: seq<string>, id: nat)
    requires NeverNew(w, id)
    ensures SameStatus(r, CheckAll(r, w, e, rcpts).repo, id)
  {
    if rcpts != [] {
      var init := rcpts[..|rcpts| - 1];
      CheckAllStatus(w, e, r, init, id);
      RecordStatus(w, e, Tick(CheckAll(r, w, e, init).repo), rcpts[|rcpts| - 1], Suppressed, id);
    }
  }

  lemma {:induction false} GroupsStatus(w: World, e: Envelope, r: Repo, groups: seq<Group>, id: nat)
    requires NeverNew(w, id) && NonEmptyGroups(groups)
    ensures SameStatus(r, DeliverGroups(r, w, e, groups).repo, id)
  {
    if groups != [] {
      var init, last := groups[..|groups| - 1], groups[|groups| - 1];
      GroupsStatus(w, e, r, init, id);
      GroupStatus(w, e, DeliverGroups(r, w, e, init), last, id);
    }
  }

  lemma GroupStatus(w: World, e: Envelope, p: Pass, g: Group, id: nat)
    requires NeverNew(w, id) && g.rcpts != []
    ensures SameStatus(p.repo, DeliverGroup(p, w, e, g).repo, id)
  {
    var s := CheckAll(p.repo, w, e, g.rcpts);
    CheckAllStatus(w, e, p.repo, g.rcpts, id);
    if Alive(s.repo, w) {
      RecordAllStatus(w, e, Offer(s.repo, e, s.active), s.active, w.answer(s.repo.tick), id);
    }
  }

  lemma DeliverStatus(w: World, m: Message, r: Repo, groups: seq<Group>, id: nat)
    requires NeverNew(w, id) && NonEmptyGroups(groups) && m.id != Some(id)
    ensures SameStatus(r, Deliver(r, w, m, groups).repo, id)
  {
    if Attempted(m, w) {
      GroupsStatus(w, EnvelopeOf(m), r, groups, id);
    }
  }

  /** Handling another message leaves the status alone. */
  lemma OthersStatus(c: Setup, r: Repo, e: Entry, v: Move, id: nat)
    requires e.payload.Mail? ==> NonEmptyGroups(v.groups) && e.payload.m.id != Some(id)
    requires NeverNew(v.world, id)
    ensures SameStatus(r, HandleEntry(c, r, e, v).repo, id)
  {
    if e.payload.Mail? {
      DeliverStatus(v.world, e.payload.m, r, v.groups, id);
    }
  }

  // ----- does an acknowledged message end with a final status

  predicate IsFinal(status: Status) {
    status.IsDelivered? || status.IsBounced? || status.IsDropped?
  }

  ghost predicate HasFinal(r: Repo, id: nat) {
    id in r.status && IsFinal(r.status[id])
  }

  /** The status write at the end of a pass is made and succeeds. */
  ghost predicate PassWrites(r: Repo, w: World, m: Message, groups: seq<Group>)
    requires NonEmptyGroups(groups)
  {
    Attempted(m, w) && Ok(DeliverGroups(r, w, EnvelopeOf(m), groups).repo, w)
  }

  /** What a pass leaves: a final status exactly when it chose one and wrote it. */
  lemma PassSettles(w: World, m: Message, r: Repo, groups: seq<Group>, id: nat)
    requires NonEmptyGroups(groups) && NeverNew(w, id) && m.id == Some(id) && !HasFinal(r, id)
    ensures var p := Deliver(r, w, m, groups);
            HasFinal(p.repo, id) <==>
            && PassWrites(r, w, m, groups)
            && FinalStatus(p.outcomes).Some? && IsFinal(FinalStatus(p.outcomes).value)
  {
    if Attempted(m, w) {
      GroupsStatus(w, EnvelopeOf(m), r, groups, id);
    }
  }

  /** The chosen status is final unless something is deferred and nothing bounced, or only deliveries and drops mix. */
  lemma FinalChosenExactly(outcomes: seq<(string, Outcome)>)
    ensures FinalStatus(outcomes).Some? && IsFinal(FinalStatus(outcomes).value) <==>
            if AnyDeferred(outcomes) then AnyBounced(outcomes)
            else AnyBounced(outcomes) || AllDelivered(outcomes) || AllSuppressed(outcomes)
  {
  }

  /**
    An acknowledged message that had no final status before has one afterwards if and only if: when nothing is deferred,
    the pass got past its early returns, its outcomes are not a mixture of deliveries and drops, and its status write
    succeeds; when something is deferred, the handler's own write succeeds, or something bounced and the pass's did.
  */
  lemma AckSettlesExactly(w: World, c: Retry.Config, m: Message, retries: u32, queuedAt: Option<nat>, r: Repo,
                          groups: seq<Group>, id: nat)
    requires NonEmptyGroups(groups) && NeverNew(w, id) && m.id == Some(id) && !HasFinal(r, id)
    requires Handle(r, w, c, m, retries, queuedAt, groups).result == Ack
    ensures var p := Deliver(r, w, m, groups);
            HasFinal(Handle(r, w, c, m, retries, queuedAt, groups).repo, id) <==>
            if AnyDeferred(p.outcomes) then
              w.ok(p.repo.tick) || (AnyBounced(p.outcomes) && PassWrites(r, w, m, groups))
            else
              && PassWrites(r, w, m, groups)
              && (AnyBounced(p.outcomes) || AllDelivered(p.outcomes) || AllSuppressed(p.outcomes))
  {
    PassSettles(w, m, r, groups, id);
    FinalChosenExactly(Deliver(r, w, m, groups).outcomes);
  }

  /** A message whose body cannot be fetched is acknowledged and nothing at all is written. */
  lemma MissingBodyLeavesNothing(w: World, c: Retry.Config, m: Message, retries: u32, queuedAt: Option<nat>, r: Repo,
                                 groups: seq<Group>)
    requires NonEmptyGroups(groups) && m.tenant.Some? && m.id.Some? && w.warmupOpen && !w.blobOk && Alive(r, w)
    ensures Handle(r, w, c, m, retries, queuedAt, groups) == Handled(r, Ack)
  {
    var p := Deliver(r, w, m, groups);
    assert p.outcomes == [(Placeholder(m), Bounced(Hard))];
  }

  // ----- the id belongs to one entry

  /** Message `n`, and no other in the queue, has this id. */
  ghost predicate Owns(q: seq<Entry>, n: nat, id: nat) {
    forall i :: 0 <= i < |q| && q[i].payload.Mail? ==> (q[i].payload.m.id == Some(id) <==> q[i].seqNo == n)
  }

  /** What a turn publishes comes with new ids. */
  ghost predicate NewIds(ms: seq<Message>, id: nat) {
    forall k :: 0 <= k < |ms| ==> ms[k].id != Some(id)
  }

  lemma OwnsKept(q: seq<Entry>, i: nat, ms: seq<Message>, seqNo: nat, again: bool, n: nat, id: nat)
    requires i < |q| && Owns(q, n, id) && NewIds(ms, id) && n < seqNo
    ensures Owns(QueueAfter(q, i, Spawned(ms, seqNo), again), n, id)
  {
    var q' := QueueAfter(q, i, Spawned(ms, seqNo), again);
    forall k | 0 <= k < |q'| && q'[k].payload.Mail?
      ensures q'[k].payload.m.id == Some(id) <==> q'[k].seqNo == n
    {
      if k < i {
        assert q'[k] == q[k];
      } else if k < |q| - 1 {
        assert q'[k] == q[k + 1];
      } else if k < |q| - 1 + |ms| {
        assert q'[k] == Spawned(ms, seqNo)[k - (|q| - 1)];
      } else {
        assert q'[k].payload == q[i].payload && q'[k].seqNo == q[i].seqNo;
      }
    }
  }

  ghost predicate PublishesNew(r: Repo, r': Repo, id: nat) {
    && r.published <= r'.published
    && forall k :: |r.published| <= k < |r'.published| ==> r'.published[k].id != Some(id)
  }

  lemma {:induction false} RecordAllNew(w: World, e: Envelope, r: Repo, rcpts: seq<string>, o: Outcome, id: nat)
    requires NeverNew(w, id)
    ensures PublishesNew(r, RecordAll(r, w, e, rcpts, o), id)
  {
    if rcpts != [] {
      var init := rcpts[..|rcpts| - 1];
      RecordAllNew(w, e, r, init, o, id);
      RecordNew(w, e, RecordAll(r, w, e, init, o), rcpts[|rcpts| - 1], o, id);
    }
  }

  lemma RecordNew(w: World, e: Envelope, r: Repo, rcpt: string, o: Outcome, id: nat)
    requires NeverNew(w, id)
    ensures PublishesNew(r, Record(r, w, e, rcpt, o), id)
  {
  }

  lemma {:induction false} CheckAllNew(w: World, e: Envelope, r: Repo, rcpts: seq<string>)
    ensures CheckAll(r, w, e, rcpts).repo.published == r.published
  {
    if rcpts != [] {
      CheckAllNew(w, e, r, rcpts[..|rcpts| - 1]);
    }
  }

  lemma {:induction false} GroupsNew(w: World, e: Envelope, r: Repo, groups: seq<Group>, id: nat)
    requires NeverNew(w, id) && NonEmptyGroups(groups)
    ensures PublishesNew(r, DeliverGroups(r, w, e, groups).repo, id)
  {
    if groups != [] {
      var init, last := groups[..|groups| - 1], groups[|groups| - 1];
      GroupsNew(w, e, r, init, id);
      var p := DeliverGroups(r, w, e, init);
      var s := CheckAll(p.repo, w, e, last.rcpts);
      CheckAllNew(w, e, p.repo, last.rcpts);
      if Alive(s.repo, w) {
        RecordAllNew(w, e, Offer(s.repo, e, s.active), s.active, w.answer(s.repo.tick), id);
      }
    }
  }

  lemma DeliverNew(w: World, m: Message, r: Repo, groups: seq<Group>, id: nat)
    requires NeverNew(w, id) && NonEmptyGroups(groups)
    ensures PublishesNew(r, Deliver(r, w, m, groups).repo, id)
  {
    if Attempted(m, w) {
      GroupsNew(w, EnvelopeOf(m), r, groups, id);
    }
  }

  lemma HandlingNew(c: Setup, r: Repo, e: Entry, v: Move, id: nat)
    requires (e.payload.Mail? ==> NonEmptyGroups(v.groups)) && NeverNew(v.world, id)
    ensures NewIds(NewMessages(r, HandleEntry(c, r, e, v).repo), id)
  {
    if e.payload.Mail? {
      DeliverNew(v.world, e.payload.m, r, v.groups, id);
    }
  }

  // ----- whole runs

  /** The last call of a handling is made in time and succeeds; for one that gives up it is the status write. */
  ghost predicate WritesStatus(c: Setup, s: Sys, v: Move)
    requires Legal(s, v)
  {
    var r := HandleEntry(c, s.repo, s.queue[v.index], v).repo;
    r.tick > 0 && r.tick <= v.world.deadline && v.world.ok(r.tick - 1)
  }

  /** The handling with which the engine gives up on the message. */
  predicate IsLast(c: Setup, e: Entry, plan: Plan) {
    GivesUp(c, plan) && e.delivered + 1 == Lifetime(c, plan)
  }

  /** The write of the handling that gives up on message `n` succeeds; no report takes its id. */
  ghost predicate KeepsStatus(c: Setup, states: seq<Sys>, moves: seq<Move>, n: nat, id: nat, plan: Plan)
    requires |states| == |moves| + 1
  {
    forall k :: 0 <= k < |moves| ==>
      && NeverNew(moves[k].world, id)
      && (Legal(states[k], moves[k]) && states[k].queue[moves[k].index].seqNo == n
          && IsLast(c, states[k].queue[moves[k].index], plan) ==>
            WritesStatus(c, states[k], moves[k]))
  }

  /** Once the engine has given up on the message, its status is bounced. */
  ghost predicate Marked(c: Setup, s: Sys, id: nat, plan: Plan, h: nat) {
    h == Lifetime(c, plan) && GivesUp(c, plan) ==> id in s.repo.status && s.repo.status[id] == IsBounced
  }

  lemma MarkedStep(c: Setup, s: Sys, v: Move, n: nat, id: nat, plan: Plan, h: nat)
    requires Legal(s, v) && Accounted(s) && n < s.nextSeq && Stage(c, s, n, plan, h) && Marked(c, s, id, plan, h)
    requires Owns(s.queue, n, id) && NeverNew(v.world, id)
    requires s.queue[v.index].seqNo == n ==> Defers(c, s.repo, s.queue[v.index], v, plan.budget)
    requires s.queue[v.index].seqNo == n && IsLast(c, s.queue[v.index], plan) ==> WritesStatus(c, s, v)
    ensures Marked(c, Step(c, s, v), id, plan, if s.queue[v.index].seqNo == n then h + 1 else h)
  {
    if s.queue[v.index].seqNo == n {
      OwnTurn(c, s, v.index, n, plan, h);
      MarkedOwn(c, s, v, id, plan, h);
    } else {
      MarkedOther(c, s, v, id, plan, h);
    }
  }

  lemma MarkedOther(c: Setup, s: Sys, v: Move, id: nat, plan: Plan, h: nat)
    requires Legal(s, v) && Marked(c, s, id, plan, h) && NeverNew(v.world, id)
    requires s.queue[v.index].payload.Mail? ==> s.queue[v.index].payload.m.id != Some(id)
    ensures Marked(c, Step(c, s, v), id, plan, h)
  {
    OthersStatus(c, s.repo, s.queue[v.index], v, id);
  }

  lemma MarkedOwn(c: Setup, s: Sys, v: Move, id: nat, plan: Plan, h: nat)
    requires Legal(s, v) && s.queue[v.index].delivered == h && s.queue[v.index].attempt == plan.attempt
    requires Defers(c, s.repo, s.queue[v.index], v, plan.budget) && s.queue[v.index].payload.m.id == Some(id)
    requires IsLast(c, s.queue[v.index], plan) ==> WritesStatus(c, s, v)
    ensures Marked(c, Step(c, s, v), id, plan, h + 1)
  {
    if IsLast(c, s.queue[v.index], plan) {
      MarkedLast(c, s.repo, s.queue[v.index], v, id, plan);
    }
  }

  /** The handling that gives up on the message marks it, if its write succeeds. */
  lemma MarkedLast(c: Setup, r: Repo, e: Entry, v: Move, id: nat, plan: Plan)
    requires Defers(c, r, e, v, plan.budget) && e.attempt == plan.attempt && IsLast(c, e, plan)
    requires e.payload.m.id == Some(id)
    requires var r' := HandleEntry(c, r, e, v).repo;
             r'.tick > 0 && r'.tick <= v.world.deadline && v.world.ok(r'.tick - 1)
    ensures var r' := HandleEntry(c, r, e, v).repo; id in r'.status && r'.status[id] == IsBounced
  {
    LastCount(c, e, plan);
    DeferredResult(c, r, e, v, plan.budget);
  }

  lemma LastCount(c: Setup, e: Entry, plan: Plan)
    requires e.attempt == plan.attempt && IsLast(c, e, plan)
    ensures RetryCount(e, AsU32(e.delivered + 1)) >= plan.budget
  {
    assert AsU32(e.delivered + 1) == e.delivered + 1;
  }

  /** A run in which message `n`, with an id of its own, is submitted and then deferred by every handling. */
  ghost predicate Deferring(c: Setup, t: Trust, states: seq<Sys>, moves: seq<Move>, n: nat, id: nat, plan: Plan) {
    && IsRun(c, t, states, moves) && Accounted(states[0]) && n < states[0].nextSeq
    && Waiting(states[0].queue, n, 0, plan.attempt) && Owns(states[0].queue, n, id)
    && AlwaysDefers(c, states, moves, n, plan.budget) && KeepsStatus(c, states, moves, n, id, plan)
  }

  lemma DeferringPrefix(c: Setup, t: Trust, states: seq<Sys>, moves: seq<Move>, n: nat, id: nat, plan: Plan)
    requires Deferring(c, t, states, moves, n, id, plan) && moves != []
    ensures Deferring(c, t, states[..|moves|], moves[..|moves| - 1], n, id, plan)
  {
  }

  /** What holds at the end of the run before its last turn. */
  lemma BeforeLast(c: Setup, t: Trust, states: seq<Sys>, moves: seq<Move>, n: nat, id: nat, plan: Plan)
    requires Deferring(c, t, states, moves, n, id, plan)
    ensures Accounted(states[|moves|]) && n < states[|moves|].nextSeq
    ensures Stage(c, states[|moves|], n, plan, Handlings(states, moves, n))
  {
    PersistentDeferral(c, t, states, moves, n, plan);
    RunConserves(c, t, states, moves);
  }

  lemma LastTurn(c: Setup, t: Trust, states: seq<Sys>, moves: seq<Move>, n: nat, id: nat, plan: Plan)
    requires Deferring(c, t, states, moves, n, id, plan) && moves != []
    ensures var k := |moves| - 1;
            && Legal(states[k], moves[k]) && states[k + 1] == Step(c, states[k], moves[k])
            && NeverNew(moves[k].world, id)
            && var e := states[k].queue[moves[k].index];
               && (e.seqNo == n ==> Defers(c, states[k].repo, e, moves[k], plan.budget))
               && (e.seqNo == n && IsLast(c, e, plan) ==> WritesStatus(c, states[k], moves[k]))
  {
  }

  lemma HandlingsLast(states: seq<Sys>, moves: seq<Move>, n: nat)
    requires |states| == |moves| + 1 && moves != []
    requires forall k :: 0 <= k < |moves| ==> moves[k].index < |states[k].queue|
    ensures var k := |moves| - 1;
            Handlings(states, moves, n)
            == Handlings(states[..k + 1], moves[..k], n) + if states[k].queue[moves[k].index].seqNo == n then 1 else 0
  {
  }

  lemma {:induction false} RunMarks(c: Setup, t: Trust, states: seq<Sys>, moves: seq<Move>, n: nat, id: nat,
                                    plan: Plan)
    requires Deferring(c, t, states, moves, n, id, plan)
    ensures Owns(states[|moves|].queue, n, id)
    ensures Marked(c, states[|moves|], id, plan, Handlings(states, moves, n))
    decreases |moves|
  {
    if moves != [] {
      var k := |moves| - 1;
      var s, v, h := states[k], moves[k], Handlings(states[..k + 1], moves[..k], n);
      DeferringPrefix(c, t, states, moves, n, id, plan);
      RunMarks(c, t, states[..k + 1], moves[..k], n, id, plan);
      BeforeLast(c, t, states[..k + 1], moves[..k], n, id, plan);
      LastTurn(c, t, states, moves, n, id, plan);
      HandlingsLast(states, moves, n);
      MarkedStep(c, s, v, n, id, plan, h);
      OwnsStep(c, s, v, n, id);
    }
  }

  lemma OwnsStep(c: Setup, s: Sys, v: Move, n: nat, id: nat)
    requires Legal(s, v) && Owns(s.queue, n, id) && NeverNew(v.world, id) && n < s.nextSeq
    ensures Owns(Step(c, s, v).queue, n, id)
  {
    var e := s.queue[v.index];
    var h := HandleEntry(c, s.repo, e, v);
    HandlingNew(c, s.repo, e, v, id);
    OwnsKept(s.queue, v.index, NewMessages(s.repo, h.repo), s.nextSeq, Decision(c, e, v, h.result).Nakked?, n, id);
  }

  /**
    After a drained run in which every handling of message `n` deferred, with engine budget M and consumer cap N.
    Without a legacy attempt header it was handled exactly max(1, min(M + 1, N)) times, and the engine gives up on it if
    M + 1 <= max(1, N); with such a header it was handled once and given up if the header is at least M, and otherwise
    handled max(1, N) times. Given up, it ended acknowledged with status bounced; otherwise dead-lettered exactly once.
    Of all its status writes only the one that gives up has to succeed.
  */
  lemma DrainedDeferral(c: Setup, t: Trust, states: seq<Sys>, moves: seq<Move>, n: nat, id: nat, plan: Plan)
    requires Deferring(c, t, states, moves, n, id, plan)
    requires states[|moves|].queue == [] && t.deadLetters && states[0].lost == []
    ensures Handlings(states, moves, n) ==
            match plan.attempt
            case None => Max(1, Min(plan.budget + 1, c.policy.maxRetries))
            case Some(a) => if a >= plan.budget then 1 else Max(1, c.policy.maxRetries)
    ensures var s := states[|moves|];
            if GivesUp(c, plan)
            then
              && Times(s.acked, n) == 1 && Times(s.dead, n) == 0
              && id in s.repo.status && s.repo.status[id] == IsBounced
            else Times(s.acked, n) == 0 && Times(s.dead, n) == 1
  {
    DrainedWhereabouts(c, t, states, moves, n, plan);
    LifetimeClosedForm(c, plan);
    RunMarks(c, t, states, moves, n, id, plan);
  }
}
