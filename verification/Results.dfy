/**
  What the handler answers and what status a pass leaves, in terms of what is on record: deferrals are retried until
  the budget is used up, nothing deferred is ever acknowledged before, and the status says what happened.
*/
module Results {
  import opened Basics
  import opened Delivery
  import opened DeliveryFacts
  import opened Outcomes
  import opened Statuses
  import Overrides
  import Retry

  ghost predicate LogsDeferral(v: seq<Event>) {
    exists j :: 0 <= j < |v| && v[j].Recorded? && v[j].outcome.Deferred?
  }

  ghost predicate LogsBounce(v: seq<Event>) {
    exists j :: 0 <= j < |v| && v[j].Recorded? && v[j].outcome.Bounced?
  }

  ghost predicate LogsDelivery(v: seq<Event>) {
    exists j :: 0 <= j < |v| && v[j].Recorded? && v[j].outcome.Delivered?
  }

  ghost predicate LogsDrop(v: seq<Event>) {
    exists j :: 0 <= j < |v| && v[j].Recorded? && v[j].outcome.Suppressed?
  }

  /** The events of one pass. */
  ghost function PassLog(r: Repo, w: World, m: Message, groups: seq<Group>): seq<Event>
    requires NonEmptyGroups(groups)
  {
    var r' := Deliver(r, w, m, groups).repo;
    if r.log <= r'.log then r'.log[|r.log|..] else []
  }

  lemma KindsAgree(v: seq<Event>, outcomes: seq<(string, Outcome)>)
    requires SameOutcomes(v, outcomes)
    ensures AnyDeferred(outcomes) <==> LogsDeferral(v)
    ensures AnyBounced(outcomes) <==> LogsBounce(v)
    ensures AllDelivered(outcomes) <==> !LogsDeferral(v) && !LogsBounce(v) && !LogsDrop(v)
    ensures AllSuppressed(outcomes) <==> !LogsDeferral(v) && !LogsBounce(v) && !LogsDelivery(v)
  {
    forall k | 0 <= k < |outcomes|
      ensures Logged(v, outcomes[k].1)
    {
      assert Told(outcomes, outcomes[k].1);
    }
    forall j | 0 <= j < |v| && v[j].Recorded?
      ensures Told(outcomes, v[j].outcome)
    {
      assert Logged(v, v[j].outcome);
    }
  }

  lemma PassKinds(w: World, m: Message, r: Repo, groups: seq<Group>)
    requires IsGrouping(groups, m.rcpts) && Attempted(m, w) && Alive(Deliver(r, w, m, groups).repo, w)
    ensures SameOutcomes(PassLog(r, w, m, groups), Deliver(r, w, m, groups).outcomes)
  {
    PassTruthful(w, m, r, groups);
    var p := Deliver(r, w, m, groups);
    assert Tail(r, p.repo) == PassLog(r, w, m, groups);
  }

  // ----- the status

  /**
    The status of a message after a pass that ended in time and whose status write, if it made one, succeeded: bounced
    if any bounce is on record, else deferred if any deferral is, else delivered if nobody was dropped, dropped if
    nobody was delivered to, and unchanged if both occurred.
  */
  lemma StatusTells(w: World, m: Message, r: Repo, groups: seq<Group>)
    requires IsGrouping(groups, m.rcpts) && Attempted(m, w) && NeverNew(w, m.id.value)
    requires var r' := Deliver(r, w, m, groups).repo; Alive(r', w) && r'.tick > 0 && w.ok(r'.tick - 1)
    ensures var v, id, r' := PassLog(r, w, m, groups), m.id.value, Deliver(r, w, m, groups).repo;
            if LogsBounce(v) then id in r'.status && r'.status[id] == IsBounced
            else if LogsDeferral(v) then id in r'.status && r'.status[id] == IsDeferred
            else if !LogsDrop(v) then id in r'.status && r'.status[id] == IsDelivered
            else if !LogsDelivery(v) then id in r'.status && r'.status[id] == IsDropped
            else SameStatus(r, r', id)
  {
    var p := Deliver(r, w, m, groups);
    PassKinds(w, m, r, groups);
    KindsAgree(PassLog(r, w, m, groups), p.outcomes);
    GroupsStatus(w, EnvelopeOf(m), r, groups, m.id.value);
  }

  // ----- the answer

  /** The retry count and, if it is known when the message was queued, its age are within a recipient's own settings. */
  predicate MayRetry(c: Retry.Config, w: World, x: string, retries: u32, queuedAt: Option<nat>) {
    && retries < PolicyFor(c, x).maxRetries
    && 0 < PolicyFor(c, x).queueLifetimeMs
    && (queuedAt.Some? ==> w.nowMs < queuedAt.value + PolicyFor(c, x).queueLifetimeMs)
  }

  /**
    A pass that ended in time is acknowledged if and only if no deferral is on record or the retry budget of the deferred
    groups is used up; otherwise a retry is asked for, after the longest delay a deferred group's own settings give.
  */
  lemma AnswersRecord(w: World, c: Retry.Config, m: Message, retries: u32, queuedAt: Option<nat>, r: Repo,
                      groups: seq<Group>)
    requires IsGrouping(groups, m.rcpts) && Attempted(m, w) && Alive(Deliver(r, w, m, groups).repo, w)
    ensures var p := Deliver(r, w, m, groups);
            var result := Handle(r, w, c, m, retries, queuedAt, groups).result;
            && (result == Ack <==>
                  !LogsDeferral(PassLog(r, w, m, groups))
                  || BudgetExhausted(c, p.outcomes, retries, ElapsedMs(w, queuedAt)))
            && (result != Ack ==> result.RetryAfter? && LongestOwnDelay(c, w, p.outcomes, retries, result.delayMs))
  {
    var p := Deliver(r, w, m, groups);
    PassKinds(w, m, r, groups);
    KindsAgree(PassLog(r, w, m, groups), p.outcomes);
    if AnyDeferred(p.outcomes) {
      LongestIsOwn(c, w, p.outcomes, retries);
    }
  }

  /** The delay a deferred outcome's own settings give for its class. */
  ghost predicate IsOwnDelay(c: Retry.Config, w: World, o: (string, Outcome), k: nat, retries: u32, delayMs: nat) {
    o.1.Deferred? && delayMs == Retry.Delay(PolicyFor(c, o.0), retries, Some(o.1.bounce), w.draw(k))
  }

  /** The delay is that of some deferred outcome, and none asks for a longer one. */
  ghost predicate LongestOwnDelay(c: Retry.Config, w: World, outcomes: seq<(string, Outcome)>, retries: u32,
                                  delayMs: nat) {
    && (exists k :: 0 <= k < |outcomes| && IsOwnDelay(c, w, outcomes[k], k, retries, delayMs))
    && forall k :: 0 <= k < |outcomes| && outcomes[k].1.Deferred? ==>
         Retry.Delay(PolicyFor(c, outcomes[k].0), retries, Some(outcomes[k].1.bounce), w.draw(k)) <= delayMs
  }

  lemma LongestIsOwn(c: Retry.Config, w: World, outcomes: seq<(string, Outcome)>, retries: u32)
    requires AnyDeferred(outcomes)
    ensures LongestOwnDelay(c, w, outcomes, retries, LongestDelay(c, w, outcomes, retries).value)
  {
    var own, d := OwnDelays(c, w, outcomes, retries), LongestDelay(c, w, outcomes, retries).value;
    assert Longest(own) == Some(d);
    var k :| 0 <= k < |own| && own[k] == Some(d);
    assert IsOwnDelay(c, w, outcomes[k], k, retries, d);
    forall i | 0 <= i < |outcomes| && outcomes[i].1.Deferred?
      ensures Retry.Delay(PolicyFor(c, outcomes[i].0), retries, Some(outcomes[i].1.bounce), w.draw(i)) <= d
    {
      assert own[i].Some?;
    }
  }

  lemma ShouldRetryMeans(c: Retry.Config, w: World, x: string, retries: u32, queuedAt: Option<nat>)
    ensures Retry.ShouldRetry(PolicyFor(c, x), retries, ElapsedMs(w, queuedAt)) <==> MayRetry(c, w, x, retries, queuedAt)
  {
  }

  /**
    A deferral on record is retried while every recipient may still be, and given up once none may: only recipients
    with different settings make it a matter of which of them are deferred.
  */
  lemma DeferralRetried(w: World, c: Retry.Config, m: Message, retries: u32, queuedAt: Option<nat>, r: Repo,
                        groups: seq<Group>)
    requires IsGrouping(groups, m.rcpts) && Attempted(m, w) && Alive(Deliver(r, w, m, groups).repo, w)
    requires LogsDeferral(PassLog(r, w, m, groups))
    ensures var result := Handle(r, w, c, m, retries, queuedAt, groups).result;
            && ((forall x :: x in m.rcpts ==> MayRetry(c, w, x, retries, queuedAt)) ==> result.RetryAfter?)
            && ((forall x :: x in m.rcpts ==> !MayRetry(c, w, x, retries, queuedAt)) ==> result == Ack)
  {
    var p := Deliver(r, w, m, groups);
    AnswersRecord(w, c, m, retries, queuedAt, r, groups);
    PassKinds(w, m, r, groups);
    KindsAgree(PassLog(r, w, m, groups), p.outcomes);
    forall k | 0 <= k < |p.outcomes| && p.outcomes[k].1.Deferred?
      ensures p.outcomes[k].0 in m.rcpts
    {
      DeferredNamesRecipient(w, m, r, groups, k);
    }
    forall x: string {
      ShouldRetryMeans(c, w, x, retries, queuedAt);
    }
  }

  lemma DeferredNamesRecipient(w: World, m: Message, r: Repo, groups: seq<Group>, k: nat)
    requires IsGrouping(groups, m.rcpts) && Attempted(m, w)
    requires k < |Deliver(r, w, m, groups).outcomes| && Deliver(r, w, m, groups).outcomes[k].1.Deferred?
    ensures Deliver(r, w, m, groups).outcomes[k].0 in m.rcpts
  {
    Overrides.GroupsNameFirst(w, EnvelopeOf(m), r, groups);
    var o := Deliver(r, w, m, groups).outcomes[k];
    assert Overrides.NamesFirst(groups, o);
    var i :| 0 <= i < |groups| && groups[i].rcpts != [] && o.0 == groups[i].rcpts[0];
    InDomainMembers(m.rcpts, groups[i].domain);
  }

  // ----- without a pass

  /** A handling that runs into its deadline is tried again five minutes later. */
  lemma TimeoutAnswer(w: World, c: Retry.Config, m: Message, retries: u32, queuedAt: Option<nat>, r: Repo,
                      groups: seq<Group>)
    requires NonEmptyGroups(groups)
    ensures !Alive(Deliver(r, w, m, groups).repo, w) ==>
              Handle(r, w, c, m, retries, queuedAt, groups).result == RetryAfter(5 * 60 * 1000)
  {
  }

  /**
    The early returns of a handling that has time: a message without a usable tenant or id, or without its body, is
    acknowledged untouched; while a warm-up limit is used up it is retried like a soft deferral of its first recipient.
  */
  lemma EarlyAnswers(w: World, c: Retry.Config, m: Message, retries: u32, queuedAt: Option<nat>, r: Repo,
                     groups: seq<Group>)
    requires NonEmptyGroups(groups) && Alive(r, w) && !Attempted(m, w)
    ensures var h := Handle(r, w, c, m, retries, queuedAt, groups);
            if m.tenant.None? || m.id.None? || w.warmupOpen then h == Handled(r, Ack)
            else
              var first := if m.rcpts == [] then "" else m.rcpts[0];
              if MayRetry(c, w, first, retries, queuedAt)
              then h == Handled(r, RetryAfter(Retry.Delay(PolicyFor(c, first), retries, Some(Soft), w.draw(0))))
              else
                && h.result == Ack && h.repo.log == r.log && h.repo.published == r.published
                && (w.ok(r.tick) ==> h.repo.status == r.status[m.id.value := IsBounced])
  {
    var p := Deliver(r, w, m, groups);
    assert p.repo == r && |p.outcomes| == 1;
    if m.tenant.Some? && m.id.Some? && !w.warmupOpen {
      assert p.outcomes[0] == (Placeholder(m), Deferred(Soft));
      ShouldRetryMeans(c, w, Placeholder(m), retries, queuedAt);
      assert AnyDeferred(p.outcomes);
      LongestIsOwn(c, w, p.outcomes, retries);
    } else {
      assert p.outcomes[0].1 == Bounced(Hard);
    }
  }
}
