/**
  What one turn of the consumer loop does with the handler's answer: where the message goes, when it comes back, and
  that over a run every handling is answered exactly once.
*/
module Turns {
  import opened Basics
  import opened Delivery
  import opened DeliveryFacts
  import opened Queue
  import opened Persistence
  import opened Results
  import opened Statuses
  import Retry

  /** The entry as the turn has seen it. */
  function Seen(s: Sys, i: nat): Entry
    requires i < |s.queue|
  {
    s.queue[i].(delivered := s.queue[i].delivered + 1)
  }

  /** The entry has left the queue; the others are where they were, and what follows them is new. */
  ghost predicate Left(s: Sys, s': Sys, i: nat)
    requires i < |s.queue|
  {
    && Without(s.queue, i) <= s'.queue
    && forall k :: |s.queue| - 1 <= k < |s'.queue| ==> s'.queue[k].delivered == 0 && s.nextSeq <= s'.queue[k].seqNo
  }

  /** The entry was acknowledged. */
  ghost predicate Accepted(s: Sys, s': Sys, i: nat)
    requires i < |s.queue|
  {
    && Left(s, s', i) && s'.acked == s.acked + [Seen(s, i)]
    && s'.dead == s.dead && s'.lost == s.lost && s'.naks == s.naks
  }

  /** The entry went to the dead-letter stream, or was lost because that publish failed. */
  ghost predicate Buried(s: Sys, s': Sys, i: nat, publishOk: bool)
    requires i < |s.queue|
  {
    && Left(s, s', i) && s'.acked == s.acked && s'.naks == s.naks
    && s'.dead == (if publishOk then s.dead + [Seen(s, i)] else s.dead)
    && s'.lost == (if publishOk then s.lost else s.lost + [Seen(s, i)])
  }

  /** The entry waits again, and the broker was told for how long. */
  ghost predicate Delayed(s: Sys, s': Sys, i: nat, delayMs: nat)
    requires i < |s.queue|
  {
    && Without(s.queue, i) <= s'.queue && s'.queue != [] && s'.queue[|s'.queue| - 1] == Seen(s, i)
    && s'.naks == s.naks + [Nak(s.queue[i].seqNo, delayMs)]
    && s'.acked == s.acked && s'.dead == s.dead && s'.lost == s.lost
  }

  /** A retry asked for at this delivery is granted below the consumer's cap, and buries the message at it. */
  ghost predicate Retried(c: Setup, s: Sys, s': Sys, i: nat, publishOk: bool, delayMs: nat)
    requires i < |s.queue|
  {
    if AsU32(s.queue[i].delivered + 1) < c.policy.maxRetries then Delayed(s, s', i, delayMs)
    else Buried(s, s', i, publishOk)
  }

  /** A payload that does not parse is dead-lettered, never acknowledged without that, and changes nothing else. */
  lemma GarbageTurn(c: Setup, s: Sys, v: Move)
    requires Legal(s, v) && s.queue[v.index].payload.Garbage?
    ensures Buried(s, Step(c, s, v), v.index, v.world.deadLetterOk)
    ensures Step(c, s, v).repo == s.repo && Step(c, s, v).queue == Without(s.queue, v.index)
  {
  }

  /** What the acknowledgement does, by the handler's answer. */
  lemma AnswerDecides(c: Setup, s: Sys, v: Move, h: Handled)
    requires v.index < |s.queue|
    ensures var s' := Settled(c, s, v, h);
            match h.result
            case Ack => Accepted(s, s', v.index)
            case RetryAfter(d) => Retried(c, s, s', v.index, v.world.deadLetterOk, d)
            case Reject => Buried(s, s', v.index, v.world.deadLetterOk)
            case Again =>
              exists d: nat :: d <= c.policy.maxDelayMs && Retried(c, s, s', v.index, v.world.deadLetterOk, d)
  {
    if h.result == Again {
      var count := AsU32(s.queue[v.index].delivered + 1);
      var d := Retry.Delay(c.policy, if count > 0 then count - 1 else 0, None, v.world.draw(0));
      assert Retried(c, s, Settled(c, s, v, h), v.index, v.world.deadLetterOk, d);
    }
  }

  /** With the consumer's own retries undisturbed, the first five deliveries follow the fixed schedule up to the cap. */
  lemma PlainRetry(c: Setup, s: Sys, v: Move, h: Handled)
    requires v.index < |s.queue| && h.result == Again && c.policy.jitterFactor <= 0.0
    requires s.queue[v.index].delivered < 5
    ensures var delays := [3, 5, 10, 15, 30];
            var d := Min(delays[s.queue[v.index].delivered] * 60_000, c.policy.maxDelayMs);
            Retried(c, s, Settled(c, s, v, h), v.index, v.world.deadLetterOk, d)
  {
    var k := s.queue[v.index].delivered;
    PlainDelay(c.policy, k, v.world.draw(0));
    assert AsU32(k + 1) == k + 1;
  }

  lemma PlainDelay(p: Retry.Policy, k: u32, draw: Retry.Draw)
    requires k < 5 && p.jitterFactor <= 0.0
    ensures Retry.Delay(p, k, None, draw) == Min([3, 5, 10, 15, 30][k] * 60_000, p.maxDelayMs)
  {
    Retry.DelayBounded(p, k, None, draw);
    Retry.ScheduleExactly(p, k);
  }

  /** What the handler answers to a message past the early returns. */
  ghost predicate FitsRecord(w: World, c: Retry.Config, m: Message, retries: u32, queuedAt: Option<nat>, r: Repo,
                             groups: seq<Group>, result: HandlerResult)
    requires NonEmptyGroups(groups)
  {
    var p := Deliver(r, w, m, groups);
    if !Alive(p.repo, w) then result == RetryAfter(5 * 60 * 1000)
    else if !LogsDeferral(PassLog(r, w, m, groups)) || BudgetExhausted(c, p.outcomes, retries, ElapsedMs(w, queuedAt))
    then result == Ack
    else result.RetryAfter? && LongestOwnDelay(c, w, p.outcomes, retries, result.delayMs)
  }

  lemma HandleAnswer(w: World, c: Retry.Config, m: Message, retries: u32, queuedAt: Option<nat>, r: Repo,
                     groups: seq<Group>, result: HandlerResult)
    requires IsGrouping(groups, m.rcpts) && Attempted(m, w)
    requires result == Handle(r, w, c, m, retries, queuedAt, groups).result
    ensures FitsRecord(w, c, m, retries, queuedAt, r, groups, result)
  {
    if Alive(Deliver(r, w, m, groups).repo, w) {
      AnswersRecord(w, c, m, retries, queuedAt, r, groups);
    } else {
      TimeoutAnswer(w, c, m, retries, queuedAt, r, groups);
    }
  }

  lemma EntryAnswer(c: Setup, r: Repo, e: Entry, v: Move, result: HandlerResult)
    requires e.payload.Mail? && IsGrouping(v.groups, e.payload.m.rcpts) && Attempted(e.payload.m, v.world)
    requires result == HandleEntry(c, r, e, v).result
    ensures FitsRecord(v.world, c.engine, e.payload.m, RetryCount(e, AsU32(e.delivered + 1)), e.queuedAt, r, v.groups,
                       result)
  {
    EntryHandled(c, r, e, v, HandleEntry(c, r, e, v));
    HandleAnswer(v.world, c.engine, e.payload.m, RetryCount(e, AsU32(e.delivered + 1)), e.queuedAt, r, v.groups, result);
  }

  lemma TurnObeys(c: Setup, s: Sys, v: Move, s': Sys, result: HandlerResult)
    requires Legal(s, v) && s' == Step(c, s, v) && result == HandleEntry(c, s.repo, s.queue[v.index], v).result
    ensures result == Ack ==> Accepted(s, s', v.index)
    ensures result.RetryAfter? ==> Retried(c, s, s', v.index, v.world.deadLetterOk, result.delayMs)
  {
    AnswerDecides(c, s, v, HandleEntry(c, s.repo, s.queue[v.index], v));
  }

  /**
    A turn that handles a message past the early returns: cut by the deadline it comes back after five minutes; without
    a deferral on record, or with the budget of the deferred groups used up, it is acknowledged; otherwise it comes
    back after the longest delay a deferred group's own settings give. At the consumer's cap it is buried instead.
  */
  lemma TurnExactly(c: Setup, s: Sys, v: Move, e: Entry, s': Sys) returns (result: HandlerResult)
    requires Legal(s, v) && e == s.queue[v.index] && e.payload.Mail? && Attempted(e.payload.m, v.world)
    requires s' == Step(c, s, v)
    ensures FitsRecord(v.world, c.engine, e.payload.m, RetryCount(e, AsU32(e.delivered + 1)), e.queuedAt, s.repo, v.groups,
                       result)
    ensures result == Ack ==> Accepted(s, s', v.index)
    ensures result.RetryAfter? ==> Retried(c, s, s', v.index, v.world.deadLetterOk, result.delayMs)
  {
    result := HandleEntry(c, s.repo, e, v).result;
    EntryAnswer(c, s.repo, e, v, result);
    TurnObeys(c, s, v, s', result);
  }

  // ----- over a run

  function NaksFor(naks: seq<Nak>, n: nat): nat {
    if naks == [] then 0 else NaksFor(naks[..|naks| - 1], n) + if naks[|naks| - 1].seqNo == n then 1 else 0
  }

  lemma NaksForSnoc(naks: seq<Nak>, x: Nak, n: nat)
    ensures NaksFor(naks + [x], n) == NaksFor(naks, n) + if x.seqNo == n then 1 else 0
  {
    assert (naks + [x])[..|naks|] == naks;
  }

  /** How often message `n` has been answered: sent back, acknowledged, dead-lettered or lost. */
  function AnswersTo(s: Sys, n: nat): nat {
    NaksFor(s.naks, n) + Times(s.acked, n) + Times(s.dead, n) + Times(s.lost, n)
  }

  lemma TurnAnswersOnce(c: Setup, s: Sys, v: Move, s': Sys, n: nat)
    requires Legal(s, v) && s' == Step(c, s, v)
    ensures AnswersTo(s', n) == AnswersTo(s, n) + if s.queue[v.index].seqNo == n then 1 else 0
  {
    AnsweredOnce(c, s, v, HandleEntry(c, s.repo, s.queue[v.index], v), n);
  }

  lemma AnsweredOnce(c: Setup, s: Sys, v: Move, h: Handled, n: nat)
    requires v.index < |s.queue|
    ensures AnswersTo(Settled(c, s, v, h), n) == AnswersTo(s, n) + if s.queue[v.index].seqNo == n then 1 else 0
  {
    MovedOnce(s, v.index, h.repo, NewMessages(s.repo, h.repo), Decision(c, s.queue[v.index], v, h.result),
              v.world.deadLetterOk, n);
  }

  lemma MovedOnce(s: Sys, i: nat, r: Repo, ms: seq<Message>, d: Disposition, deadLetterOk: bool, n: nat)
    requires i < |s.queue|
    ensures AnswersTo(After(s, i, r, ms, d, deadLetterOk), n) == AnswersTo(s, n) + if s.queue[i].seqNo == n then 1 else 0
  {
    var seen := Seen(s, i);
    TimesOne(seen, n);
    match d {
      case Acked => TimesConcat(s.acked, [seen], n);
      case Nakked(delayMs) => NaksForSnoc(s.naks, Nak(seen.seqNo, delayMs), n);
      case DeadLettered =>
        TimesConcat(s.dead, [seen], n);
        TimesConcat(s.lost, [seen], n);
    }
  }

  /** Over every run each handling of a message is answered exactly once. */
  lemma {:induction false} EveryHandlingAnswered(c: Setup, t: Trust, states: seq<Sys>, moves: seq<Move>, n: nat)
    requires IsRun(c, t, states, moves)
    ensures AnswersTo(states[|moves|], n) == AnswersTo(states[0], n) + Handlings(states, moves, n)
    decreases |moves|
  {
    if moves != [] {
      var k := |moves| - 1;
      RunPrefix(c, t, states, moves);
      EveryHandlingAnswered(c, t, states[..k + 1], moves[..k], n);
      AnsweredAt(c, t, states, moves, k, n);
      AllIndices(c, t, states, moves);
      HandlingsLast(states, moves, n);
    }
  }

  lemma RunPrefix(c: Setup, t: Trust, states: seq<Sys>, moves: seq<Move>)
    requires IsRun(c, t, states, moves) && moves != []
    ensures IsRun(c, t, states[..|moves|], moves[..|moves| - 1])
  {
  }

  lemma AllIndices(c: Setup, t: Trust, states: seq<Sys>, moves: seq<Move>)
    requires IsRun(c, t, states, moves)
    ensures forall k :: 0 <= k < |moves| ==> moves[k].index < |states[k].queue|
  {
  }

  lemma AnsweredAt(c: Setup, t: Trust, states: seq<Sys>, moves: seq<Move>, k: nat, n: nat)
    requires IsRun(c, t, states, moves) && k < |moves|
    ensures moves[k].index < |states[k].queue|
    ensures AnswersTo(states[k + 1], n)
            == AnswersTo(states[k], n) + if states[k].queue[moves[k].index].seqNo == n then 1 else 0
  {
    TurnAnswersOnce(c, states[k], moves[k], states[k + 1], n);
  }
}
