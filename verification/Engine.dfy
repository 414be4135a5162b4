/** The delivery engine itself: the loops and updates of crates/sentio-smtp-client/src/delivery.rs. */
module Engine {
  import opened Basics
  import opened Delivery
  import Retry

  /** The hash map `group_by_domain` builds. */
  ghost predicate Buckets(m: map<string, seq<string>>, rcpts: seq<string>) {
    && (forall d :: d in m ==> m[d] == InDomain(rcpts, d) && m[d] != [])
    && (forall d :: d !in m ==> InDomain(rcpts, d) == [])
    && (forall k :: 0 <= k < |rcpts| ==> DomainOf(rcpts[k]) in m)
  }

  lemma InDomainSnoc(rcpts: seq<string>, x: string, d: string)
    ensures InDomain(rcpts + [x], d) == InDomain(rcpts, d) + if DomainOf(x) == d then [x] else []
  {
    assert (rcpts + [x])[..|rcpts|] == rcpts;
  }

  lemma BucketsSnoc(m: map<string, seq<string>>, rcpts: seq<string>, x: string, d: string)
    requires Buckets(m, rcpts) && d == DomainOf(x)
    ensures Buckets(m[d := (if d in m then m[d] else []) + [x]], rcpts + [x])
  {
    forall y {
      InDomainSnoc(rcpts, x, y);
    }
  }

  method FillBuckets(rcpts: seq<string>) returns (m: map<string, seq<string>>)
    ensures Buckets(m, rcpts)
  {
    m := map[];
    ghost var done: seq<string> := [];
    for i := 0 to |rcpts|
      invariant done == rcpts[..i] && Buckets(m, done)
    {
      var d := DomainOf(rcpts[i]);
      BucketsSnoc(m, done, rcpts[i], d);
      m := m[d := (if d in m then m[d] else []) + [rcpts[i]]];
      done := done + [rcpts[i]];
    }
    assert done == rcpts;
  }

  /** `group_by_domain`: fill a hash map, then drain it in whatever order it yields. */
  method GroupByDomain(rcpts: seq<string>) returns (groups: seq<Group>)
    ensures IsGrouping(groups, rcpts)
    ensures multiset(Flatten(groups)) == multiset(rcpts)
  {
    var m := FillBuckets(rcpts);
    groups := Drain(m);
    DrainedIsGrouping(groups, m, rcpts);
    GroupingIsPartition(groups, rcpts);
  }

  ghost predicate Drained(groups: seq<Group>, m: map<string, seq<string>>, done: set<string>) {
    && (forall d :: HasDomain(groups, d) <==> d in done)
    && (forall i, j :: 0 <= i < j < |groups| ==> groups[i].domain != groups[j].domain)
    && (forall i :: 0 <= i < |groups| ==> groups[i].domain in m && groups[i].rcpts == m[groups[i].domain])
  }

  lemma DrainedIsGrouping(groups: seq<Group>, m: map<string, seq<string>>, rcpts: seq<string>)
    requires Drained(groups, m, m.Keys) && Buckets(m, rcpts)
    ensures IsGrouping(groups, rcpts)
  {
  }

  lemma DrainedStep(groups: seq<Group>, m: map<string, seq<string>>, done: set<string>, d: string)
    requires Drained(groups, m, done) && d in m && d !in done
    ensures Drained(groups + [Group(d, m[d])], m, done + {d})
  {
    var g := Group(d, m[d]);
    forall d' {
      HasDomainSnoc(groups, g, d');
    }
    assert !HasDomain(groups, d);
  }

  method Drain(m: map<string, seq<string>>) returns (groups: seq<Group>)
    ensures Drained(groups, m, m.Keys)
  {
    groups := [];
    var left := m.Keys;
    while left != {}
      invariant left <= m.Keys
      invariant Drained(groups, m, m.Keys - left)
      decreases left
    {
      var d :| d in left;
      DrainedStep(groups, m, m.Keys - left, d);
      groups := groups + [Group(d, m[d])];
      left := left - {d};
    }
  }

  class DeliveryEngine {
    const config: Retry.Config
    var tick: nat
    var suppressed: set<(nat, string)>
    var status: map<nat, Status>
    var published: seq<Message>
    var log: seq<Event>

    constructor (config: Retry.Config)
      ensures this.config == config && State() == Repo(0, {}, map[], [], [])
    {
      this.config := config;
      tick, suppressed, status, published, log := 0, {}, map[], [], [];
    }

    ghost function State(): Repo
      reads this
    {
      Repo(tick, suppressed, status, published, log)
    }

    /** Await one external call. */
    method Call(w: World) returns (ok: bool)
      modifies this`tick
      ensures State() == Tick(old(State())) && ok == Ok(old(State()), w)
    {
      ok := tick < w.deadline && w.ok(tick);
      tick := tick + 1;
    }

    /** Upload a report, insert its record and publish it with a null sender. */
    method PublishDsn(w: World, e: Envelope, rcpt: string)
      modifies this
      ensures State() == QueueDsn(old(State()), w, e, rcpt)
    {
      var fid := Call(w);
      if !fid { return; }
      var uploaded := Call(w);
      if !uploaded { return; }
      var id := w.newId(tick);
      var inserted := Call(w);
      if !inserted { return; }
      status := status[id := IsQueued];
      var sent := Call(w);
      if sent {
        published := published + [Message(Some(id), Some(e.tenant), "", [e.sender])];
        log := log + [DsnQueued(e.tenant, e.id, rcpt)];
      }
    }

    method RecordOutcome(w: World, e: Envelope, rcpt: string, o: Outcome)
      modifies this
      ensures State() == Record(old(State()), w, e, rcpt, o)
    {
      if tick >= w.deadline { return; }
      log := log + [Recorded(e.tenant, e.id, rcpt, o, w.ok(tick), tick)];
      tick := tick + 1;
      if o == Bounced(Hard) {
        var added := tick < w.deadline && w.barOk(tick);
        tick := tick + 1;
        if added {
          suppressed := suppressed + {(e.tenant, rcpt)};
          log := log + [Barred(e.tenant, rcpt)];
        }
        if e.sender != "" {
          PublishDsn(w, e, rcpt);
        }
      }
    }

    /** The suppression checks of one group: who is left to offer, and the drops. */
    method Screen(w: World, e: Envelope, rcpts: seq<string>)
      returns (active: seq<string>, outcomes: seq<(string, Outcome)>)
      modifies this
      ensures Screening(State(), active, outcomes) == CheckAll(old(State()), w, e, rcpts)
    {
      active, outcomes := [], [];
      for i := 0 to |rcpts|
        invariant Screening(State(), active, outcomes) == CheckAll(old(State()), w, e, rcpts[..i])
      {
        assert rcpts[..i + 1][..i] == rcpts[..i];
        if tick < w.deadline {
          var barred := w.checkOk(tick) && (e.tenant, rcpts[i]) in suppressed;
          tick := tick + 1;
          if barred {
            RecordOutcome(w, e, rcpts[i], Suppressed);
            outcomes := outcomes + [(rcpts[i], Suppressed)];
          } else {
            active := active + [rcpts[i]];
          }
        }
      }
      assert rcpts[..|rcpts|] == rcpts;
    }

    method RecordOutcomes(w: World, e: Envelope, rcpts: seq<string>, o: Outcome)
      modifies this
      ensures State() == RecordAll(old(State()), w, e, rcpts, o)
    {
      for i := 0 to |rcpts|
        invariant State() == RecordAll(old(State()), w, e, rcpts[..i], o)
      {
        assert rcpts[..i + 1][..i] == rcpts[..i];
        RecordOutcome(w, e, rcpts[i], o);
      }
      assert rcpts[..|rcpts|] == rcpts;
    }

    method AttemptGroup(w: World, e: Envelope, g: Group, before: seq<(string, Outcome)>)
      returns (outcomes: seq<(string, Outcome)>)
      requires g.rcpts != []
      modifies this
      ensures Pass(State(), outcomes) == DeliverGroup(Pass(old(State()), before), w, e, g)
    {
      outcomes := before;
      if tick >= w.deadline { return; }
      var active, dropped := Screen(w, e, g.rcpts);
      outcomes := outcomes + dropped;
      if active == [] || tick >= w.deadline { return; }
      var verdict := OfferAll(w, e, active);
      outcomes := outcomes + [(g.rcpts[0], verdict)];
    }

    /** Hand the recipients of one domain to SMTP and record the one verdict for each. */
    method OfferAll(w: World, e: Envelope, active: seq<string>) returns (verdict: Verdict)
      modifies this
      ensures verdict == w.answer(old(tick))
      ensures State() == RecordAll(Offer(old(State()), e, active), w, e, active, verdict)
    {
      verdict := w.answer(tick);
      log := log + [Offered(e.tenant, active, tick)];
      tick := tick + 1;
      RecordOutcomes(w, e, active, verdict);
    }

    method WriteStatus(w: World, id: nat, s: Status)
      modifies this
      ensures State() == SetStatus(old(State()), w, id, s)
    {
      var ok := Call(w);
      if ok {
        status := status[id := s];
      }
    }

    /** `deliver`: the result is that of one admissible grouping of the recipients. */
    method Attempt(w: World, m: Message) returns (outcomes: seq<(string, Outcome)>, ghost groups: seq<Group>)
      modifies this
      ensures IsGrouping(groups, m.rcpts)
      ensures Pass(State(), outcomes) == Deliver(old(State()), w, m, groups)
    {
      var grouped := GroupByDomain(m.rcpts);
      groups := grouped;
      var first := if |m.rcpts| == 0 then "" else m.rcpts[0];
      if m.tenant.None? { return [(first, Bounced(Hard))], groups; }
      if m.id.None? { return [(first, Bounced(Hard))], groups; }
      if !w.warmupOpen { return [(first, Deferred(Soft))], groups; }
      if !w.blobOk { return [(first, Bounced(Hard))], groups; }

      var e := Envelope(m.tenant.value, m.id.value, m.sender);
      outcomes := [];
      for i := 0 to |grouped|
        invariant Pass(State(), outcomes) == DeliverGroups(old(State()), w, e, grouped[..i])
      {
        assert grouped[..i + 1][..i] == grouped[..i];
        outcomes := AttemptGroup(w, e, grouped[i], outcomes);
      }
      assert grouped[..|grouped|] == grouped;
      var final := FinalStatus(outcomes);
      if final.Some? {
        WriteStatus(w, m.id.value, final.value);
      }
    }

    /** `retry_budget_exhausted`, with its early exit. */
    method RetryBudgetExhausted(outcomes: seq<(string, Outcome)>, retries: u32, elapsedMs: nat) returns (b: bool)
      ensures b == BudgetExhausted(config, outcomes, retries, elapsedMs)
    {
      b := false;
      for i := 0 to |outcomes|
        invariant b <==> exists k :: 0 <= k < i && outcomes[k].1.Deferred?
        invariant forall k :: 0 <= k < i && outcomes[k].1.Deferred? ==>
                    !Retry.ShouldRetry(PolicyFor(config, outcomes[k].0), retries, elapsedMs)
      {
        if outcomes[i].1.Deferred? {
          b := true;
          if Retry.ShouldRetry(PolicyFor(config, outcomes[i].0), retries, elapsedMs) {
            return false;
          }
        }
      }
    }

    /** `deferred_retry_delay`: the longest delay any deferred recipient's own policy asks for. */
    method DeferredRetryDelay(w: World, outcomes: seq<(string, Outcome)>, retries: u32) returns (d: Option<nat>)
      ensures d == LongestDelay(config, w, outcomes, retries)
      ensures d.Some? <==> AnyDeferred(outcomes)
      ensures d.Some? ==>
        var own := OwnDelays(config, w, outcomes, retries);
        d in own && forall i :: 0 <= i < |own| && own[i].Some? ==> own[i].value <= d.value
    {
      d := LongestOf(OwnDelays(config, w, outcomes, retries));
    }

    static method LongestOf(delays: seq<Option<nat>>) returns (d: Option<nat>)
      ensures d == Longest(delays)
    {
      d := None;
      for i := 0 to |delays|
        invariant d == Longest(delays[..i])
      {
        assert delays[..i + 1][..i] == delays[..i];
        if delays[i].Some? {
          d := if d.Some? then Some(Max(d.value, delays[i].value)) else delays[i];
        }
      }
      assert delays[..|delays|] == delays;
    }

    /** `MessageHandler::handle`. */
    method Process(w: World, m: Message, retries: u32, queuedAt: Option<nat>)
      returns (result: HandlerResult, ghost groups: seq<Group>)
      modifies this
      ensures IsGrouping(groups, m.rcpts)
      ensures Handled(State(), result) == Handle(old(State()), w, config, m, retries, queuedAt, groups)
    {
      var outcomes;
      outcomes, groups := Attempt(w, m);
      if tick >= w.deadline { return RetryAfter(TIMEOUT_RETRY_MS), groups; }
      if !AnyDeferred(outcomes) || m.id.None? { return Ack, groups; }
      var elapsed := ElapsedMs(w, queuedAt);
      var exhausted := RetryBudgetExhausted(outcomes, retries, elapsed);
      if exhausted {
        WriteStatus(w, m.id.value, IsBounced);
        return Ack, groups;
      }
      var delay := DeferredRetryDelay(w, outcomes, retries);
      return RetryAfter(delay.value), groups;
    }
  }
}
