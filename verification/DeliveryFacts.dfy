/** What every delivery pass does and does not do, for every behaviour of the environment. */
module DeliveryFacts {
  import opened Basics
  import opened Delivery
  import Retry

  // ----- counting events

  function RecordedFor(events: seq<Event>, x: string): nat {
    if events == [] then 0
    else
      var last := events[|events| - 1];
      RecordedFor(events[..|events| - 1], x) + if last.Recorded? && last.rcpt == x then 1 else 0
  }

  function DsnsFor(events: seq<Event>, x: string): nat {
    if events == [] then 0
    else
      var last := events[|events| - 1];
      DsnsFor(events[..|events| - 1], x) + if last.DsnQueued? && last.rcpt == x then 1 else 0
  }

  lemma {:induction false} CountsAdd(a: seq<Event>, b: seq<Event>, x: string)
    ensures RecordedFor(a + b, x) == RecordedFor(a, x) + RecordedFor(b, x)
    ensures DsnsFor(a + b, x) == DsnsFor(a, x) + DsnsFor(b, x)
  {
    if b == [] {
      assert a + b == a;
    } else {
      var init := b[..|b| - 1];
      CountsAdd(a, init, x);
      assert (a + b)[..|a + b| - 1] == a + init;
    }
  }

  // ----- the effect of a stretch of a pass that handles the recipients `rs`

  ghost predicate Grows(r: Repo, r': Repo) {
    r.tick <= r'.tick && r.suppressed <= r'.suppressed && r.log <= r'.log && r.published <= r'.published
  }

  ghost function Tail(r: Repo, r': Repo): seq<Event>
    requires Grows(r, r')
  {
    r'.log[|r.log|..]
  }

  predicate IsReport(m: Message, e: Envelope) {
    m.id.Some? && m == Dsn(m.id.value, e)
  }

  /** At most `n` messages were published, all of them reports, none for a null sender. */
  ghost predicate Reports(e: Envelope, r: Repo, r': Repo, n: nat) {
    && Grows(r, r')
    && |r'.published| - |r.published| <= n
    && (e.sender == "" ==> r'.published == r.published)
    && forall i :: |r.published| <= i < |r'.published| ==> IsReport(r'.published[i], e)
  }

  /** At most one report per recipient occurrence; exactly one event per occurrence when time remains. */
  ghost predicate Counted(w: World, r: Repo, r': Repo, rs: multiset<string>) {
    && Grows(r, r')
    && (forall x :: DsnsFor(Tail(r, r'), x) <= rs[x])
    && (Alive(r', w) ==> forall x :: RecordedFor(Tail(r, r'), x) == rs[x])
  }

  ghost predicate OwnEvents(w: World, e: Envelope, r: Repo, r': Repo) {
    && Grows(r, r')
    && forall i :: |r.log| <= i < |r'.log| ==> OwnEvent(w, e, r', r'.log[i])
  }

  /**
    Events name this envelope and reports a non-null sender; when suppression writes succeed a report implies that
    the recipient is barred, and so does a recorded hard bounce once the pass is known to have got past it.
  */
  ghost predicate OwnEvent(w: World, e: Envelope, r': Repo, v: Event) {
    match v
    case Offered(t, _, _) => t == e.tenant
    case Recorded(t, id, x, o, _, _) =>
      t == e.tenant && id == e.id && (BarsSucceed(w) && Alive(r', w) && o == Bounced(Hard) ==> (t, x) in r'.suppressed)
    case Barred(t, x) => t == e.tenant && (t, x) in r'.suppressed
    case DsnQueued(t, id, x) =>
      t == e.tenant && id == e.id && e.sender != "" && (BarsSucceed(w) ==> (t, x) in r'.suppressed)
  }

  predicate IsHardBounce(v: Event) {
    v.Recorded? && v.outcome == Bounced(Hard)
  }

  /** The event at `i` is a hard bounce and the suppression of its recipient comes right after it. */
  predicate BarredNext(log: seq<Event>, i: nat)
    requires i < |log| && IsHardBounce(log[i])
  {
    i + 1 < |log| && log[i + 1] == Barred(log[i].tenant, log[i].rcpt)
  }

  /** The stretch of log from `n` on ends in a hard bounce that is not yet barred. */
  predicate EndsUnbarred(log: seq<Event>, n: nat) {
    n < |log| && IsHardBounce(log[|log| - 1])
  }

  /** Hard bounces are barred at once, except one after which the deadline cut the pass. */
  ghost predicate Followed(w: World, r: Repo, r': Repo) {
    && Grows(r, r')
    && (!Alive(r, w) ==> r'.log == r.log)
    && (BarsSucceed(w) ==>
          && (EndsUnbarred(r'.log, |r.log|) ==> !Alive(r', w))
          && forall i :: |r.log| <= i < |r'.log| - 1 && IsHardBounce(r'.log[i]) ==> BarredNext(r'.log, i))
  }

  ghost predicate Effect(w: World, e: Envelope, r: Repo, r': Repo, rs: seq<string>) {
    && Reports(e, r, r', |rs|)
    && Counted(w, r, r', multiset(rs))
    && OwnEvents(w, e, r, r')
    && Followed(w, r, r')
  }

  lemma FollowedCompose(w: World, r: Repo, r1: Repo, r2: Repo)
    requires Followed(w, r, r1) && Followed(w, r1, r2)
    ensures Followed(w, r, r2)
  {
    if BarsSucceed(w) {
      forall i | |r.log| <= i < |r2.log| - 1 && IsHardBounce(r2.log[i])
        ensures BarredNext(r2.log, i)
      {
        if i < |r1.log| {
          assert r2.log[i] == r1.log[i];
          if i < |r1.log| - 1 {
            assert BarredNext(r1.log, i) && r2.log[i + 1] == r1.log[i + 1];
          }
        }
      }
    }
  }

  lemma EffectCompose(w: World, e: Envelope, r: Repo, r1: Repo, r2: Repo, a: seq<string>, b: seq<string>)
    requires Effect(w, e, r, r1, a) && Effect(w, e, r1, r2, b)
    ensures Effect(w, e, r, r2, a + b)
  {
    assert Tail(r, r2) == Tail(r, r1) + Tail(r1, r2);
    forall x {
      CountsAdd(Tail(r, r1), Tail(r1, r2), x);
    }
    assert multiset(a + b) == multiset(a) + multiset(b);
    forall i | |r.log| <= i < |r2.log|
      ensures OwnEvent(w, e, r2, r2.log[i])
    {
      if i < |r1.log| {
        assert r2.log[i] == r1.log[i];
        assert OwnEvent(w, e, r1, r1.log[i]);
      }
    }
    forall i | |r.published| <= i < |r2.published|
      ensures IsReport(r2.published[i], e)
    {
      if i < |r1.published| {
        assert r2.published[i] == r1.published[i];
      }
    }
    FollowedCompose(w, r, r1, r2);
  }

  /** A stretch that appends the given events and publishes nothing. */
  lemma EffectOfEvents(w: World, e: Envelope, r: Repo, r': Repo, v: seq<Event>, rs: seq<string>)
    requires Grows(r, r') && r'.published == r.published && r'.log == r.log + v && |v| <= 1
    requires forall i :: 0 <= i < |v| ==> OwnEvent(w, e, r', v[i]) && !v[i].DsnQueued? && !IsHardBounce(v[i])
    requires !Alive(r, w) ==> v == []
    requires Alive(r', w) ==> rs == if |v| == 1 && v[0].Recorded? then [v[0].rcpt] else []
    ensures Effect(w, e, r, r', rs)
  {
    assert Tail(r, r') == v;
    forall x
      ensures DsnsFor(v, x) == 0
      ensures Alive(r', w) ==> RecordedFor(v, x) == multiset(rs)[x]
    {
      if |v| == 1 {
        assert v[..0] == [];
        assert DsnsFor(v, x) == DsnsFor([], x);
      }
    }
  }

  lemma TickEffect(w: World, e: Envelope, r: Repo)
    ensures Effect(w, e, r, Tick(r), [])
  {
    EffectOfEvents(w, e, r, Tick(r), [], []);
  }

  /** The log grows by the event, then possibly the bar, then possibly the report. */
  function RecordTail(r: Repo, w: World, e: Envelope, rcpt: string, o: Outcome): (v: seq<Event>)
    requires Alive(r, w)
    ensures Record(r, w, e, rcpt, o).log == r.log + v
    ensures 1 <= |v| <= 3 && v[0] == Recorded(e.tenant, e.id, rcpt, o, w.ok(r.tick), r.tick)
    ensures |v| == 2 ==> v[1] == Barred(e.tenant, rcpt) || v[1] == DsnQueued(e.tenant, e.id, rcpt)
    ensures |v| == 3 ==> v[1] == Barred(e.tenant, rcpt) && v[2] == DsnQueued(e.tenant, e.id, rcpt)
    ensures |v| > 1 && v[|v| - 1].DsnQueued? <==> |Record(r, w, e, rcpt, o).published| > |r.published|
  {
    Record(r, w, e, rcpt, o).log[|r.log|..]
  }

  lemma TailCounts(v: seq<Event>, e: Envelope, rcpt: string, o: Outcome, x: string)
    requires 1 <= |v| <= 3 && v[0].Recorded? && v[0] == Recorded(e.tenant, e.id, rcpt, o, v[0].saved, v[0].at)
    requires |v| == 2 ==> v[1] == Barred(e.tenant, rcpt) || v[1] == DsnQueued(e.tenant, e.id, rcpt)
    requires |v| == 3 ==> v[1] == Barred(e.tenant, rcpt) && v[2] == DsnQueued(e.tenant, e.id, rcpt)
    ensures RecordedFor(v, x) == if x == rcpt then 1 else 0
    ensures DsnsFor(v, x) <= if x == rcpt then 1 else 0
  {
    assert v[..1][..0] == [];
    assert v[..1] == [v[0]];
    assert RecordedFor(v[..1], x) == (if x == rcpt then 1 else 0) && DsnsFor(v[..1], x) == 0;
    if |v| == 1 {
      assert v == v[..1];
    } else if |v| == 2 {
      assert v[..|v| - 1] == v[..1];
    } else {
      assert v[..2][..1] == v[..1];
      assert v[..|v| - 1] == v[..2];
      assert RecordedFor(v[..2], x) == RecordedFor(v[..1], x) && DsnsFor(v[..2], x) == 0;
    }
  }

  lemma RecordEffect(w: World, e: Envelope, r: Repo, rcpt: string, o: Outcome)
    ensures Effect(w, e, r, Record(r, w, e, rcpt, o), [rcpt])
  {
    if !Alive(r, w) {
      EffectOfEvents(w, e, r, r, [], [rcpt]);
    } else {
      RecordReports(w, e, r, rcpt, o);
      RecordCounted(w, e, r, rcpt, o);
      RecordOwn(w, e, r, rcpt, o);
      RecordFollowed(w, e, r, rcpt, o);
    }
  }

  lemma RecordFollowed(w: World, e: Envelope, r: Repo, rcpt: string, o: Outcome)
    requires Alive(r, w)
    ensures Followed(w, r, Record(r, w, e, rcpt, o))
  {
    var v := RecordTail(r, w, e, rcpt, o);
    RecordReports(w, e, r, rcpt, o);
  }

  lemma RecordReports(w: World, e: Envelope, r: Repo, rcpt: string, o: Outcome)
    ensures Reports(e, r, Record(r, w, e, rcpt, o), 1)
  {
  }

  lemma RecordCounted(w: World, e: Envelope, r: Repo, rcpt: string, o: Outcome)
    requires Alive(r, w)
    ensures Counted(w, r, Record(r, w, e, rcpt, o), multiset([rcpt]))
  {
    var r' := Record(r, w, e, rcpt, o);
    RecordReports(w, e, r, rcpt, o);
    var v := RecordTail(r, w, e, rcpt, o);
    assert Tail(r, r') == v;
    forall x
      ensures DsnsFor(v, x) <= multiset([rcpt])[x] && RecordedFor(v, x) == multiset([rcpt])[x]
    {
      TailCounts(v, e, rcpt, o, x);
    }
  }

  lemma RecordOwn(w: World, e: Envelope, r: Repo, rcpt: string, o: Outcome)
    requires Alive(r, w)
    ensures OwnEvents(w, e, r, Record(r, w, e, rcpt, o))
  {
    var r' := Record(r, w, e, rcpt, o);
    RecordReports(w, e, r, rcpt, o);
    RecordBars(w, e, r, rcpt, o);
    var v := RecordTail(r, w, e, rcpt, o);
    assert r'.log[|r.log|..] == v;
    forall i | |r.log| <= i < |r'.log|
      ensures OwnEvent(w, e, r', r'.log[i])
    {
      assert r'.log[i] == v[i - |r.log|];
      TailOwn(w, e, r', rcpt, o, v, i - |r.log|);
    }
  }

  lemma TailOwn(w: World, e: Envelope, r': Repo, rcpt: string, o: Outcome, v: seq<Event>, i: nat)
    requires i < |v| <= 3 && v[0].Recorded? && v[0] == Recorded(e.tenant, e.id, rcpt, o, v[0].saved, v[0].at)
    requires |v| == 2 ==> v[1] == Barred(e.tenant, rcpt) || v[1] == DsnQueued(e.tenant, e.id, rcpt)
    requires |v| == 3 ==> v[1] == Barred(e.tenant, rcpt) && v[2] == DsnQueued(e.tenant, e.id, rcpt)
    requires |v| > 1 && v[|v| - 1].DsnQueued? ==>
      e.sender != "" && (BarsSucceed(w) ==> (e.tenant, rcpt) in r'.suppressed)
    requires Barred(e.tenant, rcpt) in v ==> (e.tenant, rcpt) in r'.suppressed
    requires BarsSucceed(w) && o == Bounced(Hard) && Alive(r', w) ==> (e.tenant, rcpt) in r'.suppressed
    ensures OwnEvent(w, e, r', v[i])
  {
    assert v[i].Barred? ==> v[i] == Barred(e.tenant, rcpt);
  }

  lemma RecordBars(w: World, e: Envelope, r: Repo, rcpt: string, o: Outcome)
    requires Alive(r, w)
    ensures var r' := Record(r, w, e, rcpt, o);
            && (Barred(e.tenant, rcpt) in r'.log[|r.log|..] ==> (e.tenant, rcpt) in r'.suppressed)
            && (BarsSucceed(w) && o == Bounced(Hard) && Alive(r', w) ==> (e.tenant, rcpt) in r'.suppressed)
            && (BarsSucceed(w) && |r'.published| > |r.published| ==> (e.tenant, rcpt) in r'.suppressed)
            && (|r'.published| > |r.published| ==> e.sender != "")
  {
  }

  lemma {:induction false} RecordAllEffect(w: World, e: Envelope, r: Repo, rcpts: seq<string>, o: Outcome)
    ensures Effect(w, e, r, RecordAll(r, w, e, rcpts, o), rcpts)
  {
    if rcpts == [] {
      EffectOfEvents(w, e, r, r, [], []);
    } else {
      var init, last := rcpts[..|rcpts| - 1], rcpts[|rcpts| - 1];
      RecordAllEffect(w, e, r, init, o);
      var r1 := RecordAll(r, w, e, init, o);
      RecordEffect(w, e, r1, last, o);
      EffectCompose(w, e, r, r1, Record(r1, w, e, last, o), init, [last]);
      assert init + [last] == rcpts;
    }
  }

  // ----- screening

  /** Screening splits the recipients into those dropped, each with one event, and those kept. */
  ghost predicate Screened(w: World, e: Envelope, r: Repo, rcpts: seq<string>, s: Screening, dropped: seq<string>) {
    && Effect(w, e, r, s.repo, dropped)
    && s.repo.published == r.published && s.repo.suppressed == r.suppressed
    && |dropped| == |s.outcomes| && |s.active| + |dropped| <= |rcpts|
    && (forall x :: multiset(s.active)[x] + multiset(dropped)[x] <= multiset(rcpts)[x])
    && (Alive(s.repo, w) ==> forall x :: multiset(s.active)[x] + multiset(dropped)[x] == multiset(rcpts)[x])
    && (ChecksSucceed(w) ==> forall x :: x in s.active ==> (e.tenant, x) !in r.suppressed)
    && (forall i :: 0 <= i < |s.outcomes| ==> s.outcomes[i] == (dropped[i], Suppressed))
  }

  lemma {:induction false} ScreeningEffect(w: World, e: Envelope, r: Repo, rcpts: seq<string>)
    returns (dropped: seq<string>)
    ensures Screened(w, e, r, rcpts, CheckAll(r, w, e, rcpts), dropped)
  {
    if rcpts == [] {
      dropped := [];
      EffectOfEvents(w, e, r, r, [], []);
    } else {
      var init, last := rcpts[..|rcpts| - 1], rcpts[|rcpts| - 1];
      assert rcpts == init + [last];
      dropped := ScreeningEffect(w, e, r, init);
      dropped := CheckOneEffect(w, e, r, init, CheckAll(r, w, e, init), dropped, last);
    }
  }

  lemma CheckOneEffect(w: World, e: Envelope, r: Repo, init: seq<string>, s: Screening, before: seq<string>,
                       last: string)
    returns (dropped: seq<string>)
    requires Screened(w, e, r, init, s, before)
    ensures Screened(w, e, r, init + [last], CheckOne(s, w, e, last), dropped)
  {
    dropped := before;
    if Alive(s.repo, w) {
      TickEffect(w, e, s.repo);
      EffectCompose(w, e, r, s.repo, Tick(s.repo), before, []);
      assert before + [] == before;
      if w.checkOk(s.repo.tick) && (e.tenant, last) in s.repo.suppressed {
        DropEffect(w, e, r, init, s, before, last);
        dropped := before + [last];
      }
    }
  }

  lemma DropEffect(w: World, e: Envelope, r: Repo, init: seq<string>, s: Screening, before: seq<string>, last: string)
    requires Screened(w, e, r, init, s, before) && Effect(w, e, r, Tick(s.repo), before)
    requires Alive(s.repo, w) && w.checkOk(s.repo.tick) && (e.tenant, last) in s.repo.suppressed
    ensures Screened(w, e, r, init + [last], CheckOne(s, w, e, last), before + [last])
  {
    var r1 := Tick(s.repo);
    RecordEffect(w, e, r1, last, Suppressed);
    EffectCompose(w, e, r, r1, Record(r1, w, e, last, Suppressed), before, [last]);
  }

  // ----- groups

  lemma GroupEffect(w: World, e: Envelope, p: Pass, g: Group)
    requires g.rcpts != []
    ensures Effect(w, e, p.repo, DeliverGroup(p, w, e, g).repo, g.rcpts)
  {
    var r := p.repo;
    if !Alive(r, w) {
      EffectOfEvents(w, e, r, r, [], g.rcpts);
    } else {
      var s := CheckAll(r, w, e, g.rcpts);
      var dropped := ScreeningEffect(w, e, r, g.rcpts);
      if s.active == [] || !Alive(s.repo, w) {
        EffectWeaken(w, e, r, s.repo, dropped, g.rcpts);
      } else {
        var r1 := Offer(s.repo, e, s.active);
        EffectOfEvents(w, e, s.repo, r1, [Offered(e.tenant, s.active, s.repo.tick)], []);
        EffectCompose(w, e, r, s.repo, r1, dropped, []);
        assert dropped + [] == dropped;
        var o := w.answer(s.repo.tick);
        RecordAllEffect(w, e, r1, s.active, o);
        var r2 := RecordAll(r1, w, e, s.active, o);
        EffectCompose(w, e, r, r1, r2, dropped, s.active);
        EffectWeaken(w, e, r, r2, dropped + s.active, g.rcpts);
      }
    }
  }

  lemma EffectWeaken(w: World, e: Envelope, r: Repo, r': Repo, a: seq<string>, b: seq<string>)
    requires Effect(w, e, r, r', a) && |a| <= |b|
    requires forall x :: multiset(a)[x] <= multiset(b)[x]
    requires Alive(r', w) ==> forall x :: multiset(a)[x] == multiset(b)[x]
    ensures Effect(w, e, r, r', b)
  {
  }

  lemma {:induction false} GroupsEffect(w: World, e: Envelope, r: Repo, groups: seq<Group>)
    requires NonEmptyGroups(groups)
    ensures Effect(w, e, r, DeliverGroups(r, w, e, groups).repo, Flatten(groups))
  {
    if groups == [] {
      EffectOfEvents(w, e, r, r, [], []);
    } else {
      var init, last := groups[..|groups| - 1], groups[|groups| - 1];
      GroupsEffect(w, e, r, init);
      var p := DeliverGroups(r, w, e, init);
      GroupEffect(w, e, p, last);
      EffectCompose(w, e, r, p.repo, DeliverGroup(p, w, e, last).repo, Flatten(init), last.rcpts);
    }
  }

  // ----- the handler

  lemma DeliverEffect(w: World, m: Message, r: Repo, groups: seq<Group>)
    requires IsGrouping(groups, m.rcpts) && Attempted(m, w)
    ensures Effect(w, EnvelopeOf(m), r, Deliver(r, w, m, groups).repo, m.rcpts)
  {
    var e := EnvelopeOf(m);
    GroupsEffect(w, e, r, groups);
    GroupingIsPartition(groups, m.rcpts);
    var p := DeliverGroups(r, w, e, groups);
    EffectWeaken(w, e, r, p.repo, Flatten(groups), m.rcpts);
    var status := FinalStatus(p.outcomes);
    if status.Some? {
      StatusEffect(w, e, r, p.repo, status.value, m.rcpts);
    }
  }

  lemma StatusEffect(w: World, e: Envelope, r: Repo, r1: Repo, status: Status, rs: seq<string>)
    requires Effect(w, e, r, r1, rs)
    ensures Effect(w, e, r, SetStatus(r1, w, e.id, status), rs)
  {
    var r2 := SetStatus(r1, w, e.id, status);
    EffectOfEvents(w, e, r1, r2, [], []);
    EffectCompose(w, e, r, r1, r2, rs, []);
    assert rs + [] == rs;
  }

  /**
    One call of the handler publishes at most one report per recipient occurrence, reports carry a null sender
    and none is published for a null-sender message. A pass that gets past the early returns and is not cut by
    the timeout records exactly one outcome per recipient occurrence; one that does not records nothing.
  */
  lemma HandleEffect(w: World, c: Retry.Config, m: Message, retries: u32, queuedAt: Option<nat>, r: Repo,
                     groups: seq<Group>)
    requires IsGrouping(groups, m.rcpts)
    ensures var r' := Handle(r, w, c, m, retries, queuedAt, groups).repo;
            if Attempted(m, w) then Effect(w, EnvelopeOf(m), r, r', m.rcpts)
            else r.tick <= r'.tick && r'.published == r.published && r'.log == r.log && r'.suppressed == r.suppressed
  {
    if Attempted(m, w) {
      DeliverEffect(w, m, r, groups);
      StatusEffect(w, EnvelopeOf(m), r, Deliver(r, w, m, groups).repo, IsBounced, m.rcpts);
    }
  }

  /** The part of `HandleEffect` about the queue, in terms of the message. */
  lemma HandlePublishes(w: World, c: Retry.Config, m: Message, retries: u32, queuedAt: Option<nat>, r: Repo,
                        groups: seq<Group>)
    requires IsGrouping(groups, m.rcpts)
    ensures Republished(m, r.published, Handle(r, w, c, m, retries, queuedAt, groups).repo.published)
  {
    HandleEffect(w, c, m, retries, queuedAt, r, groups);
    var r' := Handle(r, w, c, m, retries, queuedAt, groups).repo;
    if Attempted(m, w) {
      ReportsRepublished(m, EnvelopeOf(m), r, r');
    }
  }

  /** A queue's published messages after handling `m`. */
  ghost predicate Republished(m: Message, before: seq<Message>, after: seq<Message>) {
    && before <= after
    && |after| - |before| <= (if m.sender == "" then 0 else |m.rcpts|)
    && forall i :: |before| <= i < |after| ==> after[i].sender == "" && after[i].rcpts == [m.sender]
  }

  lemma ReportsRepublished(m: Message, e: Envelope, r: Repo, r': Repo)
    requires Reports(e, r, r', |m.rcpts|) && e.sender == m.sender
    ensures Republished(m, r.published, r'.published)
  {
    forall i | |r.published| <= i < |r'.published|
      ensures r'.published[i].sender == "" && r'.published[i].rcpts == [m.sender]
    {
      assert IsReport(r'.published[i], e);
    }
  }

  lemma OneOutcomePerOccurrence(w: World, m: Message, r: Repo, groups: seq<Group>, x: string)
    requires IsGrouping(groups, m.rcpts) && Attempted(m, w)
    requires Alive(Deliver(r, w, m, groups).repo, w)
    ensures var r' := Deliver(r, w, m, groups).repo;
            r.log <= r'.log && RecordedFor(r'.log[|r.log|..], x) == multiset(m.rcpts)[x]
  {
    DeliverEffect(w, m, r, groups);
    var r' := Deliver(r, w, m, groups).repo;
    assert Counted(w, r, r', multiset(m.rcpts));
    assert Tail(r, r') == r'.log[|r.log|..];
  }

  /** The message status is left alone exactly when deliveries and drops are mixed and nothing else happened. */
  lemma StatusUnsetExactly(outcomes: seq<(string, Outcome)>)
    ensures FinalStatus(outcomes).None? <==>
            && (forall i :: 0 <= i < |outcomes| ==> outcomes[i].1.Delivered? || outcomes[i].1.Suppressed?)
            && (exists i :: 0 <= i < |outcomes| && outcomes[i].1.Delivered?)
            && (exists i :: 0 <= i < |outcomes| && outcomes[i].1.Suppressed?)
  {
    if !AllDelivered(outcomes) && !AnyBounced(outcomes) && !AnyDeferred(outcomes) {
      var i :| 0 <= i < |outcomes| && !outcomes[i].1.Delivered?;
      assert outcomes[i].1.Suppressed?;
    }
  }

  // ----- a barred recipient is never offered again

  ghost predicate NeverReoffered(log: seq<Event>) {
    forall i, j :: 0 <= i < j < |log| && log[i].Barred? && log[j].Offered? && log[i].tenant == log[j].tenant ==>
      log[i].rcpt !in log[j].rcpts
  }

  ghost predicate Guarded(r: Repo) {
    && NeverReoffered(r.log)
    && forall i :: 0 <= i < |r.log| && r.log[i].Barred? ==> (r.log[i].tenant, r.log[i].rcpt) in r.suppressed
  }

  ghost predicate NoOffers(r: Repo, r': Repo) {
    && Grows(r, r')
    && forall i :: |r.log| <= i < |r'.log| ==> !r'.log[i].Offered?
  }

  lemma GuardedKept(w: World, e: Envelope, r: Repo, r': Repo)
    requires Guarded(r) && NoOffers(r, r') && OwnEvents(w, e, r, r')
    ensures Guarded(r')
  {
    forall i | 0 <= i < |r'.log| && r'.log[i].Barred?
      ensures (r'.log[i].tenant, r'.log[i].rcpt) in r'.suppressed
    {
      if i < |r.log| {
        assert r'.log[i] == r.log[i];
      } else {
        assert OwnEvent(w, e, r', r'.log[i]);
      }
    }
    forall i, j | && 0 <= i < j < |r'.log| && r'.log[i].Barred? && r'.log[j].Offered?
                  && r'.log[i].tenant == r'.log[j].tenant
      ensures r'.log[i].rcpt !in r'.log[j].rcpts
    {
      assert j < |r.log|;
      assert r'.log[i] == r.log[i] && r'.log[j] == r.log[j];
    }
  }

  lemma {:induction false} RecordAllNoOffers(w: World, e: Envelope, r: Repo, rcpts: seq<string>, o: Outcome)
    ensures NoOffers(r, RecordAll(r, w, e, rcpts, o))
  {
    if rcpts != [] {
      var init := rcpts[..|rcpts| - 1];
      RecordAllNoOffers(w, e, r, init, o);
      RecordNoOffers(w, e, RecordAll(r, w, e, init, o), rcpts[|rcpts| - 1], o);
    }
  }

  lemma RecordNoOffers(w: World, e: Envelope, r: Repo, rcpt: string, o: Outcome)
    ensures NoOffers(r, Record(r, w, e, rcpt, o))
  {
  }

  lemma {:induction false} CheckAllNoOffers(w: World, e: Envelope, r: Repo, rcpts: seq<string>)
    ensures NoOffers(r, CheckAll(r, w, e, rcpts).repo)
  {
    if rcpts != [] {
      var init := rcpts[..|rcpts| - 1];
      CheckAllNoOffers(w, e, r, init);
      var s := CheckAll(r, w, e, init);
      RecordNoOffers(w, e, Tick(s.repo), rcpts[|rcpts| - 1], Suppressed);
    }
  }

  lemma OfferGuarded(r: Repo, e: Envelope, active: seq<string>)
    requires Guarded(r)
    requires forall x :: x in active ==> (e.tenant, x) !in r.suppressed
    ensures Guarded(Offer(r, e, active))
  {
    var log := Offer(r, e, active).log;
    forall i, j | 0 <= i < j < |log| && log[i].Barred? && log[j].Offered? && log[i].tenant == log[j].tenant
      ensures log[i].rcpt !in log[j].rcpts
    {
      assert log[i] == r.log[i];
      if j < |r.log| {
        assert log[j] == r.log[j];
      }
    }
  }

  lemma GroupGuarded(w: World, e: Envelope, p: Pass, g: Group)
    requires ChecksSucceed(w) && Guarded(p.repo) && g.rcpts != []
    ensures Guarded(DeliverGroup(p, w, e, g).repo)
  {
    var r := p.repo;
    if Alive(r, w) {
      var s := CheckAll(r, w, e, g.rcpts);
      var dropped := ScreeningEffect(w, e, r, g.rcpts);
      CheckAllNoOffers(w, e, r, g.rcpts);
      GuardedKept(w, e, r, s.repo);
      if s.active != [] && Alive(s.repo, w) {
        var r1 := Offer(s.repo, e, s.active);
        OfferGuarded(s.repo, e, s.active);
        var o := w.answer(s.repo.tick);
        RecordAllEffect(w, e, r1, s.active, o);
        RecordAllNoOffers(w, e, r1, s.active, o);
        GuardedKept(w, e, r1, RecordAll(r1, w, e, s.active, o));
      }
    }
  }

  lemma {:induction false} GroupsGuarded(w: World, e: Envelope, r: Repo, groups: seq<Group>)
    requires ChecksSucceed(w) && Guarded(r) && NonEmptyGroups(groups)
    ensures Guarded(DeliverGroups(r, w, e, groups).repo)
  {
    if groups != [] {
      var init := groups[..|groups| - 1];
      GroupsGuarded(w, e, r, init);
      GroupGuarded(w, e, DeliverGroups(r, w, e, init), groups[|groups| - 1]);
    }
  }

  lemma DeliverGuarded(w: World, m: Message, r: Repo, groups: seq<Group>)
    requires ChecksSucceed(w) && Guarded(r) && NonEmptyGroups(groups)
    ensures Guarded(Deliver(r, w, m, groups).repo)
  {
    if Attempted(m, w) {
      GroupsGuarded(w, EnvelopeOf(m), r, groups);
      GuardedSame(DeliverGroups(r, w, EnvelopeOf(m), groups).repo, Deliver(r, w, m, groups).repo);
    }
  }

  lemma GuardedSame(r: Repo, r': Repo)
    requires Guarded(r) && r'.log == r.log && r'.suppressed == r.suppressed
    ensures Guarded(r')
  {
  }

  /** With successful checks every call of the handler keeps barred recipients away from SMTP. */
  lemma HandleGuarded(w: World, c: Retry.Config, m: Message, retries: u32, queuedAt: Option<nat>, r: Repo,
                      groups: seq<Group>)
    requires ChecksSucceed(w) && Guarded(r) && NonEmptyGroups(groups)
    ensures Guarded(Handle(r, w, c, m, retries, queuedAt, groups).repo)
  {
    DeliverGuarded(w, m, r, groups);
    GuardedSame(Deliver(r, w, m, groups).repo, Handle(r, w, c, m, retries, queuedAt, groups).repo);
  }

  // ----- a barred recipient yields no further report

  ghost predicate Silent(r: Repo, r': Repo, x: string) {
    Grows(r, r') && DsnsFor(Tail(r, r'), x) == 0
  }

  lemma SilentCompose(r: Repo, r1: Repo, r2: Repo, x: string)
    requires Silent(r, r1, x) && Silent(r1, r2, x)
    ensures Silent(r, r2, x)
  {
    assert Tail(r, r2) == Tail(r, r1) + Tail(r1, r2);
    CountsAdd(Tail(r, r1), Tail(r1, r2), x);
  }

  lemma RecordSilent(w: World, e: Envelope, r: Repo, rcpt: string, o: Outcome, x: string)
    requires x != rcpt || o != Bounced(Hard)
    ensures Silent(r, Record(r, w, e, rcpt, o), x)
  {
    if Alive(r, w) {
      var r' := Record(r, w, e, rcpt, o);
      var v := RecordTail(r, w, e, rcpt, o);
      assert Tail(r, r') == v;
      if x != rcpt {
        TailCounts(v, e, rcpt, o, x);
      } else {
        assert v == [v[0]] && v[..0] == [];
      }
    }
  }

  lemma {:induction false} RecordAllSilent(w: World, e: Envelope, r: Repo, rcpts: seq<string>, o: Outcome, x: string)
    requires x !in rcpts
    ensures Silent(r, RecordAll(r, w, e, rcpts, o), x)
  {
    if rcpts != [] {
      var init, last := rcpts[..|rcpts| - 1], rcpts[|rcpts| - 1];
      RecordAllSilent(w, e, r, init, o, x);
      var r1 := RecordAll(r, w, e, init, o);
      RecordSilent(w, e, r1, last, o, x);
      SilentCompose(r, r1, Record(r1, w, e, last, o), x);
    }
  }

  lemma {:induction false} CheckAllSilent(w: World, e: Envelope, r: Repo, rcpts: seq<string>, x: string)
    ensures Silent(r, CheckAll(r, w, e, rcpts).repo, x)
  {
    if rcpts != [] {
      var init, last := rcpts[..|rcpts| - 1], rcpts[|rcpts| - 1];
      CheckAllSilent(w, e, r, init, x);
      var s := CheckAll(r, w, e, init);
      if Alive(s.repo, w) {
        assert Tail(s.repo, Tick(s.repo)) == [];
        RecordSilent(w, e, Tick(s.repo), last, Suppressed, x);
        SilentCompose(s.repo, Tick(s.repo), Record(Tick(s.repo), w, e, last, Suppressed), x);
        SilentCompose(r, s.repo, CheckOne(s, w, e, last).repo, x);
      }
    }
  }

  lemma GroupSilent(w: World, e: Envelope, p: Pass, g: Group, x: string)
    requires ChecksSucceed(w) && g.rcpts != [] && (e.tenant, x) in p.repo.suppressed
    ensures Silent(p.repo, DeliverGroup(p, w, e, g).repo, x)
  {
    var r := p.repo;
    if Alive(r, w) {
      var s := CheckAll(r, w, e, g.rcpts);
      var dropped := ScreeningEffect(w, e, r, g.rcpts);
      CheckAllSilent(w, e, r, g.rcpts, x);
      if s.active != [] && Alive(s.repo, w) {
        var r1 := Offer(s.repo, e, s.active);
        var v := [Offered(e.tenant, s.active, s.repo.tick)];
        assert Tail(s.repo, r1) == v && v[..0] == [];
        assert DsnsFor(v, x) == DsnsFor([], x);
        SilentCompose(r, s.repo, r1, x);
        var o := w.answer(s.repo.tick);
        RecordAllSilent(w, e, r1, s.active, o, x);
        SilentCompose(r, r1, RecordAll(r1, w, e, s.active, o), x);
      }
    }
  }

  lemma {:induction false} GroupsSilent(w: World, e: Envelope, r: Repo, groups: seq<Group>, x: string)
    requires ChecksSucceed(w) && NonEmptyGroups(groups) && (e.tenant, x) in r.suppressed
    ensures Silent(r, DeliverGroups(r, w, e, groups).repo, x)
  {
    if groups != [] {
      var init, last := groups[..|groups| - 1], groups[|groups| - 1];
      GroupsSilent(w, e, r, init, x);
      var p := DeliverGroups(r, w, e, init);
      GroupsEffect(w, e, r, init);
      GroupSilent(w, e, p, last, x);
      SilentCompose(r, p.repo, DeliverGroup(p, w, e, last).repo, x);
    }
  }

  lemma HandleSilent(w: World, c: Retry.Config, m: Message, retries: u32, queuedAt: Option<nat>, r: Repo,
                     groups: seq<Group>, x: string)
    requires ChecksSucceed(w) && NonEmptyGroups(groups)
    requires m.tenant.Some? && (m.tenant.value, x) in r.suppressed
    ensures var r' := Handle(r, w, c, m, retries, queuedAt, groups).repo;
            r.log <= r'.log && DsnsFor(r'.log[|r.log|..], x) == 0
  {
    if Attempted(m, w) {
      GroupsSilent(w, EnvelopeOf(m), r, groups, x);
    }
  }
}
