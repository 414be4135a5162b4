/**
  Exactly when a suppressed or hard-bounced recipient meets SMTP again, and which acknowledged messages had their
  recipients recorded.
*/
module Suppression {
  import opened Basics
  import opened Delivery
  import opened DeliveryFacts
  import opened Queue
  import Retry

  // ----- the checks decide

  /** The suppression check of the i-th recipient is made, and fails. */
  ghost predicate CheckFails(w: World, e: Envelope, r: Repo, rcpts: seq<string>, i: int) {
    && 0 <= i < |rcpts|
    && var before := CheckAll(r, w, e, rcpts[..i]).repo;
       Alive(before, w) && !w.checkOk(before.tick)
  }

  /** The check of some occurrence of `x` fails. */
  ghost predicate SlipsThrough(w: World, e: Envelope, r: Repo, rcpts: seq<string>, x: string) {
    exists i :: CheckFails(w, e, r, rcpts, i) && rcpts[i] == x
  }

  lemma SlipsThroughSnoc(w: World, e: Envelope, r: Repo, init: seq<string>, last: string, x: string)
    ensures var s := CheckAll(r, w, e, init);
            SlipsThrough(w, e, r, init + [last], x)
            <==> SlipsThrough(w, e, r, init, x) || (last == x && Alive(s.repo, w) && !w.checkOk(s.repo.tick))
  {
    var rcpts, n := init + [last], |init|;
    assert rcpts[..n] == init;
    forall i | 0 <= i < n
      ensures CheckFails(w, e, r, rcpts, i) <==> CheckFails(w, e, r, init, i)
    {
      assert rcpts[..i] == init[..i];
    }
    if SlipsThrough(w, e, r, init, x) {
      var i :| CheckFails(w, e, r, init, i) && init[i] == x;
      assert CheckFails(w, e, r, rcpts, i) && rcpts[i] == x;
    }
    assert rcpts[n] == last;
    var before := CheckAll(r, w, e, init).repo;
    assert CheckFails(w, e, r, rcpts, n) <==> Alive(before, w) && !w.checkOk(before.tick);
  }

  /** A suppressed recipient is kept in the list to offer if and only if one of its own checks failed. */
  lemma {:induction false} BarredActiveExactly(w: World, e: Envelope, r: Repo, rcpts: seq<string>, x: string)
    requires (e.tenant, x) in r.suppressed
    ensures x in CheckAll(r, w, e, rcpts).active <==> SlipsThrough(w, e, r, rcpts, x)
  {
    if rcpts != [] {
      var init, last := rcpts[..|rcpts| - 1], rcpts[|rcpts| - 1];
      assert rcpts == init + [last];
      BarredActiveExactly(w, e, r, init, x);
      SlipsThroughSnoc(w, e, r, init, last, x);
      var dropped := ScreeningEffect(w, e, r, init);
    }
  }

  /** The log has an offer of `x` from position `n` on. */
  ghost predicate OffersFrom(log: seq<Event>, n: nat, x: string) {
    exists i :: n <= i < |log| && log[i].Offered? && x in log[i].rcpts
  }

  /** A group offers a suppressed recipient to SMTP if and only if one of its checks failed and time was left. */
  lemma BarredOfferedExactly(w: World, e: Envelope, p: Pass, g: Group, x: string)
    requires g.rcpts != [] && Alive(p.repo, w) && (e.tenant, x) in p.repo.suppressed
    ensures OffersFrom(DeliverGroup(p, w, e, g).repo.log, |p.repo.log|, x)
            <==> SlipsThrough(w, e, p.repo, g.rcpts, x) && Alive(CheckAll(p.repo, w, e, g.rcpts).repo, w)
  {
    var r, s := p.repo, CheckAll(p.repo, w, e, g.rcpts);
    BarredActiveExactly(w, e, r, g.rcpts, x);
    CheckAllNoOffers(w, e, r, g.rcpts);
    if s.active != [] && Alive(s.repo, w) {
      var r1, o := Offer(s.repo, e, s.active), w.answer(s.repo.tick);
      RecordAllNoOffers(w, e, r1, s.active, o);
      OneOffer(r, s.repo, r1, RecordAll(r1, w, e, s.active, o), e, s.active, x);
    }
  }

  lemma OneOffer(r: Repo, r1: Repo, r2: Repo, r3: Repo, e: Envelope, active: seq<string>, x: string)
    requires NoOffers(r, r1) && r2 == Offer(r1, e, active) && NoOffers(r2, r3)
    ensures OffersFrom(r3.log, |r.log|, x) <==> x in active
  {
    assert r3.log[|r1.log|] == Offered(e.tenant, active, r1.tick);
    forall i | |r.log| <= i < |r3.log| && i != |r1.log|
      ensures !r3.log[i].Offered?
    {
      if i < |r1.log| {
        assert r3.log[i] == r1.log[i];
      }
    }
  }

  // ----- hard bounces

  /** A recorded hard bounce leaves its recipient suppressed iff the write comes before the deadline and succeeds. */
  lemma HardBounceBarsExactly(w: World, e: Envelope, r: Repo, x: string)
    requires Alive(r, w)
    ensures (e.tenant, x) in Record(r, w, e, x, Bounced(Hard)).suppressed
            <==> (e.tenant, x) in r.suppressed || (r.tick + 1 < w.deadline && w.barOk(r.tick + 1))
  {
  }

  /** Every recorded hard bounce is followed at once by the suppression of its recipient. */
  ghost predicate AllBarred(log: seq<Event>) {
    forall i :: 0 <= i < |log| && IsHardBounce(log[i]) ==> BarredNext(log, i)
  }

  /** No recipient is offered to SMTP after a hard bounce of it was recorded for the same tenant. */
  ghost predicate BouncedNeverReoffered(log: seq<Event>) {
    forall i, j :: 0 <= i < j < |log| && IsHardBounce(log[i]) && log[j].Offered? && log[i].tenant == log[j].tenant ==>
      log[i].rcpt !in log[j].rcpts
  }

  lemma BarredMeansNeverReoffered(log: seq<Event>)
    requires AllBarred(log) && NeverReoffered(log)
    ensures BouncedNeverReoffered(log)
  {
    forall i, j | 0 <= i < j < |log| && IsHardBounce(log[i]) && log[j].Offered? && log[i].tenant == log[j].tenant
      ensures log[i].rcpt !in log[j].rcpts
    {
      assert BarredNext(log, i);
      assert log[i + 1].Barred?;
    }
  }

  /** One handling: with successful writes only its last event can be a hard bounce that is not yet barred. */
  lemma HandlingFollowed(c: Setup, r: Repo, e: Entry, v: Move)
    requires e.payload.Mail? ==> IsGrouping(v.groups, e.payload.m.rcpts)
    ensures Followed(v.world, r, HandleEntry(c, r, e, v).repo)
            || HandleEntry(c, r, e, v).repo.log == r.log
  {
    if e.payload.Mail? {
      var retries := RetryCount(e, AsU32(e.delivered + 1));
      var h := HandleEntry(c, r, e, v);
      EntryHandled(c, r, e, v, h);
      HandleFollowed(v.world, c.engine, e.payload.m, retries, e.queuedAt, r, v.groups, h.repo);
    }
  }

  lemma HandleFollowed(w: World, c: Retry.Config, m: Message, retries: u32, queuedAt: Option<nat>, r: Repo,
                       groups: seq<Group>, r': Repo)
    requires IsGrouping(groups, m.rcpts) && r' == Handle(r, w, c, m, retries, queuedAt, groups).repo
    ensures Followed(w, r, r') || r'.log == r.log
  {
    HandleEffect(w, c, m, retries, queuedAt, r, groups);
  }

  lemma AllBarredStep(w: World, r: Repo, r': Repo)
    requires AllBarred(r.log) && BarsSucceed(w) && (Followed(w, r, r') || r'.log == r.log)
    requires !EndsUnbarred(r'.log, |r.log|)
    ensures AllBarred(r'.log)
  {
    forall i | 0 <= i < |r'.log| && IsHardBounce(r'.log[i])
      ensures BarredNext(r'.log, i)
    {
      if i < |r.log| {
        assert BarredNext(r.log, i);
        assert r'.log[i] == r.log[i] && r'.log[i + 1] == r.log[i + 1];
      }
    }
  }

  /**
    With successful suppression checks and writes, in every run in which no handling is cut by its deadline right
    after recording a hard bounce, no hard-bounced recipient is ever offered to SMTP again for that tenant.
  */
  lemma {:induction false} RunNeverReoffersBounced(c: Setup, t: Trust, states: seq<Sys>, moves: seq<Move>)
    requires IsRun(c, t, states, moves) && t.checks && t.bars
    requires Guarded(states[0].repo) && AllBarred(states[0].repo.log)
    requires forall k :: 0 <= k < |moves| ==> !EndsUnbarred(states[k + 1].repo.log, |states[k].repo.log|)
    ensures AllBarred(states[|moves|].repo.log) && BouncedNeverReoffered(states[|moves|].repo.log)
    decreases |moves|
  {
    if moves != [] {
      var n := |moves| - 1;
      RunNeverReoffersBounced(c, t, states[..n + 1], moves[..n]);
      var s, v := states[n], moves[n];
      HandlingFollowed(c, s.repo, s.queue[v.index], v);
      AllBarredStep(v.world, s.repo, states[n + 1].repo);
    }
    RunNeverReoffers(c, t, states, moves);
    BarredMeansNeverReoffered(states[|moves|].repo.log);
  }

  /** Such a cut happens only to a handling that runs into its deadline. */
  lemma CutMeansTimeout(c: Setup, r: Repo, e: Entry, v: Move)
    requires e.payload.Mail? ==> IsGrouping(v.groups, e.payload.m.rcpts)
    requires BarsSucceed(v.world) && EndsUnbarred(HandleEntry(c, r, e, v).repo.log, |r.log|)
    ensures !Alive(HandleEntry(c, r, e, v).repo, v.world)
  {
    HandlingFollowed(c, r, e, v);
  }

  /** A deadline between record and write re-offers the recipient on the next delivery, though every call succeeds. */
  lemma TimeoutReoffers(w: World, w': World, e: Envelope, x: string)
    requires ChecksSucceed(w) && BarsSucceed(w) && ChecksSucceed(w') && BarsSucceed(w')
    requires w.deadline == 3 && w.answer(1) == Bounced(Hard) && w'.deadline > 10
    ensures var g := Group(DomainOf(x), [x]);
            var r1 := DeliverGroup(Pass(Repo(0, {}, map[], [], []), []), w, e, g).repo;
            var r2 := DeliverGroup(Pass(r1, []), w', e, g).repo;
            EndsUnbarred(r1.log, 0) && !BouncedNeverReoffered(r2.log)
  {
    var g, r0 := Group(DomainOf(x), [x]), Repo(0, {}, map[], [], []);
    CheckSingle(w, e, r0, x);
    var r1 := DeliverGroup(Pass(r0, []), w, e, g).repo;
    var o1 := Offer(Tick(r0), e, [x]);
    RecordSingle(w, e, o1, x, Bounced(Hard));
    assert r1.log == [Offered(e.tenant, [x], 1), Recorded(e.tenant, e.id, x, Bounced(Hard), w.ok(2), 2)];
    CheckSingle(w', e, r1, x);
    var o2, a := Offer(Tick(r1), e, [x]), w'.answer(r1.tick + 1);
    RecordSingle(w', e, o2, x, a);
    RecordReports(w', e, o2, x, a);
    var r2 := DeliverGroup(Pass(r1, []), w', e, g).repo;
    assert r2 == Record(o2, w', e, x, a);
    assert r2.log[1] == r1.log[1] && r2.log[2] == Offered(e.tenant, [x], r1.tick + 1);
  }

  lemma CheckSingle(w: World, e: Envelope, r: Repo, x: string)
    requires Alive(r, w) && (e.tenant, x) !in r.suppressed
    ensures CheckAll(r, w, e, [x]) == Screening(Tick(r), [x], [])
  {
    assert [x][..0] == [];
    assert CheckAll(r, w, e, []) == Screening(r, [], []);
  }

  lemma RecordSingle(w: World, e: Envelope, r: Repo, x: string, o: Outcome)
    ensures RecordAll(r, w, e, [x], o) == Record(r, w, e, x, o)
  {
    assert [x][..0] == [];
    assert RecordAll(r, w, e, [], o) == r;
  }

  /**
    In particular: with successful checks and writes, in every run whose handlings all end before their deadline, no
    hard-bounced recipient is ever offered again.
  */
  lemma TimelyRunNeverReoffersBounced(c: Setup, t: Trust, states: seq<Sys>, moves: seq<Move>)
    requires IsRun(c, t, states, moves) && t.checks && t.bars
    requires Guarded(states[0].repo) && AllBarred(states[0].repo.log)
    requires forall k :: 0 <= k < |moves| ==> Alive(states[k + 1].repo, moves[k].world)
    ensures BouncedNeverReoffered(states[|moves|].repo.log)
  {
    forall k | 0 <= k < |moves|
      ensures !EndsUnbarred(states[k + 1].repo.log, |states[k].repo.log|)
    {
      NotCut(c, states[k], moves[k], states[k + 1]);
    }
    RunNeverReoffersBounced(c, t, states, moves);
  }

  lemma NotCut(c: Setup, s: Sys, v: Move, s': Sys)
    requires Legal(s, v) && s' == Step(c, s, v) && BarsSucceed(v.world) && Alive(s'.repo, v.world)
    ensures !EndsUnbarred(s'.repo.log, |s.repo.log|)
  {
    var e := s.queue[v.index];
    if EndsUnbarred(HandleEntry(c, s.repo, e, v).repo.log, |s.repo.log|) {
      CutMeansTimeout(c, s.repo, e, v);
    }
  }

  // ----- what an acknowledgement says

  /** Event rows kept for `x`. */
  function SavedFor(events: seq<Event>, x: string): nat {
    if events == [] then 0
    else
      var last := events[|events| - 1];
      SavedFor(events[..|events| - 1], x) + if last.Recorded? && last.rcpt == x && last.saved then 1 else 0
  }

  /** Every event row of the stretch was kept. */
  ghost predicate AllSaved(events: seq<Event>) {
    forall i :: 0 <= i < |events| && events[i].Recorded? ==> events[i].saved
  }

  lemma {:induction false} SavedAtMostRecorded(events: seq<Event>, x: string)
    ensures SavedFor(events, x) <= RecordedFor(events, x)
    ensures AllSaved(events) ==> SavedFor(events, x) == RecordedFor(events, x)
    ensures forall i :: 0 <= i < |events| && events[i].Recorded? && events[i].rcpt == x && !events[i].saved ==>
              SavedFor(events, x) < RecordedFor(events, x)
  {
    if events != [] {
      SavedAtMostRecorded(events[..|events| - 1], x);
    }
  }

  lemma SavedExactly(events: seq<Event>)
    ensures (forall x :: SavedFor(events, x) == RecordedFor(events, x)) <==> AllSaved(events)
  {
    forall x: string
      ensures AllSaved(events) ==> SavedFor(events, x) == RecordedFor(events, x)
    {
      SavedAtMostRecorded(events, x);
    }
    if !AllSaved(events) {
      var i :| 0 <= i < |events| && events[i].Recorded? && !events[i].saved;
      var x: string := events[i].rcpt;
      SavedAtMostRecorded(events, x);
      assert SavedFor(events, x) != RecordedFor(events, x);
    }
  }

  /** Past the early returns an acknowledged message has had one call of `record_outcome` per recipient occurrence. */
  lemma AckRecords(w: World, c: Retry.Config, m: Message, retries: u32, queuedAt: Option<nat>, r: Repo,
                   groups: seq<Group>, x: string)
    requires IsGrouping(groups, m.rcpts) && Handle(r, w, c, m, retries, queuedAt, groups).result == Ack
    ensures var r' := Handle(r, w, c, m, retries, queuedAt, groups).repo;
            && r.log <= r'.log
            && RecordedFor(r'.log[|r.log|..], x) == if Attempted(m, w) then multiset(m.rcpts)[x] else 0
  {
    var p := Deliver(r, w, m, groups).repo;
    var r' := Handle(r, w, c, m, retries, queuedAt, groups).repo;
    HandleEffect(w, c, m, retries, queuedAt, r, groups);
    assert r'.log == p.log;
    if Attempted(m, w) {
      OneOutcomePerOccurrence(w, m, r, groups, x);
    } else {
      assert r'.log[|r.log|..] == [];
    }
  }

  /**
    An acknowledged message has one event row per recipient occurrence if and only if the pass got past its early
    returns and every event insert succeeded, or there was no recipient: a missing body or a malformed id is
    acknowledged without any row, and a failed insert is only logged.
  */
  lemma AckRecordsExactly(w: World, c: Retry.Config, m: Message, retries: u32, queuedAt: Option<nat>, r: Repo,
                          groups: seq<Group>)
    requires IsGrouping(groups, m.rcpts)
    requires Handle(r, w, c, m, retries, queuedAt, groups).result == Ack
    ensures var r' := Handle(r, w, c, m, retries, queuedAt, groups).repo;
            && r.log <= r'.log
            && ((forall x :: SavedFor(r'.log[|r.log|..], x) == multiset(m.rcpts)[x])
                <==> (Attempted(m, w) && AllSaved(r'.log[|r.log|..])) || m.rcpts == [])
  {
    var r' := Handle(r, w, c, m, retries, queuedAt, groups).repo;
    AckRecords(w, c, m, retries, queuedAt, r, groups, "");
    var v := r'.log[|r.log|..];
    forall x
      ensures RecordedFor(v, x) == if Attempted(m, w) then multiset(m.rcpts)[x] else 0
    {
      AckRecords(w, c, m, retries, queuedAt, r, groups, x);
    }
    RowsExactly(m, v, Attempted(m, w));
  }

  lemma RowsExactly(m: Message, v: seq<Event>, attempted: bool)
    requires forall x :: RecordedFor(v, x) == if attempted then multiset(m.rcpts)[x] else 0
    ensures (forall x :: SavedFor(v, x) == multiset(m.rcpts)[x]) <==> (attempted && AllSaved(v)) || m.rcpts == []
  {
    SavedExactly(v);
    forall x {
      SavedAtMostRecorded(v, x);
    }
    if m.rcpts != [] {
      assert multiset(m.rcpts)[m.rcpts[0]] > 0;
      assert SavedFor(v, m.rcpts[0]) <= RecordedFor(v, m.rcpts[0]);
    }
  }
}
