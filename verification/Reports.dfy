/**
  Exactly which bounce reports a pass sends: one for each hard bounce on record whose sender can be told and whose
  four calls are made in time and succeed, in that order, and no others.
*/
module Reports {
  import opened Basics
  import opened Delivery
  import opened DeliveryFacts
  import opened Outcomes
  import opened Queue
  import Retry

  /** The call with number `k` is made before the deadline and succeeds. */
  predicate Succeeds(w: World, k: nat) {
    k < w.deadline && w.ok(k)
  }

  /** The calls to assign, upload, insert and publish a report that starts at `k`. */
  predicate ReportSent(w: World, k: nat) {
    Succeeds(w, k) && Succeeds(w, k + 1) && Succeeds(w, k + 2) && Succeeds(w, k + 3)
  }

  /** One record of an outcome, made by the call with number `k`, sends a report to its sender. */
  predicate Tells(w: World, sender: string, o: Outcome, k: nat) {
    o == Bounced(Hard) && sender != "" && ReportSent(w, k + 2)
  }

  /** A report to the original sender, itself with a null sender. */
  function ReportTo(w: World, e: Envelope, k: nat): Message {
    Message(Some(w.newId(k + 4)), Some(e.tenant), "", [e.sender])
  }

  /**
    Recording one outcome publishes exactly one message, with its event, if the call is made in time, the outcome is a
    hard bounce, the sender is not null and the four calls for the report succeed in time; otherwise it publishes none.
  */
  lemma RecordReportsExactly(w: World, e: Envelope, r: Repo, x: string, o: Outcome)
    ensures var r' := Record(r, w, e, x, o);
            if r.tick < w.deadline && Tells(w, e.sender, o, r.tick) then
              && r'.published == r.published + [ReportTo(w, e, r.tick)]
              && r'.log[|r'.log| - 1..] == [DsnQueued(e.tenant, e.id, x)]
              && w.newId(r.tick + 4) in r'.status && r'.status[w.newId(r.tick + 4)] == IsQueued
            else
              r'.published == r.published && forall i :: |r.log| <= i < |r'.log| ==> !r'.log[i].DsnQueued?
  {
    if Alive(r, w) && o == Bounced(Hard) {
      var r1 := Tick(r).(log := r.log + [Recorded(e.tenant, e.id, x, o, w.ok(r.tick), r.tick)]);
      var r2 := Bar(r1, w, e, x);
      SendExactly(w, e, r2, x);
      BarQuiet(w, e, r, r1, x);
    }
  }

  /** Writing a suppression after the record takes one call and reports nothing. */
  lemma BarQuiet(w: World, e: Envelope, r: Repo, r1: Repo, x: string)
    requires |r1.log| == |r.log| + 1 && r.log <= r1.log && !r1.log[|r.log|].DsnQueued?
    ensures var r2 := Bar(r1, w, e, x);
            && r2.tick == r1.tick + 1 && r2.published == r1.published
            && forall i :: |r.log| <= i < |r2.log| ==> !r2.log[i].DsnQueued?
  {
  }

  lemma SendExactly(w: World, e: Envelope, r: Repo, x: string)
    ensures var r' := QueueDsn(r, w, e, x);
            if ReportSent(w, r.tick) then
              && r'.published == r.published + [Message(Some(w.newId(r.tick + 2)), Some(e.tenant), "", [e.sender])]
              && r'.log == r.log + [DsnQueued(e.tenant, e.id, x)]
              && w.newId(r.tick + 2) in r'.status && r'.status[w.newId(r.tick + 2)] == IsQueued
            else r'.published == r.published && r'.log == r.log
  {
  }

  // ----- over a stretch of a pass

  /** A recipient reported on, and the call that recorded its bounce. */
  datatype Notice = Notice(rcpt: string, at: nat)

  /** The records of the stretch that send a report. */
  function Telling(w: World, e: Envelope, v: seq<Event>): seq<Notice> {
    if v == [] then []
    else
      var last := v[|v| - 1];
      Telling(w, e, v[..|v| - 1])
      + if last.Recorded? && Tells(w, e.sender, last.outcome, last.at) then [Notice(last.rcpt, last.at)] else []
  }

  /** The reports those records send. */
  function Owed(w: World, e: Envelope, told: seq<Notice>): (ms: seq<Message>)
    ensures |ms| == |told| && forall i :: 0 <= i < |told| ==> ms[i] == ReportTo(w, e, told[i].at)
  {
    seq(|told|, i requires 0 <= i < |told| => ReportTo(w, e, told[i].at))
  }

  /** Whom the report events of the stretch are about. */
  function ReportedOn(v: seq<Event>): seq<string> {
    if v == [] then []
    else ReportedOn(v[..|v| - 1]) + if v[|v| - 1].DsnQueued? then [v[|v| - 1].rcpt] else []
  }

  function Names(told: seq<Notice>): (xs: seq<string>)
    ensures |xs| == |told| && forall i :: 0 <= i < |told| ==> xs[i] == told[i].rcpt
  {
    seq(|told|, i requires 0 <= i < |told| => told[i].rcpt)
  }

  /** What the stretch published, and the events that say so, are exactly what its records call for. */
  ghost predicate AllTold(w: World, e: Envelope, r: Repo, r': Repo) {
    && Grows(r, r')
    && var told := Telling(w, e, Tail(r, r'));
       && r'.published == r.published + Owed(w, e, told)
       && ReportedOn(Tail(r, r')) == Names(told)
  }

  lemma {:induction false} TellingConcat(w: World, e: Envelope, a: seq<Event>, b: seq<Event>)
    ensures Telling(w, e, a + b) == Telling(w, e, a) + Telling(w, e, b)
  {
    if b == [] {
      assert a + b == a;
    } else {
      TellingConcat(w, e, a, b[..|b| - 1]);
      assert (a + b)[..|a + b| - 1] == a + b[..|b| - 1];
    }
  }

  lemma {:induction false} ReportedConcat(a: seq<Event>, b: seq<Event>)
    ensures ReportedOn(a + b) == ReportedOn(a) + ReportedOn(b)
  {
    if b == [] {
      assert a + b == a;
    } else {
      ReportedConcat(a, b[..|b| - 1]);
      assert (a + b)[..|a + b| - 1] == a + b[..|b| - 1];
    }
  }

  lemma AllToldCompose(w: World, e: Envelope, r: Repo, r1: Repo, r2: Repo)
    requires AllTold(w, e, r, r1) && AllTold(w, e, r1, r2)
    ensures AllTold(w, e, r, r2)
  {
    var a, b := Tail(r, r1), Tail(r1, r2);
    assert Tail(r, r2) == a + b;
    TellingConcat(w, e, a, b);
    ReportedConcat(a, b);
    var x, y := Telling(w, e, a), Telling(w, e, b);
    OwedConcat(w, e, x, y);
    Assoc(r.published, Owed(w, e, x), Owed(w, e, y));
  }

  lemma OwedConcat(w: World, e: Envelope, x: seq<Notice>, y: seq<Notice>)
    ensures Owed(w, e, x + y) == Owed(w, e, x) + Owed(w, e, y)
    ensures Names(x + y) == Names(x) + Names(y)
  {
  }

  /** A stretch without hard bounces and reports. */
  lemma NothingTold(w: World, e: Envelope, r: Repo, r': Repo)
    requires Grows(r, r') && r'.published == r.published
    requires forall i :: |r.log| <= i < |r'.log| ==> !r'.log[i].DsnQueued? && !IsHardBounce(r'.log[i])
    ensures AllTold(w, e, r, r')
  {
    NoneTelling(w, e, Tail(r, r'));
  }

  lemma {:induction false} NoneTelling(w: World, e: Envelope, v: seq<Event>)
    requires forall i :: 0 <= i < |v| ==> !v[i].DsnQueued? && !IsHardBounce(v[i])
    ensures Telling(w, e, v) == [] && ReportedOn(v) == []
  {
    if v != [] {
      NoneTelling(w, e, v[..|v| - 1]);
    }
  }

  lemma TellingHead(w: World, e: Envelope, v: seq<Event>)
    requires 1 <= |v| <= 3 && v[0].Recorded? && forall i :: 0 < i < |v| ==> !v[i].Recorded?
    requires forall i :: 0 <= i < |v| - 1 ==> !v[i].DsnQueued?
    ensures Telling(w, e, v) == if Tells(w, e.sender, v[0].outcome, v[0].at) then [Notice(v[0].rcpt, v[0].at)] else []
    ensures ReportedOn(v) == if v[|v| - 1].DsnQueued? then [v[|v| - 1].rcpt] else []
  {
    assert v[..1][..0] == [];
    assert Telling(w, e, []) == [] && ReportedOn([]) == [];
    if |v| == 1 {
      assert v == v[..1];
    } else if |v| == 2 {
      assert v[..|v| - 1] == v[..1];
    } else {
      assert v[..2][..1] == v[..1];
      assert v[..|v| - 1] == v[..2];
    }
  }

  lemma RecordTold(w: World, e: Envelope, r: Repo, x: string, o: Outcome)
    ensures AllTold(w, e, r, Record(r, w, e, x, o))
  {
    var r' := Record(r, w, e, x, o);
    if !Alive(r, w) {
      NothingTold(w, e, r, r);
    } else {
      var v := RecordTail(r, w, e, x, o);
      RecordReports(w, e, r, x, o);
      RecordReportsExactly(w, e, r, x, o);
      TailShape(v, e, x);
      ToldOne(w, e, r, r', v);
    }
  }

  lemma TailShape(v: seq<Event>, e: Envelope, x: string)
    requires |v| <= 3
    requires |v| == 2 ==> v[1] == Barred(e.tenant, x) || v[1] == DsnQueued(e.tenant, e.id, x)
    requires |v| == 3 ==> v[1] == Barred(e.tenant, x) && v[2] == DsnQueued(e.tenant, e.id, x)
    ensures forall i :: 0 < i < |v| ==> !v[i].Recorded?
    ensures |v| > 1 ==> v[1].Barred? || (|v| == 2 && v[1].DsnQueued?)
  {
  }

  /** The events of one record, its report last. */
  lemma ToldOne(w: World, e: Envelope, r: Repo, r': Repo, v: seq<Event>)
    requires Grows(r, r') && r'.log == r.log + v && 1 <= |v| <= 3
    requires v[0].Recorded? && forall i :: 0 < i < |v| ==> !v[i].Recorded?
    requires |v| > 1 ==> v[1].Barred? || (|v| == 2 && v[1].DsnQueued?)
    requires if Tells(w, e.sender, v[0].outcome, v[0].at)
             then r'.published == r.published + [ReportTo(w, e, v[0].at)]
                  && r'.log[|r'.log| - 1..] == [DsnQueued(e.tenant, e.id, v[0].rcpt)]
             else r'.published == r.published && forall i :: |r.log| <= i < |r'.log| ==> !r'.log[i].DsnQueued?
    ensures AllTold(w, e, r, r')
  {
    assert Tail(r, r') == v;
    assert v[|v| - 1] == r'.log[|r'.log| - 1..][0];
    TellingHead(w, e, v);
    var told := Telling(w, e, v);
    if told == [] {
      assert !v[|v| - 1].DsnQueued? by { assert r'.log[|r'.log| - 1] == v[|v| - 1]; }
      OneNotice(w, e, r, r', told);
    } else {
      OneNotice(w, e, r, r', told);
    }
  }

  lemma OneNotice(w: World, e: Envelope, r: Repo, r': Repo, told: seq<Notice>)
    requires Grows(r, r') && told == Telling(w, e, Tail(r, r')) && |told| <= 1
    requires if told == [] then r'.published == r.published && ReportedOn(Tail(r, r')) == []
             else r'.published == r.published + [ReportTo(w, e, told[0].at)] && ReportedOn(Tail(r, r')) == [told[0].rcpt]
    ensures AllTold(w, e, r, r')
  {
    if told == [] {
      assert Owed(w, e, told) == [] && Names(told) == [];
    } else {
      assert Owed(w, e, told) == [ReportTo(w, e, told[0].at)] && Names(told) == [told[0].rcpt];
    }
  }

  lemma {:induction false} RecordAllTold(w: World, e: Envelope, r: Repo, xs: seq<string>, o: Outcome)
    ensures AllTold(w, e, r, RecordAll(r, w, e, xs, o))
  {
    if xs == [] {
      NothingTold(w, e, r, r);
    } else {
      var init := xs[..|xs| - 1];
      RecordAllTold(w, e, r, init, o);
      var r1 := RecordAll(r, w, e, init, o);
      RecordTold(w, e, r1, xs[|xs| - 1], o);
      AllToldCompose(w, e, r, r1, RecordAll(r, w, e, xs, o));
    }
  }

  lemma GroupTold(w: World, e: Envelope, p: Pass, g: Group)
    requires g.rcpts != []
    ensures AllTold(w, e, p.repo, DeliverGroup(p, w, e, g).repo)
  {
    var r := p.repo;
    if !Alive(r, w) {
      NothingTold(w, e, r, r);
    } else {
      var s := CheckAll(r, w, e, g.rcpts);
      Sifting(w, e, r, g.rcpts);
      var dropped := ScreeningEffect(w, e, r, g.rcpts);
      DropsTold(w, e, r, g.rcpts, s);
      if s.active != [] && Alive(s.repo, w) {
        var r1 := Offer(s.repo, e, s.active);
        NothingTold(w, e, s.repo, r1);
        AllToldCompose(w, e, r, s.repo, r1);
        RecordAllTold(w, e, r1, s.active, w.answer(s.repo.tick));
        AllToldCompose(w, e, r, r1, DeliverGroup(p, w, e, g).repo);
      }
    }
  }

  lemma DropsTold(w: World, e: Envelope, r: Repo, rcpts: seq<string>, s: Screening)
    requires Sifted(w, e, r, rcpts, s) && s.repo.published == r.published
    ensures AllTold(w, e, r, s.repo)
  {
    forall i | |r.log| <= i < |s.repo.log|
      ensures !s.repo.log[i].DsnQueued? && !IsHardBounce(s.repo.log[i])
    {
      assert s.repo.log[i] == Tail(r, s.repo)[i - |r.log|];
    }
    NothingTold(w, e, r, s.repo);
  }

  lemma {:induction false} GroupsTold(w: World, e: Envelope, r: Repo, groups: seq<Group>)
    requires NonEmptyGroups(groups)
    ensures AllTold(w, e, r, DeliverGroups(r, w, e, groups).repo)
  {
    if groups == [] {
      NothingTold(w, e, r, r);
    } else {
      var init := groups[..|groups| - 1];
      GroupsTold(w, e, r, init);
      var p := DeliverGroups(r, w, e, init);
      GroupTold(w, e, p, groups[|groups| - 1]);
      AllToldCompose(w, e, r, p.repo, DeliverGroups(r, w, e, groups).repo);
    }
  }

  // ----- one handling, and one turn of the queue

  /**
    One handling of a message, cut by its deadline or not: the messages it publishes are exactly the reports its hard
    bounces on record call for, in order, and none when it returns early.
  */
  lemma HandleReportsExactly(w: World, c: Retry.Config, m: Message, retries: u32, queuedAt: Option<nat>, r: Repo,
                             groups: seq<Group>)
    requires NonEmptyGroups(groups)
    ensures var r' := Handle(r, w, c, m, retries, queuedAt, groups).repo;
            if Attempted(m, w) then AllTold(w, EnvelopeOf(m), r, r') else r'.published == r.published
  {
    if Attempted(m, w) {
      var e, r1 := EnvelopeOf(m), DeliverGroups(r, w, EnvelopeOf(m), groups).repo;
      var r' := Handle(r, w, c, m, retries, queuedAt, groups).repo;
      GroupsTold(w, e, r, groups);
      AfterGroups(w, c, m, retries, queuedAt, r, groups);
      NothingTold(w, e, r1, r');
      AllToldCompose(w, e, r, r1, r');
    }
  }

  /** After the groups a handling writes at most the status. */
  lemma AfterGroups(w: World, c: Retry.Config, m: Message, retries: u32, queuedAt: Option<nat>, r: Repo,
                    groups: seq<Group>)
    requires NonEmptyGroups(groups) && Attempted(m, w)
    ensures var r1, r' := DeliverGroups(r, w, EnvelopeOf(m), groups).repo,
                          Handle(r, w, c, m, retries, queuedAt, groups).repo;
            OnlyStatus(r1, r')
  {
    PassAfterGroups(w, m, r, groups);
    HandleAfterPass(w, c, m, retries, queuedAt, r, groups);
  }

  ghost predicate OnlyStatus(r: Repo, r': Repo) {
    r.tick <= r'.tick && r'.log == r.log && r'.published == r.published && r'.suppressed == r.suppressed
  }

  lemma PassAfterGroups(w: World, m: Message, r: Repo, groups: seq<Group>)
    requires NonEmptyGroups(groups) && Attempted(m, w)
    ensures OnlyStatus(DeliverGroups(r, w, EnvelopeOf(m), groups).repo, Deliver(r, w, m, groups).repo)
  {
  }

  lemma HandleAfterPass(w: World, c: Retry.Config, m: Message, retries: u32, queuedAt: Option<nat>, r: Repo,
                        groups: seq<Group>)
    requires NonEmptyGroups(groups)
    ensures OnlyStatus(Deliver(r, w, m, groups).repo, Handle(r, w, c, m, retries, queuedAt, groups).repo)
  {
  }

  /** One handling of an entry, in terms of the repository it leaves. */
  lemma EntryReportsExactly(c: Setup, r: Repo, x: Entry, v: Move, r': Repo)
    requires x.payload.Mail? && NonEmptyGroups(v.groups) && Attempted(x.payload.m, v.world)
    requires r' == HandleEntry(c, r, x, v).repo
    ensures AllTold(v.world, EnvelopeOf(x.payload.m), r, r')
  {
    var retries := RetryCount(x, AsU32(x.delivered + 1));
    EntryHandled(c, r, x, v, HandleEntry(c, r, x, v));
    HandleTold(v.world, c.engine, x.payload.m, retries, x.queuedAt, r, v.groups, r');
  }

  lemma HandleTold(w: World, c: Retry.Config, m: Message, retries: u32, queuedAt: Option<nat>, r: Repo,
                   groups: seq<Group>, r': Repo)
    requires NonEmptyGroups(groups) && Attempted(m, w)
    requires r' == Handle(r, w, c, m, retries, queuedAt, groups).repo
    ensures AllTold(w, EnvelopeOf(m), r, r')
  {
    HandleReportsExactly(w, c, m, retries, queuedAt, r, groups);
  }

  /** The queue holds these reports from position `i` on, as new messages that have never been delivered. */
  ghost predicate Queued(q: seq<Entry>, i: nat, seqNo: nat, ms: seq<Message>) {
    && |q| >= i + |ms|
    && forall k :: 0 <= k < |ms| ==> q[i + k] == Entry(seqNo + k, Mail(ms[k]), 0, None, None)
  }

  lemma BornAt(q: seq<Entry>, i: nat, ms: seq<Message>, seqNo: nat, again: bool)
    requires i < |q|
    ensures Queued(QueueAfter(q, i, Spawned(ms, seqNo), again), |q| - 1, seqNo, ms)
  {
  }

  /** A turn puts exactly the reports on the queue that its hard bounces on record call for. */
  lemma TurnSendsReports(c: Setup, s: Sys, v: Move, s': Sys)
    requires Legal(s, v) && s.queue[v.index].payload.Mail? && Attempted(s.queue[v.index].payload.m, v.world)
    requires s' == Step(c, s, v)
    ensures var e := EnvelopeOf(s.queue[v.index].payload.m);
            && Grows(s.repo, s'.repo)
            && var ms := Owed(v.world, e, Telling(v.world, e, Tail(s.repo, s'.repo)));
               Queued(s'.queue, |s.queue| - 1, s.nextSeq, ms) && s'.nextSeq == s.nextSeq + |ms|
  {
    var e, x := EnvelopeOf(s.queue[v.index].payload.m), s.queue[v.index];
    var h := HandleEntry(c, s.repo, x, v);
    EntryReportsExactly(c, s.repo, x, v, h.repo);
    var ms := Owed(v.world, e, Telling(v.world, e, Tail(s.repo, h.repo)));
    NewAreOwed(s.repo, h.repo, ms);
    SettledQueues(c, s, v, h, ms);
  }

  lemma SettledQueues(c: Setup, s: Sys, v: Move, h: Handled, ms: seq<Message>)
    requires v.index < |s.queue| && NewMessages(s.repo, h.repo) == ms
    ensures var s' := Settled(c, s, v, h);
            && s'.repo == h.repo && s'.nextSeq == s.nextSeq + |ms|
            && Queued(s'.queue, |s.queue| - 1, s.nextSeq, ms)
  {
    BornAt(s.queue, v.index, ms, s.nextSeq, Decision(c, s.queue[v.index], v, h.result).Nakked?);
  }

  lemma NewAreOwed(r: Repo, r': Repo, ms: seq<Message>)
    requires r'.published == r.published + ms
    ensures NewMessages(r, r') == ms
  {
  }
}
