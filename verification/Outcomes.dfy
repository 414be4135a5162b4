/**
  What a delivery pass tells the handler, read off its events alone: who is offered to SMTP, that the answer to each
  offer is recorded for everyone it named, and that the outcomes handed back are those of the events.
*/
module Outcomes {
  import opened Basics
  import opened Delivery
  import opened DeliveryFacts
  import Retry

  // ----- offers and their records

  /** The record at `j` belongs to the offer at `i`: it names one of its recipients, and no other offer lies between. */
  ghost predicate BelongsTo(v: seq<Event>, i: int, j: int) {
    && 0 <= i < j < |v| && v[i].Offered? && v[j].Recorded? && v[j].rcpt in v[i].rcpts
    && forall k :: i < k < j ==> !v[k].Offered?
  }

  /** The record at `j` carries the answer to the offer it belongs to. */
  ghost predicate CarriesAnswer(w: World, v: seq<Event>, j: int) {
    exists i :: BelongsTo(v, i, j) && v[j].outcome == w.answer(v[i].at)
  }

  /** Whatever is recorded, drops aside, is the remote side's answer to an offer of that recipient. */
  ghost predicate Answered(w: World, v: seq<Event>) {
    forall j :: 0 <= j < |v| && v[j].Recorded? && !v[j].outcome.Suppressed? ==> CarriesAnswer(w, v, j)
  }

  ghost predicate AnswerKept(w: World, v: seq<Event>, i: int, x: string) {
    exists j :: BelongsTo(v, i, j) && v[j].rcpt == x && v[j].outcome == w.answer(v[i].at)
  }

  /** The answer to every offer is recorded for each recipient it named. */
  ghost predicate Served(w: World, v: seq<Event>) {
    forall i, x :: 0 <= i < |v| && v[i].Offered? && x in v[i].rcpts ==> AnswerKept(w, v, i, x)
  }

  ghost predicate Stamped(v: Event) {
    v.Offered? || v.Recorded?
  }

  /** Offers and records are stamped in order, within the ticks of the stretch. */
  ghost predicate InOrder(v: seq<Event>, from: nat, to: nat) {
    && (forall i :: 0 <= i < |v| && Stamped(v[i]) ==> from <= v[i].at < to)
    && (forall i, j :: 0 <= i < j < |v| && Stamped(v[i]) && Stamped(v[j]) ==> v[i].at < v[j].at)
  }

  lemma BelongsShift(a: seq<Event>, b: seq<Event>, i: int, j: int)
    ensures BelongsTo(a, i, j) ==> BelongsTo(a + b, i, j)
    ensures BelongsTo(b, i, j) ==> BelongsTo(a + b, |a| + i, |a| + j)
  {
    var v := a + b;
    assert forall k :: 0 <= k < |b| ==> v[|a| + k] == b[k];
    if BelongsTo(b, i, j) {
      forall k | |a| + i < k < |a| + j
        ensures !v[k].Offered?
      {
        assert v[k] == b[k - |a|];
      }
    }
  }

  lemma AnsweredConcat(w: World, a: seq<Event>, b: seq<Event>)
    requires Answered(w, a) && Answered(w, b)
    ensures Answered(w, a + b)
  {
    var v := a + b;
    forall j | 0 <= j < |v| && v[j].Recorded? && !v[j].outcome.Suppressed?
      ensures CarriesAnswer(w, v, j)
    {
      if j < |a| {
        assert CarriesAnswer(w, a, j);
        var i :| BelongsTo(a, i, j) && a[j].outcome == w.answer(a[i].at);
        BelongsShift(a, b, i, j);
        assert v[i] == a[i];
      } else {
        assert v[j] == b[j - |a|];
        assert CarriesAnswer(w, b, j - |a|);
        var i :| BelongsTo(b, i, j - |a|) && b[j - |a|].outcome == w.answer(b[i].at);
        BelongsShift(a, b, i, j - |a|);
        assert v[|a| + i] == b[i];
      }
    }
  }

  lemma ServedConcat(w: World, a: seq<Event>, b: seq<Event>)
    requires Served(w, a) && Served(w, b)
    ensures Served(w, a + b)
  {
    var v := a + b;
    forall i, x | 0 <= i < |v| && v[i].Offered? && x in v[i].rcpts
      ensures AnswerKept(w, v, i, x)
    {
      if i < |a| {
        assert AnswerKept(w, a, i, x);
        var j :| BelongsTo(a, i, j) && a[j].rcpt == x && a[j].outcome == w.answer(a[i].at);
        BelongsShift(a, b, i, j);
        assert v[j] == a[j];
      } else {
        assert v[i] == b[i - |a|];
        assert AnswerKept(w, b, i - |a|, x);
        var j :| BelongsTo(b, i - |a|, j) && b[j].rcpt == x && b[j].outcome == w.answer(b[i - |a|].at);
        BelongsShift(a, b, i - |a|, j);
        assert v[|a| + j] == b[j];
      }
    }
  }

  lemma InOrderConcat(a: seq<Event>, b: seq<Event>, from: nat, mid: nat, to: nat)
    requires InOrder(a, from, mid) && InOrder(b, mid, to) && from <= mid <= to
    ensures InOrder(a + b, from, to)
  {
  }

  // ----- events and outcomes

  /** Some recipient has this outcome on record. */
  ghost predicate Logged(v: seq<Event>, o: Outcome) {
    exists j :: 0 <= j < |v| && v[j].Recorded? && v[j].outcome == o
  }

  /** The pass reports this outcome. */
  ghost predicate Told(outcomes: seq<(string, Outcome)>, o: Outcome) {
    exists k :: 0 <= k < |outcomes| && outcomes[k].1 == o
  }

  function Offers(v: seq<Event>): seq<Event> {
    if v == [] then [] else Offers(v[..|v| - 1]) + if v[|v| - 1].Offered? then [v[|v| - 1]] else []
  }

  /** The outcomes that speak for a whole group. */
  function Verdicts(outcomes: seq<(string, Outcome)>): seq<(string, Outcome)> {
    if outcomes == [] then []
    else
      var last := outcomes[|outcomes| - 1];
      Verdicts(outcomes[..|outcomes| - 1]) + if last.1.Suppressed? then [] else [last]
  }

  /** The outcome is the answer to the offer and names an address in the domain offered. */
  ghost predicate SpeaksFor(w: World, o: (string, Outcome), v: Event) {
    v.Offered? && o.1 == w.answer(v.at) && v.rcpts != [] && forall x :: x in v.rcpts ==> DomainOf(x) == DomainOf(o.0)
  }

  /** One outcome per offer, in the same order. */
  ghost predicate Paired(w: World, v: seq<Event>, outcomes: seq<(string, Outcome)>) {
    && |Offers(v)| == |Verdicts(outcomes)|
    && forall k :: 0 <= k < |Offers(v)| ==> SpeaksFor(w, Verdicts(outcomes)[k], Offers(v)[k])
  }

  ghost predicate SameOutcomes(v: seq<Event>, outcomes: seq<(string, Outcome)>) {
    forall o :: Told(outcomes, o) <==> Logged(v, o)
  }

  lemma {:induction false} OffersConcat(a: seq<Event>, b: seq<Event>)
    ensures Offers(a + b) == Offers(a) + Offers(b)
  {
    if b == [] {
      assert a + b == a;
    } else {
      OffersConcat(a, b[..|b| - 1]);
      assert (a + b)[..|a + b| - 1] == a + b[..|b| - 1];
    }
  }

  lemma {:induction false} VerdictsConcat(a: seq<(string, Outcome)>, b: seq<(string, Outcome)>)
    ensures Verdicts(a + b) == Verdicts(a) + Verdicts(b)
  {
    if b == [] {
      assert a + b == a;
    } else {
      VerdictsConcat(a, b[..|b| - 1]);
      assert (a + b)[..|a + b| - 1] == a + b[..|b| - 1];
    }
  }

  lemma PairedConcat(w: World, a: seq<Event>, b: seq<Event>, x: seq<(string, Outcome)>, y: seq<(string, Outcome)>)
    requires Paired(w, a, x) && Paired(w, b, y)
    ensures Paired(w, a + b, x + y)
  {
    OffersConcat(a, b);
    VerdictsConcat(x, y);
    var m := |Offers(a)|;
    forall k | 0 <= k < m + |Offers(b)|
      ensures SpeaksFor(w, (Verdicts(x) + Verdicts(y))[k], (Offers(a) + Offers(b))[k])
    {
      assert k >= m ==> SpeaksFor(w, Verdicts(y)[k - m], Offers(b)[k - m]);
    }
  }

  lemma LoggedConcat(a: seq<Event>, b: seq<Event>, o: Outcome)
    ensures Logged(a + b, o) <==> Logged(a, o) || Logged(b, o)
  {
    var v := a + b;
    assert forall k :: 0 <= k < |a| ==> v[k] == a[k];
    assert forall k :: 0 <= k < |b| ==> v[|a| + k] == b[k];
    if Logged(v, o) {
      var j :| 0 <= j < |v| && v[j].Recorded? && v[j].outcome == o;
      assert j >= |a| ==> v[j] == b[j - |a|];
    }
  }

  lemma ToldConcat(x: seq<(string, Outcome)>, y: seq<(string, Outcome)>, o: Outcome)
    ensures Told(x + y, o) <==> Told(x, o) || Told(y, o)
  {
    var z := x + y;
    assert forall k :: 0 <= k < |x| ==> z[k] == x[k];
    assert forall k :: 0 <= k < |y| ==> z[|x| + k] == y[k];
    if Told(z, o) {
      var k :| 0 <= k < |z| && z[k].1 == o;
      assert k >= |x| ==> z[k] == y[k - |x|];
    }
  }

  lemma SameOutcomesConcat(a: seq<Event>, b: seq<Event>, x: seq<(string, Outcome)>, y: seq<(string, Outcome)>)
    requires SameOutcomes(a, x) && SameOutcomes(b, y)
    ensures SameOutcomes(a + b, x + y)
  {
    forall o
      ensures Told(x + y, o) <==> Logged(a + b, o)
    {
      LoggedConcat(a, b, o);
      ToldConcat(x, y, o);
    }
  }

  // ----- stretches of a pass

  /** The events and outcomes of a stretch of a pass fit together, completely if it ended in time. */
  ghost predicate Truthful(w: World, r: Repo, r': Repo, outcomes: seq<(string, Outcome)>) {
    && Grows(r, r')
    && Answered(w, Tail(r, r')) && InOrder(Tail(r, r'), r.tick, r'.tick)
    && Paired(w, Tail(r, r'), outcomes)
    && (Alive(r', w) ==> Served(w, Tail(r, r')) && SameOutcomes(Tail(r, r'), outcomes))
  }

  lemma TruthfulCompose(w: World, r: Repo, r1: Repo, r2: Repo, x: seq<(string, Outcome)>, y: seq<(string, Outcome)>)
    requires Truthful(w, r, r1, x) && Truthful(w, r1, r2, y)
    ensures Truthful(w, r, r2, x + y)
  {
    var a, b := Tail(r, r1), Tail(r1, r2);
    assert Tail(r, r2) == a + b;
    AnsweredConcat(w, a, b);
    InOrderConcat(a, b, r.tick, r1.tick, r2.tick);
    PairedConcat(w, a, b, x, y);
    if Alive(r2, w) {
      ServedConcat(w, a, b);
      SameOutcomesConcat(a, b, x, y);
    }
  }

  /** A stretch without events and outcomes. */
  lemma TruthfulNothing(w: World, r: Repo, r': Repo)
    requires r.tick <= r'.tick && r'.log == r.log && r'.published == r.published && r'.suppressed == r.suppressed
    ensures Truthful(w, r, r', [])
  {
    assert Tail(r, r') == [];
  }

  // ----- the drops of a group

  /** The stretch records nothing but drops, of recipients suppressed before it. */
  ghost predicate OnlyDrops(e: Envelope, r: Repo, v: seq<Event>, rcpts: seq<string>) {
    forall j :: 0 <= j < |v| ==>
      v[j].Recorded? && v[j].outcome.Suppressed? && v[j].rcpt in rcpts && (e.tenant, v[j].rcpt) in r.suppressed
  }

  /** What the suppression checks of one group leave behind. */
  ghost predicate Sifted(w: World, e: Envelope, r: Repo, rcpts: seq<string>, s: Screening) {
    && Grows(r, s.repo) && s.repo.suppressed == r.suppressed
    && OnlyDrops(e, r, Tail(r, s.repo), rcpts) && InOrder(Tail(r, s.repo), r.tick, s.repo.tick)
    && (forall x :: x in s.active ==> x in rcpts)
    && (forall k :: 0 <= k < |s.outcomes| ==> s.outcomes[k].1.Suppressed?)
    && (Alive(s.repo, w) ==> |s.outcomes| == |Tail(r, s.repo)|)
  }

  lemma {:induction false} Sifting(w: World, e: Envelope, r: Repo, rcpts: seq<string>)
    ensures Sifted(w, e, r, rcpts, CheckAll(r, w, e, rcpts))
  {
    if rcpts != [] {
      var init, last := rcpts[..|rcpts| - 1], rcpts[|rcpts| - 1];
      Sifting(w, e, r, init);
      SiftOne(w, e, r, init, CheckAll(r, w, e, init), last);
      assert init + [last] == rcpts;
    }
  }

  lemma SiftOne(w: World, e: Envelope, r: Repo, init: seq<string>, s: Screening, x: string)
    requires Sifted(w, e, r, init, s)
    ensures Sifted(w, e, r, init + [x], CheckOne(s, w, e, x))
  {
    if Alive(s.repo, w) {
      var r1 := Tick(s.repo);
      var s' := CheckOne(s, w, e, x);
      if Alive(r1, w) && w.checkOk(s.repo.tick) && (e.tenant, x) in s.repo.suppressed {
        var v := Recorded(e.tenant, e.id, x, Suppressed, w.ok(r1.tick), r1.tick);
        assert Tail(r, s'.repo) == Tail(r, s.repo) + [v];
      } else {
        assert Tail(r, s'.repo) == Tail(r, s.repo);
      }
    }
  }

  lemma {:induction false} NoVerdicts(outcomes: seq<(string, Outcome)>)
    requires forall k :: 0 <= k < |outcomes| ==> outcomes[k].1.Suppressed?
    ensures Verdicts(outcomes) == []
  {
    if outcomes != [] {
      NoVerdicts(outcomes[..|outcomes| - 1]);
    }
  }

  lemma {:induction false} NoOffersIn(v: seq<Event>)
    requires forall j :: 0 <= j < |v| ==> !v[j].Offered?
    ensures Offers(v) == []
  {
    if v != [] {
      NoOffersIn(v[..|v| - 1]);
    }
  }

  lemma DropsTruthful(w: World, e: Envelope, r: Repo, rcpts: seq<string>, s: Screening)
    requires Sifted(w, e, r, rcpts, s)
    ensures Truthful(w, r, s.repo, s.outcomes)
  {
    var v := Tail(r, s.repo);
    NoVerdicts(s.outcomes);
    NoOffersIn(v);
    if Alive(s.repo, w) {
      forall o
        ensures Told(s.outcomes, o) <==> Logged(v, o)
      {
        assert |v| > 0 ==> v[0].outcome.Suppressed? && s.outcomes[0].1.Suppressed?;
      }
    }
  }

  // ----- the records of one offer

  /** The stretch records one outcome, for everyone named if it ended in time, and offers nobody. */
  ghost predicate Copies(w: World, r: Repo, r': Repo, xs: seq<string>, o: Outcome) {
    && Grows(r, r') && InOrder(Tail(r, r'), r.tick, r'.tick)
    && (forall j :: 0 <= j < |Tail(r, r')| ==>
          !Tail(r, r')[j].Offered?
          && (Tail(r, r')[j].Recorded? ==> Tail(r, r')[j].rcpt in xs && Tail(r, r')[j].outcome == o))
    && (Alive(r', w) ==> forall x :: x in xs ==> RecordedFor(Tail(r, r'), x) > 0)
  }

  lemma RecordCopies(w: World, e: Envelope, r: Repo, x: string, o: Outcome)
    ensures Copies(w, r, Record(r, w, e, x, o), [x], o)
  {
    var r' := Record(r, w, e, x, o);
    RecordReports(w, e, r, x, o);
    if Alive(r, w) {
      var v := RecordTail(r, w, e, x, o);
      TailCounts(v, e, x, o, x);
      RecordedFirst(w, r, r', v, x, o);
    } else {
      assert Tail(r, r') == [];
    }
  }

  lemma RecordedFirst(w: World, r: Repo, r': Repo, v: seq<Event>, x: string, o: Outcome)
    requires Grows(r, r') && r.tick < r'.tick && r'.log == r.log + v && v != []
    requires v[0].Recorded? && v[0].rcpt == x && v[0].outcome == o && v[0].at == r.tick
    requires forall j :: 0 < j < |v| ==> !Stamped(v[j])
    requires RecordedFor(v, x) > 0
    ensures Copies(w, r, r', [x], o)
  {
    assert Tail(r, r') == v;
  }

  lemma CopiesCompose(w: World, r: Repo, r1: Repo, r2: Repo, xs: seq<string>, ys: seq<string>, o: Outcome)
    requires Copies(w, r, r1, xs, o) && Copies(w, r1, r2, ys, o)
    ensures Copies(w, r, r2, xs + ys, o)
  {
    var a, b := Tail(r, r1), Tail(r1, r2);
    assert Tail(r, r2) == a + b;
    InOrderConcat(a, b, r.tick, r1.tick, r2.tick);
    forall x {
      CountsAdd(a, b, x);
    }
  }

  lemma {:induction false} RecordAllCopies(w: World, e: Envelope, r: Repo, xs: seq<string>, o: Outcome)
    ensures Copies(w, r, RecordAll(r, w, e, xs, o), xs, o)
  {
    if xs == [] {
      assert Tail(r, r) == [];
    } else {
      var init, last := xs[..|xs| - 1], xs[|xs| - 1];
      RecordAllCopies(w, e, r, init, o);
      RecordCopies(w, e, RecordAll(r, w, e, init, o), last, o);
      CopiesCompose(w, r, RecordAll(r, w, e, init, o), RecordAll(r, w, e, xs, o), init, [last], o);
      assert init + [last] == xs;
    }
  }

  lemma {:induction false} SomeRecord(v: seq<Event>, x: string) returns (j: nat)
    requires RecordedFor(v, x) > 0
    ensures j < |v| && v[j].Recorded? && v[j].rcpt == x
  {
    j := |v| - 1;
    if !(v[j].Recorded? && v[j].rcpt == x) {
      j := SomeRecord(v[..|v| - 1], x);
    }
  }

  lemma OfferTruthful(w: World, e: Envelope, r: Repo, r': Repo, first: string, xs: seq<string>)
    requires var o := w.answer(r.tick); Copies(w, Offer(r, e, xs), r', xs, o)
    requires xs != [] && forall x :: x in xs ==> DomainOf(x) == DomainOf(first)
    ensures Truthful(w, r, r', [(first, w.answer(r.tick))])
  {
    var r1, o := Offer(r, e, xs), w.answer(r.tick);
    var of, b := Offered(e.tenant, xs, r.tick), Tail(r1, r');
    var v := [of] + b;
    assert Tail(r, r') == v;
    OfferAnswered(w, of, b, o);
    OfferPaired(w, of, b, (first, o));
    if Alive(r', w) {
      forall x | x in xs
        ensures exists j :: 0 <= j < |b| && b[j].Recorded? && b[j].rcpt == x
      {
        var j := SomeRecord(b, x);
      }
      OfferServed(w, of, b, o);
      OfferOutcomes(of, b, first, o);
    }
  }

  lemma OfferAnswered(w: World, of: Event, b: seq<Event>, o: Outcome)
    requires of.Offered? && o == w.answer(of.at)
    requires forall j :: 0 <= j < |b| ==> !b[j].Offered? && (b[j].Recorded? ==> b[j].rcpt in of.rcpts && b[j].outcome == o)
    ensures Answered(w, [of] + b)
  {
    var v := [of] + b;
    forall j | 0 <= j < |v| && v[j].Recorded? && !v[j].outcome.Suppressed?
      ensures CarriesAnswer(w, v, j)
    {
      assert BelongsTo(v, 0, j);
    }
  }

  lemma OfferServed(w: World, of: Event, b: seq<Event>, o: Outcome)
    requires of.Offered? && o == w.answer(of.at)
    requires forall j :: 0 <= j < |b| ==> !b[j].Offered? && (b[j].Recorded? ==> b[j].rcpt in of.rcpts && b[j].outcome == o)
    requires forall x :: x in of.rcpts ==> exists j :: 0 <= j < |b| && b[j].Recorded? && b[j].rcpt == x
    ensures Served(w, [of] + b)
  {
    var v := [of] + b;
    forall i, x | 0 <= i < |v| && v[i].Offered? && x in v[i].rcpts
      ensures AnswerKept(w, v, i, x)
    {
      assert i == 0;
      var j :| 0 <= j < |b| && b[j].Recorded? && b[j].rcpt == x;
      assert v[j + 1] == b[j];
      assert BelongsTo(v, 0, j + 1);
    }
  }

  lemma OfferPaired(w: World, of: Event, b: seq<Event>, o: (string, Outcome))
    requires SpeaksFor(w, o, of) && !o.1.Suppressed? && forall j :: 0 <= j < |b| ==> !b[j].Offered?
    ensures Paired(w, [of] + b, [o])
  {
    NoOffersIn(b);
    OffersConcat([of], b);
    OnlyOffer(of);
    OnlyVerdict(o);
  }

  lemma OnlyOffer(of: Event)
    requires of.Offered?
    ensures Offers([of]) == [of]
  {
    assert [of][..0] == [];
    assert Offers([]) == [];
  }

  lemma OnlyVerdict(o: (string, Outcome))
    requires !o.1.Suppressed?
    ensures Verdicts([o]) == [o]
  {
    assert [o][..0] == [];
    assert Verdicts([]) == [];
  }

  lemma OfferOutcomes(of: Event, b: seq<Event>, first: string, o: Outcome)
    requires of.Offered? && of.rcpts != []
    requires forall j :: 0 <= j < |b| && b[j].Recorded? ==> b[j].outcome == o
    requires forall x :: x in of.rcpts ==> exists j :: 0 <= j < |b| && b[j].Recorded? && b[j].rcpt == x
    ensures SameOutcomes([of] + b, [(first, o)])
  {
    var v := [of] + b;
    assert of.rcpts[0] in of.rcpts;
    var j :| 0 <= j < |b| && b[j].Recorded? && b[j].rcpt == of.rcpts[0];
    assert v[j + 1] == b[j];
    forall q
      ensures Told([(first, o)], q) <==> Logged(v, q)
    {
      assert [(first, o)][0].1 == o;
    }
  }

  // ----- groups

  lemma {:induction false} InDomainMembers(rcpts: seq<string>, d: string)
    ensures forall x :: x in InDomain(rcpts, d) ==> DomainOf(x) == d && x in rcpts
  {
    if rcpts != [] {
      InDomainMembers(rcpts[..|rcpts| - 1], d);
    }
  }

  /** A group of a grouping: its recipients share its domain. */
  ghost predicate OneDomain(g: Group) {
    g.rcpts != [] && forall x :: x in g.rcpts ==> DomainOf(x) == g.domain
  }

  lemma GroupTruthful(w: World, e: Envelope, p: Pass, g: Group) returns (outcomes: seq<(string, Outcome)>)
    requires OneDomain(g)
    ensures DeliverGroup(p, w, e, g).outcomes == p.outcomes + outcomes
    ensures Truthful(w, p.repo, DeliverGroup(p, w, e, g).repo, outcomes)
  {
    var r := p.repo;
    outcomes := [];
    if !Alive(r, w) {
      TruthfulNothing(w, r, r);
    } else {
      var s := CheckAll(r, w, e, g.rcpts);
      Sifting(w, e, r, g.rcpts);
      DropsTruthful(w, e, r, g.rcpts, s);
      outcomes := s.outcomes;
      if s.active != [] && Alive(s.repo, w) {
        var o := w.answer(s.repo.tick);
        AttemptTruthful(w, e, s.repo, g, s.active);
        TruthfulCompose(w, r, s.repo, RecordAll(Offer(s.repo, e, s.active), w, e, s.active, o), outcomes,
                        [(g.rcpts[0], o)]);
        outcomes := outcomes + [(g.rcpts[0], o)];
        Assoc(p.outcomes, s.outcomes, [(g.rcpts[0], o)]);
      }
    }
  }

  lemma AttemptTruthful(w: World, e: Envelope, r: Repo, g: Group, active: seq<string>)
    requires OneDomain(g) && active != [] && forall x :: x in active ==> x in g.rcpts
    ensures var o := w.answer(r.tick);
            Truthful(w, r, RecordAll(Offer(r, e, active), w, e, active, o), [(g.rcpts[0], o)])
  {
    var o := w.answer(r.tick);
    RecordAllCopies(w, e, Offer(r, e, active), active, o);
    assert g.rcpts[0] in g.rcpts;
    OfferTruthful(w, e, r, RecordAll(Offer(r, e, active), w, e, active, o), g.rcpts[0], active);
  }

  ghost predicate OneDomainEach(groups: seq<Group>) {
    forall i :: 0 <= i < |groups| ==> OneDomain(groups[i])
  }

  lemma {:induction false} GroupsTruthful(w: World, e: Envelope, r: Repo, groups: seq<Group>)
    requires NonEmptyGroups(groups) && OneDomainEach(groups)
    ensures var p := DeliverGroups(r, w, e, groups); Truthful(w, r, p.repo, p.outcomes)
  {
    if groups == [] {
      TruthfulNothing(w, r, r);
    } else {
      var init, last := groups[..|groups| - 1], groups[|groups| - 1];
      GroupsTruthful(w, e, r, init);
      var p := DeliverGroups(r, w, e, init);
      var more := GroupTruthful(w, e, p, last);
      TruthfulCompose(w, r, p.repo, DeliverGroup(p, w, e, last).repo, p.outcomes, more);
    }
  }

  lemma GroupingDomains(groups: seq<Group>, rcpts: seq<string>)
    requires IsGrouping(groups, rcpts)
    ensures OneDomainEach(groups)
  {
    forall i | 0 <= i < |groups|
      ensures OneDomain(groups[i])
    {
      InDomainMembers(rcpts, groups[i].domain);
    }
  }

  // ----- only suppressed recipients are dropped

  /** What the stretch suppressed belongs to one of these domains. */
  ghost predicate BarsWithin(e: Envelope, r: Repo, r': Repo, groups: seq<Group>) {
    forall x :: (e.tenant, x) in r'.suppressed && (e.tenant, x) !in r.suppressed ==> HasDomain(groups, DomainOf(x))
  }

  lemma RecordBarsOnly(w: World, e: Envelope, r: Repo, x: string, o: Outcome)
    ensures forall z :: z in Record(r, w, e, x, o).suppressed && z !in r.suppressed ==> z == (e.tenant, x)
  {
  }

  lemma {:induction false} RecordAllBarsOnly(w: World, e: Envelope, r: Repo, xs: seq<string>, o: Outcome)
    ensures forall z :: z in RecordAll(r, w, e, xs, o).suppressed && z !in r.suppressed ==> z.1 in xs
  {
    if xs != [] {
      RecordAllBarsOnly(w, e, r, xs[..|xs| - 1], o);
      RecordBarsOnly(w, e, RecordAll(r, w, e, xs[..|xs| - 1], o), xs[|xs| - 1], o);
    }
  }

  lemma GroupBarsOnly(w: World, e: Envelope, p: Pass, g: Group)
    requires g.rcpts != []
    ensures forall z :: z in DeliverGroup(p, w, e, g).repo.suppressed && z !in p.repo.suppressed ==> z.1 in g.rcpts
  {
    if Alive(p.repo, w) {
      var s := CheckAll(p.repo, w, e, g.rcpts);
      Sifting(w, e, p.repo, g.rcpts);
      RecordAllBarsOnly(w, e, Offer(s.repo, e, s.active), s.active, w.answer(s.repo.tick));
    }
  }

  lemma {:induction false} GroupsBarWithin(w: World, e: Envelope, r: Repo, groups: seq<Group>)
    requires NonEmptyGroups(groups) && OneDomainEach(groups)
    ensures BarsWithin(e, r, DeliverGroups(r, w, e, groups).repo, groups)
  {
    if groups != [] {
      var init, last := groups[..|groups| - 1], groups[|groups| - 1];
      GroupsBarWithin(w, e, r, init);
      var p := DeliverGroups(r, w, e, init);
      GroupBarsOnly(w, e, p, last);
      forall x: string {
        HasDomainSnoc(init, last, DomainOf(x));
      }
      assert init + [last] == groups;
    }
  }

  /** Every drop on record is of a recipient that was suppressed before the stretch. */
  ghost predicate DropsBarred(e: Envelope, r: Repo, v: seq<Event>) {
    forall j :: 0 <= j < |v| && v[j].Recorded? && v[j].outcome.Suppressed? ==> (e.tenant, v[j].rcpt) in r.suppressed
  }

  lemma GroupDropsBarred(w: World, e: Envelope, p: Pass, g: Group)
    requires OneDomain(g)
    ensures Grows(p.repo, DeliverGroup(p, w, e, g).repo)
    ensures var v := Tail(p.repo, DeliverGroup(p, w, e, g).repo);
            DropsBarred(e, p.repo, v)
            && forall j :: 0 <= j < |v| && v[j].Recorded? ==> v[j].rcpt in g.rcpts
  {
    GroupEffect(w, e, p, g);
    var r, r' := p.repo, DeliverGroup(p, w, e, g).repo;
    if Alive(r, w) {
      var s := CheckAll(r, w, e, g.rcpts);
      Sifting(w, e, r, g.rcpts);
      if s.active != [] && Alive(s.repo, w) {
        var r1, o := Offer(s.repo, e, s.active), w.answer(s.repo.tick);
        RecordAllCopies(w, e, r1, s.active, o);
        assert Tail(r, r') == Tail(r, s.repo) + [Offered(e.tenant, s.active, s.repo.tick)] + Tail(r1, r');
      }
    } else {
      assert Tail(r, r') == [];
    }
  }

  lemma {:induction false} GroupsDropBarred(w: World, e: Envelope, r: Repo, groups: seq<Group>)
    requires NonEmptyGroups(groups) && OneDomainEach(groups)
    requires forall i, j :: 0 <= i < j < |groups| ==> groups[i].domain != groups[j].domain
    ensures Grows(r, DeliverGroups(r, w, e, groups).repo)
    ensures DropsBarred(e, r, Tail(r, DeliverGroups(r, w, e, groups).repo))
  {
    if groups == [] {
      assert Tail(r, r) == [];
    } else {
      var init, last := groups[..|groups| - 1], groups[|groups| - 1];
      GroupsDropBarred(w, e, r, init);
      GroupsBarWithin(w, e, r, init);
      var p := DeliverGroups(r, w, e, init);
      var r' := DeliverGroup(p, w, e, last).repo;
      GroupDropsBarred(w, e, p, last);
      LaterDropsBarred(e, r, p.repo, r', init, last);
    }
  }

  lemma LaterDropsBarred(e: Envelope, r: Repo, r1: Repo, r2: Repo, init: seq<Group>, g: Group)
    requires Grows(r, r1) && Grows(r1, r2) && OneDomain(g) && !HasDomain(init, g.domain)
    requires BarsWithin(e, r, r1, init) && DropsBarred(e, r, Tail(r, r1)) && DropsBarred(e, r1, Tail(r1, r2))
    requires forall j :: 0 <= j < |Tail(r1, r2)| && Tail(r1, r2)[j].Recorded? ==> Tail(r1, r2)[j].rcpt in g.rcpts
    ensures DropsBarred(e, r, Tail(r, r2))
  {
    var a, b := Tail(r, r1), Tail(r1, r2);
    var v := Tail(r, r2);
    assert v == a + b;
    forall j | 0 <= j < |v| && v[j].Recorded? && v[j].outcome.Suppressed?
      ensures (e.tenant, v[j].rcpt) in r.suppressed
    {
      if j >= |a| {
        assert v[j] == b[j - |a|];
        assert DomainOf(v[j].rcpt) == g.domain;
      }
    }
  }

  // ----- the theorems

  /**
    A pass past its early returns: what it records, drops aside, are the answers to its offers, each offer has one
    outcome of its own, in order, and if it ends in time the answer is on record for everyone offered and an outcome
    is reported if and only if it is on record for somebody.
  */
  lemma PassTruthful(w: World, m: Message, r: Repo, groups: seq<Group>)
    requires IsGrouping(groups, m.rcpts) && Attempted(m, w)
    ensures var p := Deliver(r, w, m, groups); Truthful(w, r, p.repo, p.outcomes)
  {
    var e := EnvelopeOf(m);
    GroupingDomains(groups, m.rcpts);
    GroupsTruthful(w, e, r, groups);
    var p, p' := DeliverGroups(r, w, e, groups), Deliver(r, w, m, groups);
    TruthfulNothing(w, p.repo, p'.repo);
    TruthfulCompose(w, r, p.repo, p'.repo, p.outcomes, []);
    assert p.outcomes + [] == p.outcomes;
  }

  /** In a pass that ends in time each kind of outcome is reported if and only if it is on record. */
  lemma OutcomesAreTheRecords(w: World, m: Message, r: Repo, groups: seq<Group>, o: Outcome)
    requires IsGrouping(groups, m.rcpts) && Attempted(m, w) && Alive(Deliver(r, w, m, groups).repo, w)
    ensures var p := Deliver(r, w, m, groups);
            r.log <= p.repo.log && (Told(p.outcomes, o) <==> Logged(p.repo.log[|r.log|..], o))
  {
    PassTruthful(w, m, r, groups);
    var p := Deliver(r, w, m, groups);
    assert Tail(r, p.repo) == p.repo.log[|r.log|..];
  }

  /** The stretch offers the recipient and keeps the answer on record for it. */
  ghost predicate Reached(w: World, v: seq<Event>, x: string) {
    exists i :: 0 <= i < |v| && v[i].Offered? && x in v[i].rcpts && AnswerKept(w, v, i, x)
  }

  /** Everyone not suppressed before a pass that ends in time is offered to SMTP, and the answer is on record. */
  lemma UnsuppressedAreOffered(w: World, m: Message, r: Repo, groups: seq<Group>, x: string)
    requires IsGrouping(groups, m.rcpts) && Attempted(m, w) && Alive(Deliver(r, w, m, groups).repo, w)
    requires x in m.rcpts && (m.tenant.value, x) !in r.suppressed
    ensures var r' := Deliver(r, w, m, groups).repo; r.log <= r'.log && Reached(w, r'.log[|r.log|..], x)
  {
    var e, r' := EnvelopeOf(m), Deliver(r, w, m, groups).repo;
    PassTruthful(w, m, r, groups);
    OneOutcomePerOccurrence(w, m, r, groups, x);
    GroupingDomains(groups, m.rcpts);
    GroupsDropBarred(w, e, r, groups);
    var v := Tail(r, r');
    assert v == r'.log[|r.log|..] && r'.log == DeliverGroups(r, w, e, groups).repo.log;
    assert multiset(m.rcpts)[x] > 0;
    var j := SomeRecord(v, x);
    assert CarriesAnswer(w, v, j);
    var i :| BelongsTo(v, i, j) && v[j].outcome == w.answer(v[i].at);
    assert AnswerKept(w, v, i, x);
  }
}
