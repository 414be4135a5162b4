/** Whom a delivery pass offers to SMTP, and in what order, when suppression is known. */
module Offering {
  import opened Basics
  import opened Delivery
  import opened DeliveryFacts
  import opened Outcomes

  /** The recipients not suppressed, in order and with their repetitions. */
  function Unbarred(r: Repo, tenant: nat, xs: seq<string>): seq<string> {
    if xs == [] then []
    else
      var last := xs[|xs| - 1];
      Unbarred(r, tenant, xs[..|xs| - 1]) + if (tenant, last) in r.suppressed then [] else [last]
  }

  /** The same for each group; a group with nobody left takes no part. */
  function UnbarredLists(r: Repo, tenant: nat, groups: seq<Group>): seq<seq<string>> {
    if groups == [] then []
    else
      var last := Unbarred(r, tenant, groups[|groups| - 1].rcpts);
      UnbarredLists(r, tenant, groups[..|groups| - 1]) + if last == [] then [] else [last]
  }

  /** The recipient lists of the offers of a stretch, in order. */
  function OfferLists(v: seq<Event>): seq<seq<string>> {
    if v == [] then []
    else OfferLists(v[..|v| - 1]) + if v[|v| - 1].Offered? then [v[|v| - 1].rcpts] else []
  }

  lemma {:induction false} OfferListsConcat(a: seq<Event>, b: seq<Event>)
    ensures OfferLists(a + b) == OfferLists(a) + OfferLists(b)
  {
    if b == [] {
      assert a + b == a;
    } else {
      OfferListsConcat(a, b[..|b| - 1]);
      assert (a + b)[..|a + b| - 1] == a + b[..|b| - 1];
    }
  }

  lemma {:induction false} NoOfferLists(v: seq<Event>)
    requires forall j :: 0 <= j < |v| ==> !v[j].Offered?
    ensures OfferLists(v) == []
  {
    if v != [] {
      NoOfferLists(v[..|v| - 1]);
    }
  }

  lemma OneOfferList(of: Event)
    requires of.Offered?
    ensures OfferLists([of]) == [of.rcpts]
  {
    assert [of][..0] == [];
    assert OfferLists([]) == [];
  }

  /** The checks answer for these recipients: none of them fails, or nobody is suppressed. */
  ghost predicate ChecksTell(w: World, r: Repo, tenant: nat, xs: seq<string>) {
    ChecksSucceed(w) || forall x :: x in xs ==> (tenant, x) !in r.suppressed
  }

  lemma {:induction false} ChecksFilter(w: World, e: Envelope, r: Repo, xs: seq<string>)
    requires ChecksTell(w, r, e.tenant, xs) && Alive(CheckAll(r, w, e, xs).repo, w)
    ensures CheckAll(r, w, e, xs).active == Unbarred(r, e.tenant, xs)
  {
    if xs != [] {
      var init, last := xs[..|xs| - 1], xs[|xs| - 1];
      var s := CheckAll(r, w, e, init);
      Sifting(w, e, r, init);
      assert Alive(s.repo, w);
      ChecksFilter(w, e, r, init);
    }
  }

  lemma {:induction false} UnbarredSame(r: Repo, r1: Repo, tenant: nat, xs: seq<string>)
    requires forall x :: x in xs ==> ((tenant, x) in r.suppressed <==> (tenant, x) in r1.suppressed)
    ensures Unbarred(r, tenant, xs) == Unbarred(r1, tenant, xs)
  {
    if xs != [] {
      UnbarredSame(r, r1, tenant, xs[..|xs| - 1]);
    }
  }

  /** One group is one offer, of those still open, or none. */
  lemma GroupOffers(w: World, e: Envelope, p: Pass, g: Group)
    requires OneDomain(g) && ChecksTell(w, p.repo, e.tenant, g.rcpts) && Alive(DeliverGroup(p, w, e, g).repo, w)
    ensures Grows(p.repo, DeliverGroup(p, w, e, g).repo)
    ensures var left := Unbarred(p.repo, e.tenant, g.rcpts);
            OfferLists(Tail(p.repo, DeliverGroup(p, w, e, g).repo)) == if left == [] then [] else [left]
  {
    GroupEffect(w, e, p, g);
    var r, r' := p.repo, DeliverGroup(p, w, e, g).repo;
    assert Alive(r, w);
    var s := CheckAll(r, w, e, g.rcpts);
    Sifting(w, e, r, g.rcpts);
    assert Alive(s.repo, w);
    ChecksFilter(w, e, r, g.rcpts);
    NoOfferLists(Tail(r, s.repo));
    if s.active == [] {
      assert r' == s.repo;
    } else {
      OneOffer(w, e, r, s.repo, s.active, r');
    }
  }

  lemma OneOffer(w: World, e: Envelope, r: Repo, r1: Repo, active: seq<string>, r': Repo)
    requires Grows(r, r1) && OfferLists(Tail(r, r1)) == []
    requires r' == RecordAll(Offer(r1, e, active), w, e, active, w.answer(r1.tick))
    ensures Grows(r, r') && OfferLists(Tail(r, r')) == [active]
  {
    var r2 := Offer(r1, e, active);
    var of := Offered(e.tenant, active, r1.tick);
    RecordAllCopies(w, e, r2, active, w.answer(r1.tick));
    NoOfferLists(Tail(r2, r'));
    OneOfferList(of);
    assert Tail(r, r') == Tail(r, r1) + [of] + Tail(r2, r');
    OfferListsConcat(Tail(r, r1) + [of], Tail(r2, r'));
    OfferListsConcat(Tail(r, r1), [of]);
  }

  lemma {:induction false} GroupsOffer(w: World, e: Envelope, r: Repo, groups: seq<Group>)
    requires NonEmptyGroups(groups) && OneDomainEach(groups)
    requires forall i, j :: 0 <= i < j < |groups| ==> groups[i].domain != groups[j].domain
    requires forall i :: 0 <= i < |groups| ==> ChecksTell(w, r, e.tenant, groups[i].rcpts)
    requires Alive(DeliverGroups(r, w, e, groups).repo, w)
    ensures Grows(r, DeliverGroups(r, w, e, groups).repo)
    ensures OfferLists(Tail(r, DeliverGroups(r, w, e, groups).repo)) == UnbarredLists(r, e.tenant, groups)
  {
    if groups == [] {
      assert Tail(r, r) == [];
    } else {
      var init, last := groups[..|groups| - 1], groups[|groups| - 1];
      var p := DeliverGroups(r, w, e, init);
      GroupEffect(w, e, p, last);
      assert Alive(p.repo, w);
      GroupsOffer(w, e, r, init);
      GroupsBarWithin(w, e, r, init);
      NextGroupOffers(w, e, r, p, init, last);
    }
  }

  lemma NextGroupOffers(w: World, e: Envelope, r: Repo, p: Pass, init: seq<Group>, g: Group)
    requires Grows(r, p.repo) && OneDomain(g) && !HasDomain(init, g.domain) && BarsWithin(e, r, p.repo, init)
    requires ChecksTell(w, r, e.tenant, g.rcpts) && Alive(DeliverGroup(p, w, e, g).repo, w)
    ensures var r', left := DeliverGroup(p, w, e, g).repo, Unbarred(r, e.tenant, g.rcpts);
            && Grows(r, r')
            && OfferLists(Tail(r, r')) == OfferLists(Tail(r, p.repo)) + if left == [] then [] else [left]
  {
    LastUntouched(w, e, r, p.repo, init, g);
    GroupOffers(w, e, p, g);
    TailsJoin(r, p.repo, DeliverGroup(p, w, e, g).repo);
  }

  lemma TailsJoin(r: Repo, r1: Repo, r2: Repo)
    requires Grows(r, r1) && Grows(r1, r2)
    ensures Grows(r, r2) && OfferLists(Tail(r, r2)) == OfferLists(Tail(r, r1)) + OfferLists(Tail(r1, r2))
  {
    assert Tail(r, r2) == Tail(r, r1) + Tail(r1, r2);
    OfferListsConcat(Tail(r, r1), Tail(r1, r2));
  }

  /** The groups before it leave the suppression of a group as it was. */
  lemma LastUntouched(w: World, e: Envelope, r: Repo, r1: Repo, init: seq<Group>, g: Group)
    requires Grows(r, r1) && OneDomain(g) && !HasDomain(init, g.domain) && BarsWithin(e, r, r1, init)
    requires ChecksTell(w, r, e.tenant, g.rcpts)
    ensures ChecksTell(w, r1, e.tenant, g.rcpts) && Unbarred(r, e.tenant, g.rcpts) == Unbarred(r1, e.tenant, g.rcpts)
  {
    forall x | x in g.rcpts
      ensures (e.tenant, x) in r.suppressed <==> (e.tenant, x) in r1.suppressed
    {
      assert DomainOf(x) == g.domain;
    }
    UnbarredSame(r, r1, e.tenant, g.rcpts);
  }

  /**
    A pass that ends in time makes one offer for each group that still has somebody, in the order of the groups, to
    exactly those of its recipients that were not suppressed before the pass, in their order, provided that no
    suppression check fails or nobody addressed is suppressed.
  */
  lemma OffersExactly(w: World, m: Message, r: Repo, groups: seq<Group>)
    requires IsGrouping(groups, m.rcpts) && Attempted(m, w) && Alive(Deliver(r, w, m, groups).repo, w)
    requires ChecksTell(w, r, m.tenant.value, m.rcpts)
    ensures var r' := Deliver(r, w, m, groups).repo;
            r.log <= r'.log && OfferLists(r'.log[|r.log|..]) == UnbarredLists(r, m.tenant.value, groups)
  {
    GroupingDomains(groups, m.rcpts);
    forall i | 0 <= i < |groups|
      ensures ChecksTell(w, r, m.tenant.value, groups[i].rcpts)
    {
      InDomainMembers(m.rcpts, groups[i].domain);
    }
    GroupsOffer(w, EnvelopeOf(m), r, groups);
    var p, p' := DeliverGroups(r, w, EnvelopeOf(m), groups).repo, Deliver(r, w, m, groups).repo;
    assert Tail(r, p) == p'.log[|r.log|..];
  }
}
