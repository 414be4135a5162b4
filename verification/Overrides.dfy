/**
  Per-domain retry settings: recipients are grouped by lower-cased domain, but the settings are looked up under the
  domain as the first recipient of the group spells it.
*/
module Overrides {
  import opened Basics
  import opened Delivery
  import Retry

  /** The recipient gets the settings of the domain it is grouped under. */
  predicate Honoured(c: Retry.Config, rcpt: string) {
    PolicyFor(c, rcpt) == Retry.FromConfigForDomain(c, DomainOf(rcpt))
  }

  predicate HasUpper(s: string) {
    exists i :: 0 <= i < |s| && 'A' <= s[i] <= 'Z'
  }

  /** Lower-casing changes a text exactly when it holds a capital letter. */
  lemma LowerFixed(s: string)
    ensures Lower(s) == s <==> !HasUpper(s)
  {
    if HasUpper(s) {
      var i :| 0 <= i < |s| && 'A' <= s[i] <= 'Z';
      assert Lower(s)[i] != s[i];
    }
  }

  /** The domain is spelled as it is grouped. */
  predicate SpelledAsGrouped(rcpt: string) {
    if '@' in rcpt then !HasUpper(AfterLastAt(rcpt)) else rcpt == "unknown"
  }

  lemma SpellingMeans(rcpt: string)
    ensures AfterLastAt(rcpt) == DomainOf(rcpt) <==> SpelledAsGrouped(rcpt)
  {
    AfterLastAtIsSuffix(rcpt);
    LowerFixed(AfterLastAt(rcpt));
  }

  /**
    Every configuration treats the recipient by the domain it is grouped under if and only if that domain is written
    without capital letters or, when there is no at sign, the address is the word the grouping uses instead.
  */
  lemma HonouredExactly(rcpt: string)
    ensures (forall c :: Honoured(c, rcpt)) <==> SpelledAsGrouped(rcpt)
  {
    SpellingMeans(rcpt);
    if AfterLastAt(rcpt) != DomainOf(rcpt) {
      var c := Retry.Config(0, 0, 0, 0, map[DomainOf(rcpt) := Retry.Override(None, None, Some(1))]);
      assert PolicyFor(c, rcpt).maxRetries == 0;
      assert Retry.FromConfigForDomain(c, DomainOf(rcpt)).maxRetries == 1;
      assert !Honoured(c, rcpt);
    }
  }

  /** The override leaves the general settings as they are. */
  predicate Neutral(c: Retry.Config, o: Retry.Override) {
    && (o.baseSecs.Some? ==> Retry.WrappingMul(o.baseSecs.value, 1000) == Retry.WrappingMul(c.baseSecs, 1000))
    && (o.maxSecs.Some? ==> Retry.WrappingMul(o.maxSecs.value, 1000) == Retry.WrappingMul(c.maxSecs, 1000))
    && (o.maxRetries.Some? ==> o.maxRetries.value == c.maxRetries)
  }

  /**
    For one configuration: a spelling without an entry of its own gets the general settings, which is right if and
    only if the domain has no override or one that changes nothing.
  */
  lemma MissedOverride(c: Retry.Config, rcpt: string)
    requires AfterLastAt(rcpt) !in c.overrides
    ensures PolicyFor(c, rcpt) == Retry.FromConfig(c)
    ensures Honoured(c, rcpt) <==> DomainOf(rcpt) !in c.overrides || Neutral(c, c.overrides[DomainOf(rcpt)])
  {
  }

  // ----- the first recipient speaks for its group

  lemma {:induction false} DroppedOutcomes(w: World, e: Envelope, r: Repo, rcpts: seq<string>)
    ensures AllSuppressed(CheckAll(r, w, e, rcpts).outcomes)
  {
    if rcpts != [] {
      DroppedOutcomes(w, e, r, rcpts[..|rcpts| - 1]);
    }
  }

  /** A deferred outcome of a pass stands for a group and carries the address of its first recipient. */
  ghost predicate NamesFirst(groups: seq<Group>, o: (string, Outcome)) {
    exists i :: 0 <= i < |groups| && groups[i].rcpts != [] && o.0 == groups[i].rcpts[0]
  }

  ghost predicate DeferredNameFirst(groups: seq<Group>, outcomes: seq<(string, Outcome)>) {
    forall k :: 0 <= k < |outcomes| && outcomes[k].1.Deferred? ==> NamesFirst(groups, outcomes[k])
  }

  lemma NamesFirstSnoc(groups: seq<Group>, g: Group, o: (string, Outcome))
    requires NamesFirst(groups, o) || (g.rcpts != [] && o.0 == g.rcpts[0])
    ensures NamesFirst(groups + [g], o)
  {
    var all := groups + [g];
    if NamesFirst(groups, o) {
      var i :| 0 <= i < |groups| && groups[i].rcpts != [] && o.0 == groups[i].rcpts[0];
      assert all[i].rcpts != [] && o.0 == all[i].rcpts[0];
    } else {
      assert all[|groups|].rcpts != [] && o.0 == all[|groups|].rcpts[0];
    }
  }

  lemma GroupNamesFirst(w: World, e: Envelope, groups: seq<Group>, p: Pass, g: Group)
    requires g.rcpts != [] && DeferredNameFirst(groups, p.outcomes)
    ensures DeferredNameFirst(groups + [g], DeliverGroup(p, w, e, g).outcomes)
  {
    var out := DeliverGroup(p, w, e, g).outcomes;
    DroppedOutcomes(w, e, p.repo, g.rcpts);
    forall k | 0 <= k < |out| && out[k].1.Deferred?
      ensures NamesFirst(groups + [g], out[k])
    {
      if k < |p.outcomes| {
        assert out[k] == p.outcomes[k];
      }
      NamesFirstSnoc(groups, g, out[k]);
    }
  }

  lemma {:induction false} GroupsNameFirst(w: World, e: Envelope, r: Repo, groups: seq<Group>)
    requires NonEmptyGroups(groups)
    ensures DeferredNameFirst(groups, DeliverGroups(r, w, e, groups).outcomes)
  {
    if groups != [] {
      var init, last := groups[..|groups| - 1], groups[|groups| - 1];
      GroupsNameFirst(w, e, r, init);
      GroupNamesFirst(w, e, init, DeliverGroups(r, w, e, init), last);
      assert groups == init + [last];
    }
  }

  /**
    Whatever a pass past its early returns defers, the retry decision and delay come from the spelling of the first
    recipient of each group, in the order of the envelope.
  */
  lemma FirstSpellingDecides(w: World, m: Message, r: Repo, groups: seq<Group>, k: nat) returns (g: Group)
    requires IsGrouping(groups, m.rcpts) && Attempted(m, w)
    requires k < |Deliver(r, w, m, groups).outcomes| && Deliver(r, w, m, groups).outcomes[k].1.Deferred?
    ensures g in groups && g.rcpts == InDomain(m.rcpts, g.domain) && g.rcpts != []
    ensures forall c :: PolicyFor(c, Deliver(r, w, m, groups).outcomes[k].0) == PolicyFor(c, g.rcpts[0])
  {
    var out := DeliverGroups(r, w, EnvelopeOf(m), groups).outcomes;
    GroupsNameFirst(w, EnvelopeOf(m), r, groups);
    assert NamesFirst(groups, out[k]);
    var i :| 0 <= i < |groups| && groups[i].rcpts != [] && out[k].0 == groups[i].rcpts[0];
    g := groups[i];
  }

  /** Two recipients of one group, only one spelled as grouped: the order of the envelope decides the settings. */
  lemma OrderMatters(c: Retry.Config, o: Retry.Override, a: string, b: string, d: string)
    requires DomainOf(a) == d == DomainOf(b) && !SpelledAsGrouped(a) && SpelledAsGrouped(b)
    requires c.overrides == map[d := o] && !Neutral(c, o)
    ensures InDomain([a, b], d) == [a, b] && InDomain([b, a], d) == [b, a]
    ensures PolicyFor(c, a) == Retry.FromConfig(c) && PolicyFor(c, b) != Retry.FromConfig(c)
  {
    SpellingMeans(a);
    SpellingMeans(b);
    MissedOverride(c, a);
    InDomainPair(a, b, d);
    InDomainPair(b, a, d);
  }

  /** There are such recipients. */
  lemma TwoSpellings()
    ensures DomainOf("a@X") == "x" == DomainOf("b@x") && !SpelledAsGrouped("a@X") && SpelledAsGrouped("b@x")
  {
    AfterAt("a", "X");
    AfterAt("b", "x");
    assert "a" + ['@'] + "X" == "a@X" && "b" + ['@'] + "x" == "b@x";
    assert Lower("X") == "x" && Lower("x") == "x";
    LowerFixed("X");
    LowerFixed("x");
  }

  lemma {:induction false} AfterAt(local: string, domain: string)
    requires '@' !in domain
    ensures AfterLastAt(local + ['@'] + domain) == domain && '@' in local + ['@'] + domain
  {
    var s := local + ['@'] + domain;
    assert s[|local|] == '@';
    if domain != [] {
      var init := domain[..|domain| - 1];
      AfterAt(local, init);
      assert s[..|s| - 1] == local + ['@'] + init;
    }
  }

  lemma InDomainPair(a: string, b: string, d: string)
    requires DomainOf(a) == d && DomainOf(b) == d
    ensures InDomain([a, b], d) == [a, b]
  {
    assert [a, b][..1] == [a] && [a][..0] == [];
    assert InDomain([], d) == [];
    assert InDomain([a], d) == [a];
  }
}
