/**
  How old a pooled connection can be. The pool only knows when a connection was last returned; `birth` says when
  each stream was really opened.
*/
module PoolAge {
  import opened Basics
  import opened Pool

  function Oldest(c: Config): nat {
    Min(c.idleTimeout, c.maxAge)
  }

  /** A connection returned at `returned`, as `checkin` records it. */
  function Returned(stream: nat, returned: nat): IdleConn {
    IdleConn(stream, returned, returned)
  }

  /**
    Every checkout that can return a connection opened at `birth` and returned at `returned` finds it younger than
    the maximum age if and only if its age when returned leaves room for the longest idle time the pool allows.
  */
  lemma AgeBoundedExactly(c: Config, stream: nat, birth: nat, returned: nat)
    requires birth <= returned && Oldest(c) > 0
    ensures (forall now :: now >= returned && Usable(c, Returned(stream, returned), now) ==> Age(now, birth) < c.maxAge)
            <==> Age(returned, birth) + Oldest(c) <= c.maxAge
  {
    var last := returned + Oldest(c) - 1;
    assert Usable(c, Returned(stream, returned), last);
    if Age(returned, birth) + Oldest(c) <= c.maxAge {
      forall now | now >= returned && Usable(c, Returned(stream, returned), now)
        ensures Age(now, birth) < c.maxAge
      {
        assert now <= last;
      }
    }
  }

  // ----- over runs

  /** The connection was returned early enough in its life. */
  ghost predicate Prompt(c: Config, birth: nat -> nat, x: IdleConn) {
    && x.createdAt == x.lastUsed && birth(x.stream) <= x.createdAt
    && Age(x.createdAt, birth(x.stream)) + Oldest(c) <= c.maxAge
  }

  ghost predicate AllPrompt(c: Config, birth: nat -> nat, m: map<string, DomainPool>) {
    forall d, x :: d in m && x in m[d].idle ==> Prompt(c, birth, x)
  }

  lemma {:induction false} LeftIdlePart(c: Config, idle: seq<IdleConn>, now: nat)
    ensures forall x :: x in LeftIdle(c, idle, now) ==> x in idle
  {
    if idle != [] {
      LeftIdlePart(c, idle[..|idle| - 1], now);
    }
  }

  lemma {:induction false} UsableOnesPart(c: Config, idle: seq<IdleConn>, now: nat)
    ensures forall x :: x in UsableOnes(c, idle, now) ==> x in idle
  {
    if idle != [] {
      UsableOnesPart(c, idle[..|idle| - 1], now);
    }
  }

  lemma PromptKept(c: Config, birth: nat -> nat, s: Sys, a: Action)
    requires AllPrompt(c, birth, s.core.domains) && Enabled(s, a)
    requires a.CheckIn? ==> Prompt(c, birth, a.conn)
    ensures AllPrompt(c, birth, Apply(c, s, a).core.domains)
  {
    var m, m' := s.core.domains, Apply(c, s, a).core.domains;
    forall d, x | d in m' && x in m'[d].idle
      ensures Prompt(c, birth, x)
    {
      match a {
        case CheckOut(_, now) =>
          if d in m { LeftIdlePart(c, m[d].idle, now); }
        case CleanUp(now) =>
          if d in m { UsableOnesPart(c, m[d].idle, now); }
        case _ =>
      }
    }
  }

  lemma {:induction false} RunPrompt(c: Config, birth: nat -> nat, states: seq<Sys>, actions: seq<Action>)
    requires IsRun(c, states, actions) && states[0] == Start(c)
    requires forall i :: 0 <= i < |actions| && actions[i].CheckIn? ==> Prompt(c, birth, actions[i].conn)
    ensures AllPrompt(c, birth, states[|actions|].core.domains)
    decreases |actions|
  {
    if actions != [] {
      var n := |actions| - 1;
      RunPrompt(c, birth, states[..n + 1], actions[..n]);
      PromptKept(c, birth, states[n], actions[n]);
    }
  }

  /** In every run whose connections are returned that early, every checkout returns one younger than the maximum. */
  lemma RunAgeBounded(c: Config, birth: nat -> nat, states: seq<Sys>, actions: seq<Action>, d: string, now: nat)
    requires IsRun(c, states, actions) && states[0] == Start(c) && d in states[|actions|].core.domains
    requires forall i :: 0 <= i < |actions| && actions[i].CheckIn? ==> Prompt(c, birth, actions[i].conn)
    ensures var r := Taken(c, states[|actions|].core.domains[d].idle, now);
            r.Some? && r.value.lastUsed <= now ==> Age(now, birth(r.value.stream)) < c.maxAge
  {
    RunPrompt(c, birth, states, actions);
    var r := Taken(c, states[|actions|].core.domains[d].idle, now);
    if r.Some? && r.value.lastUsed <= now {
      PromptAge(c, birth, r.value, now);
    }
  }

  lemma PromptAge(c: Config, birth: nat -> nat, x: IdleConn, now: nat)
    requires Prompt(c, birth, x) && Usable(c, x, now) && x.lastUsed <= now
    ensures Age(now, birth(x.stream)) < c.maxAge
  {
  }

  // ----- any age

  /** A run after which a checkout returns a stream of any chosen age: opened at 0, in use until `age`, returned. */
  lemma AnyAge(c: Config, d: string, stream: nat, age: nat) returns (states: seq<Sys>, actions: seq<Action>)
    requires Oldest(c) > 0
    ensures IsRun(c, states, actions) && states[0] == Start(c)
    ensures HandsOut(c, states[|actions|].core, d, age, stream)
  {
    actions := [CheckIn(d, Returned(stream, age))];
    states := [Start(c), Apply(c, Start(c), actions[0])];
    var idle := states[1].core.domains[d].idle;
    assert idle == [Returned(stream, age)];
  }

  /** When round `n` starts. */
  function Time(gap: nat, n: nat): (t: nat)
    ensures gap >= 1 ==> t >= n
  {
    if n == 0 then 0 else Time(gap, n - 1) + gap
  }

  /** One connection is returned at `at` and checked out again `gap` seconds later. */
  function Round(c: Config, p: Core, d: string, stream: nat, at: nat, gap: nat): Core {
    CheckedOut(c, CheckedIn(c, p, d, Returned(stream, at)), d, at + gap)
  }

  function Rounds(c: Config, d: string, stream: nat, gap: nat, n: nat): Core {
    if n == 0 then Start(c).core else Round(c, Rounds(c, d, stream, gap, n - 1), d, stream, Time(gap, n - 1), gap)
  }

  ghost predicate NothingIdle(p: Core, d: string) {
    d in p.domains ==> p.domains[d].idle == []
  }

  lemma RoundReturnsIt(c: Config, p: Core, d: string, stream: nat, at: nat, gap: nat)
    requires gap < Oldest(c) && NothingIdle(p, d)
    ensures HandsOut(c, CheckedIn(c, p, d, Returned(stream, at)), d, at + gap, stream)
    ensures NothingIdle(Round(c, p, d, stream, at, gap), d)
  {
  }

  /** A checkout at `now` returns the stream. */
  predicate HandsOut(c: Config, p: Core, d: string, now: nat, stream: nat) {
    d in p.domains && Taken(c, p.domains[d].idle, now).Some? && Taken(c, p.domains[d].idle, now).value.stream == stream
  }

  lemma {:induction false} RoundsLeaveNothing(c: Config, d: string, stream: nat, gap: nat, n: nat)
    requires gap < Oldest(c)
    ensures NothingIdle(Rounds(c, d, stream, gap, n), d)
  {
    if n > 0 {
      var p, at := Rounds(c, d, stream, gap, n - 1), Time(gap, n - 1);
      RoundsLeaveNothing(c, d, stream, gap, n - 1);
      RoundReturnsIt(c, p, d, stream, at, gap);
      assert Rounds(c, d, stream, gap, n) == Round(c, p, d, stream, at, gap);
    }
  }

  /**
    Any age: a connection opened at time 0 and returned and taken again every `gap` seconds, within both timeouts, is
    still handed out in round n, for every n; with a gap of at least a second it is then more than n seconds old.
  */
  lemma AgeUnbounded(c: Config, d: string, stream: nat, gap: nat, n: nat)
    requires gap < Oldest(c)
    ensures var p := Rounds(c, d, stream, gap, n);
            HandsOut(c, CheckedIn(c, p, d, Returned(stream, Time(gap, n))), d, Time(gap, n + 1), stream)
    ensures gap >= 1 ==> Age(Time(gap, n + 1), 0) > n
  {
    TimeNext(gap, n);
    RoundsLeaveNothing(c, d, stream, gap, n);
    HandsBack(c, Rounds(c, d, stream, gap, n), d, stream, Time(gap, n), Time(gap, n + 1));
  }

  lemma HandsBack(c: Config, p: Core, d: string, stream: nat, at: nat, later: nat)
    requires at <= later && later - at < Oldest(c)
    ensures HandsOut(c, CheckedIn(c, p, d, Returned(stream, at)), d, later, stream)
  {
    var idle := CheckedIn(c, p, d, Returned(stream, at)).domains[d].idle;
    assert idle[|idle| - 1] == Returned(stream, at);
  }

  lemma TimeNext(gap: nat, n: nat)
    ensures Time(gap, n + 1) == Time(gap, n) + gap
    ensures gap >= 1 ==> Age(Time(gap, n + 1), 0) > n
  {
  }
}
