/**
  Reuse of idle connections: what a check-in, a checkout and a clean-up do to the whole pool, and that connections come
  back newest first, whether or not clean-ups happen in between.
*/
module PoolReuse {
  import opened Basics
  import opened Pool

  function IdleOf(p: Core, d: string): seq<IdleConn> {
    if d in p.domains then p.domains[d].idle else []
  }

  /** Entries of other domains are as they were. */
  ghost predicate OthersKept(p: Core, p': Core, d: string) {
    forall e :: e != d ==> (e in p.domains <==> e in p'.domains) && (e in p.domains ==> p'.domains[e] == p.domains[e])
  }

  /**
    The connection was put at the end of the domain's idle list and nothing else changed, except that a domain without
    an entry got one, with a semaphore of its own that has all its permits.
  */
  ghost predicate Joined(c: Config, p: Core, p': Core, d: string, x: IdleConn) {
    && d in p'.domains && p'.domains[d].idle == IdleOf(p, d) + [x] && OthersKept(p, p', d)
    && p'.globalFree == p.globalFree
    && if d in p.domains then p'.domains[d].sem == p.domains[d].sem && p'.free == p.free && p'.owner == p.owner
       else p'.domains[d].sem == |p.free| && p'.free == p.free + [c.maxPerDest] && p'.owner == p.owner + [d]
  }

  lemma CheckInExactly(c: Config, p: Core, d: string, x: IdleConn)
    ensures Joined(c, p, CheckedIn(c, p, d, x), d, x)
  {
  }

  /** A checkout touches nothing but the domain's idle list, of which a beginning is left. */
  lemma CheckOutKeeps(c: Config, p: Core, d: string, now: nat)
    ensures var p' := CheckedOut(c, p, d, now);
            && p'.globalFree == p.globalFree && p'.free == p.free && p'.owner == p.owner
            && p'.domains.Keys == p.domains.Keys && OthersKept(p, p', d)
            && (d in p.domains ==> p'.domains[d].sem == p.domains[d].sem)
            && IdleOf(p', d) <= IdleOf(p, d)
  {
    if d in p.domains {
      LeftIsPrefix(c, p.domains[d].idle, now);
    }
  }

  lemma {:induction false} LeftIsPrefix(c: Config, idle: seq<IdleConn>, now: nat)
    ensures LeftIdle(c, idle, now) <= idle
  {
    if idle != [] {
      LeftIsPrefix(c, idle[..|idle| - 1], now);
    }
  }

  // ----- last in, first out

  /** All of these connections are returned, in this order. */
  function Stocked(c: Config, p: Core, d: string, xs: seq<IdleConn>): Core {
    if xs == [] then p else CheckedIn(c, Stocked(c, p, d, xs[..|xs| - 1]), d, xs[|xs| - 1])
  }

  /** The pool after `n` checkouts, the k-th of them at time `times(k)`. */
  function Drawn(c: Config, p: Core, d: string, times: nat -> nat, n: nat): Core {
    if n == 0 then p else CheckedOut(c, Drawn(c, p, d, times, n - 1), d, times(n - 1))
  }

  /** What the k-th of these checkouts returns. */
  function Handed(c: Config, p: Core, d: string, times: nat -> nat, k: nat): Option<IdleConn> {
    Taken(c, IdleOf(Drawn(c, p, d, times, k), d), times(k))
  }

  lemma {:induction false} StockedIdle(c: Config, p: Core, d: string, xs: seq<IdleConn>)
    ensures IdleOf(Stocked(c, p, d, xs), d) == IdleOf(p, d) + xs
    ensures xs != [] ==> d in Stocked(c, p, d, xs).domains
  {
    if xs != [] {
      var init := xs[..|xs| - 1];
      StockedIdle(c, p, d, init);
      CheckInExactly(c, Stocked(c, p, d, init), d, xs[|xs| - 1]);
      assert xs == init + [xs[|xs| - 1]];
    } else {
      assert IdleOf(p, d) + xs == IdleOf(p, d);
    }
  }

  lemma {:induction false} DrawnIdle(c: Config, p: Core, d: string, times: nat -> nat, before: seq<IdleConn>,
                                     xs: seq<IdleConn>, n: nat)
    requires n <= |xs| && IdleOf(p, d) == before + xs && d in p.domains
    requires forall j: nat, i :: j < |xs| && 0 <= i < |xs| ==> Usable(c, xs[i], times(j))
    ensures IdleOf(Drawn(c, p, d, times, n), d) == before + xs[..|xs| - n] && d in Drawn(c, p, d, times, n).domains
  {
    if n > 0 {
      DrawnIdle(c, p, d, times, before, xs, n - 1);
      var idle := before + xs[..|xs| - (n - 1)];
      assert idle[|idle| - 1] == xs[|xs| - n];
      assert idle[..|idle| - 1] == before + xs[..|xs| - n];
    } else {
      assert xs[..|xs|] == xs;
    }
  }

  /**
    Return any number of connections and check out as many while all are within their timeouts: each comes back, the
    newest first, and the idle list is what it was before.
  */
  lemma LastInFirstOut(c: Config, p: Core, d: string, xs: seq<IdleConn>, times: nat -> nat, k: nat)
    requires forall j: nat, i :: j < |xs| && 0 <= i < |xs| ==> Usable(c, xs[i], times(j))
    requires k < |xs|
    ensures var p1 := Stocked(c, p, d, xs);
            && Handed(c, p1, d, times, k) == Some(xs[|xs| - 1 - k])
            && IdleOf(Drawn(c, p1, d, times, |xs|), d) == IdleOf(p, d)
  {
    var p1 := Stocked(c, p, d, xs);
    StockedIdle(c, p, d, xs);
    DrawnIdle(c, p1, d, times, IdleOf(p, d), xs, k);
    DrawnIdle(c, p1, d, times, IdleOf(p, d), xs, |xs|);
    assert IdleOf(p, d) + xs[..0] == IdleOf(p, d);
    var idle := IdleOf(Drawn(c, p1, d, times, k), d);
    assert idle[|idle| - 1] == xs[|xs| - 1 - k];
  }

  // ----- clean-ups

  lemma UsableBefore(c: Config, x: IdleConn, now: nat, later: nat)
    requires now <= later && Usable(c, x, later)
    ensures Usable(c, x, now)
  {
  }

  lemma {:induction false} SweptTaken(c: Config, idle: seq<IdleConn>, now: nat, later: nat)
    requires now <= later
    ensures Taken(c, UsableOnes(c, idle, now), later) == Taken(c, idle, later)
    ensures UsableOnes(c, LeftIdle(c, idle, later), now) == LeftIdle(c, UsableOnes(c, idle, now), later)
  {
    if idle != [] {
      var init, last := idle[..|idle| - 1], idle[|idle| - 1];
      SweptTaken(c, init, now, later);
      if Usable(c, last, later) {
        UsableBefore(c, last, now, later);
      }
      var kept := UsableOnes(c, idle, now);
      if Usable(c, last, now) {
        assert kept[|kept| - 1] == last && kept[..|kept| - 1] == UsableOnes(c, init, now);
      } else {
        assert kept == UsableOnes(c, init, now);
      }
    }
  }

  /** The pool after a clean-up. */
  function Cleaned(c: Config, p: Core, now: nat): Core {
    p.(domains := Swept(c, p.domains, now))
  }

  lemma SweptIdle(c: Config, p: Core, d: string, now: nat)
    ensures IdleOf(Cleaned(c, p, now), d) == UsableOnes(c, IdleOf(p, d), now)
    ensures d in Cleaned(c, p, now).domains <==> UsableOnes(c, IdleOf(p, d), now) != []
    ensures d in Cleaned(c, p, now).domains ==> Cleaned(c, p, now).domains[d].sem == p.domains[d].sem
  {
  }

  /** A clean-up never changes what later checkouts return, however many there are. */
  lemma CleanUpInvisible(c: Config, p: Core, d: string, now: nat, times: nat -> nat, k: nat)
    requires forall j: nat :: now <= times(j)
    ensures Handed(c, Cleaned(c, p, now), d, times, k) == Handed(c, p, d, times, k)
  {
    CleanedDrawn(c, p, d, now, times, k);
    SweptTaken(c, IdleOf(Drawn(c, p, d, times, k), d), now, times(k));
  }

  lemma {:induction false} CleanedDrawn(c: Config, p: Core, d: string, now: nat, times: nat -> nat, n: nat)
    requires forall j: nat :: now <= times(j)
    ensures IdleOf(Drawn(c, Cleaned(c, p, now), d, times, n), d)
            == UsableOnes(c, IdleOf(Drawn(c, p, d, times, n), d), now)
  {
    if n == 0 {
      SweptIdle(c, p, d, now);
    } else {
      CleanedDrawn(c, p, d, now, times, n - 1);
      var idle := IdleOf(Drawn(c, p, d, times, n - 1), d);
      SweptTaken(c, idle, now, times(n - 1));
      CheckedOutIdle(c, Drawn(c, p, d, times, n - 1), d, times(n - 1));
      CheckedOutIdle(c, Drawn(c, Cleaned(c, p, now), d, times, n - 1), d, times(n - 1));
    }
  }

  lemma CheckedOutIdle(c: Config, p: Core, d: string, now: nat)
    ensures IdleOf(CheckedOut(c, p, d, now), d) == LeftIdle(c, IdleOf(p, d), now)
  {
  }
}
