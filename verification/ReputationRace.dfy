/**
  Concurrent infractions: `record_infraction` in crates/sentio-abuse/src/ip_reputation.rs reads the score and writes
  the sum back in separate calls. All happens within one second, so nothing decays.
*/
module ReputationRace {
  /** The stored score, and what each task under way has read. */
  datatype Race = Race(score: real, seen: map<nat, real>)

  datatype Action = Fetch(t: nat) | Put(t: nat, points: real)

  predicate Enabled(s: Race, a: Action) {
    match a
    case Fetch(t) => t !in s.seen
    case Put(t, points) => t in s.seen && points >= 0.0
  }

  function Apply(s: Race, a: Action): Race
    requires Enabled(s, a)
  {
    match a
    case Fetch(t) => s.(seen := s.seen[t := s.score])
    case Put(t, points) => Race(s.seen[t] + points, s.seen - {t})
  }

  ghost predicate IsRun(states: seq<Race>, actions: seq<Action>) {
    && |states| == |actions| + 1 && states[0].seen == map[]
    && forall i :: 0 <= i < |actions| ==>
         Enabled(states[i], actions[i]) && states[i + 1] == Apply(states[i], actions[i])
  }

  /** All points recorded. */
  function Total(actions: seq<Action>): real {
    if actions == [] then 0.0
    else
      var last := actions[|actions| - 1];
      Total(actions[..|actions| - 1]) + if last.Put? then last.points else 0.0
  }

  /** The points recorded last. */
  function Last(actions: seq<Action>): real {
    if actions == [] then 0.0
    else if actions[|actions| - 1].Put? then actions[|actions| - 1].points
    else Last(actions[..|actions| - 1])
  }

  ghost predicate Between(lo: real, s: Race, hi: real) {
    lo <= s.score <= hi && forall t :: t in s.seen ==> lo <= s.seen[t] <= hi
  }

  lemma {:induction false} RunBetween(states: seq<Race>, actions: seq<Action>)
    requires IsRun(states, actions)
    ensures Between(states[0].score, states[|actions|], states[0].score + Total(actions))
    ensures states[|actions|].score >= states[0].score + Last(actions)
    decreases |actions|
  {
    if actions != [] {
      var n := |actions| - 1;
      RunBetween(states[..n + 1], actions[..n]);
    }
  }

  /** However calls interleave, the score grows by at least the points recorded last and at most by all of them. */
  lemma PointsLostBound(states: seq<Race>, actions: seq<Action>)
    requires IsRun(states, actions)
    ensures states[0].score + Last(actions) <= states[|actions|].score <= states[0].score + Total(actions)
  {
    RunBetween(states, actions);
  }

  /** The write of action `i` finds the score its task has read. */
  ghost predicate FindsWhatItRead(s: Race, a: Action)
    requires Enabled(s, a)
  {
    a.Put? ==> s.seen[a.t] == s.score
  }

  ghost predicate AllFind(states: seq<Race>, actions: seq<Action>)
    requires IsRun(states, actions)
  {
    forall i :: 0 <= i < |actions| ==> FindsWhatItRead(states[i], actions[i])
  }

  /** A task that has read all points so far has read the score as it is. */
  ghost predicate FullMeansCurrent(s: Race, full: real) {
    forall t :: t in s.seen && s.seen[t] == full ==> s.score == full
  }

  ghost predicate Positive(actions: seq<Action>) {
    forall i :: 0 <= i < |actions| && actions[i].Put? ==> actions[i].points > 0.0
  }

  lemma AllFindLast(states: seq<Race>, actions: seq<Action>)
    requires IsRun(states, actions) && actions != []
    ensures var n := |actions| - 1;
            && IsRun(states[..n + 1], actions[..n])
            && (AllFind(states, actions)
                <==> AllFind(states[..n + 1], actions[..n]) && FindsWhatItRead(states[n], actions[n]))
  {
    var n := |actions| - 1;
    var ss, aa := states[..n + 1], actions[..n];
    forall i | 0 <= i < n
      ensures ss[i] == states[i] && aa[i] == actions[i]
    {
    }
    if AllFind(ss, aa) && FindsWhatItRead(states[n], actions[n]) {
      forall i | 0 <= i < |actions|
        ensures FindsWhatItRead(states[i], actions[i])
      {
        if i < n {
          assert FindsWhatItRead(ss[i], aa[i]);
        }
      }
    }
    if AllFind(states, actions) {
      forall i | 0 <= i < |aa|
        ensures FindsWhatItRead(ss[i], aa[i])
      {
        assert FindsWhatItRead(states[i], actions[i]);
      }
    }
  }

  /** With positive points nothing is lost if and only if every write finds the score its task has read. */
  lemma {:induction false} LosesNothingExactly(states: seq<Race>, actions: seq<Action>)
    requires IsRun(states, actions) && Positive(actions)
    ensures states[|actions|].score == states[0].score + Total(actions) <==> AllFind(states, actions)
    ensures FullMeansCurrent(states[|actions|], states[0].score + Total(actions))
    decreases |actions|
  {
    if actions != [] {
      var n := |actions| - 1;
      AllFindLast(states, actions);
      LosesNothingExactly(states[..n + 1], actions[..n]);
      RunBetween(states[..n + 1], actions[..n]);
    }
  }

  /** Each task writes right after it has read. */
  ghost predicate Sequential(actions: seq<Action>) {
    && |actions| % 2 == 0
    && forall i :: 0 <= i < |actions| / 2 ==>
         actions[2 * i].Fetch? && actions[2 * i + 1].Put? && actions[2 * i].t == actions[2 * i + 1].t
  }

  /** One call at a time loses nothing. */
  lemma {:induction false} SequentialLosesNothing(states: seq<Race>, actions: seq<Action>)
    requires IsRun(states, actions) && Sequential(actions)
    ensures states[|actions|].score == states[0].score + Total(actions)
    decreases |actions|
  {
    if actions != [] {
      var n := |actions| - 2;
      var init := actions[..n];
      assert Sequential(init) by {
        forall i | 0 <= i < |init| / 2
          ensures init[2 * i].Fetch? && init[2 * i + 1].Put? && init[2 * i].t == init[2 * i + 1].t
        {
          assert init[2 * i] == actions[2 * i] && init[2 * i + 1] == actions[2 * i + 1];
        }
      }
      SequentialLosesNothing(states[..n + 1], init);
      var i := n / 2;
      assert actions[2 * i].Fetch? && actions[2 * i + 1].Put? && actions[2 * i].t == actions[2 * i + 1].t;
      assert actions[..n + 1][..n] == init && actions[..|actions| - 1] == actions[..n + 1];
      assert Total(actions[..n + 1]) == Total(init);
    }
  }

  /** The lower bound is met by any number of tasks: all read first, then all write, and only the last one counts. */
  lemma AllButLastLost(k: nat, start: real, points: real) returns (states: seq<Race>, actions: seq<Action>)
    requires k >= 1 && points >= 0.0
    ensures IsRun(states, actions) && states[0] == Race(start, map[])
    ensures states[|actions|].score == start + points && Last(actions) == points
    ensures Puts(actions) == k
  {
    states, actions := AllRead(k, start);
    states, actions := AllWrite(k, start, points, states, actions, k);
  }

  function Puts(actions: seq<Action>): nat {
    if actions == [] then 0 else Puts(actions[..|actions| - 1]) + if actions[|actions| - 1].Put? then 1 else 0
  }

  lemma ExtendRun(states: seq<Race>, actions: seq<Action>, a: Action)
    requires IsRun(states, actions) && Enabled(states[|actions|], a)
    ensures IsRun(states + [Apply(states[|actions|], a)], actions + [a])
  {
    var all, more := states + [Apply(states[|actions|], a)], actions + [a];
    forall i | 0 <= i < |more|
      ensures Enabled(all[i], more[i]) && all[i + 1] == Apply(all[i], more[i])
    {
      assert all[i] == states[i];
      if i < |actions| {
        assert more[i] == actions[i] && all[i + 1] == states[i + 1];
      }
    }
  }

  lemma CountOneMore(actions: seq<Action>, a: Action)
    ensures Puts(actions + [a]) == Puts(actions) + if a.Put? then 1 else 0
    ensures Last(actions + [a]) == if a.Put? then a.points else Last(actions)
  {
    assert (actions + [a])[..|actions|] == actions;
  }

  /** Tasks 0 to n - 1 have read the first score and not yet written. */
  ghost predicate Pending(s: Race, n: nat, start: real) {
    (forall t: nat :: t in s.seen <==> t < n) && forall t :: t in s.seen ==> s.seen[t] == start
  }

  lemma {:induction false} AllRead(k: nat, start: real) returns (states: seq<Race>, actions: seq<Action>)
    ensures IsRun(states, actions) && states[0] == Race(start, map[]) && Puts(actions) == 0
    ensures states[|actions|].score == start && Pending(states[|actions|], k, start)
  {
    if k == 0 {
      states, actions := [Race(start, map[])], [];
    } else {
      states, actions := AllRead(k - 1, start);
      ExtendRun(states, actions, Fetch(k - 1));
      CountOneMore(actions, Fetch(k - 1));
      states, actions := states + [Apply(states[|actions|], Fetch(k - 1))], actions + [Fetch(k - 1)];
    }
  }

  lemma {:induction false} AllWrite(k: nat, start: real, points: real, states: seq<Race>, actions: seq<Action>, n: nat)
    returns (states': seq<Race>, actions': seq<Action>)
    requires n >= 1 && points >= 0.0 && IsRun(states, actions) && states[0] == Race(start, map[])
    requires Pending(states[|actions|], n, start) && Puts(actions) + n == k
    ensures IsRun(states', actions') && states'[0] == Race(start, map[])
    ensures states'[|actions'|].score == start + points && Last(actions') == points && Puts(actions') == k
    decreases n
  {
    var a := Put(n - 1, points);
    ExtendRun(states, actions, a);
    CountOneMore(actions, a);
    states', actions' := states + [Apply(states[|actions|], a)], actions + [a];
    if n > 1 {
      states', actions' := AllWrite(k, start, points, states', actions', n - 1);
    }
  }
}
