/** The consumer's message loop: crates/sentio-queue/src/consumer.rs. */
module Consumer {
  import opened Delivery
  import opened Queue
  import Engine

  lemma ExtendRun(c: Setup, t: Trust, states: seq<Sys>, moves: seq<Move>, v: Move)
    requires IsRun(c, t, states, moves) && Legal(states[|moves|], v) && Admits(t, v.world)
    ensures IsRun(c, t, states + [Step(c, states[|moves|], v)], moves + [v])
  {
    var all, more := states + [Step(c, states[|moves|], v)], moves + [v];
    forall k | 0 <= k < |more|
      ensures Legal(all[k], more[k]) && Admits(t, more[k].world) && all[k + 1] == Step(c, all[k], more[k])
    {
      assert all[k] == states[k];
      if k < |moves| {
        assert more[k] == moves[k] && all[k + 1] == states[k + 1];
      }
    }
  }

  /** A turn, put together from the handler's effect and the acknowledgement. */
  lemma SettledIs(c: Setup, s: Sys, v: Move, h: Handled, news: seq<Message>, d: Disposition)
    requires v.index < |s.queue|
    requires news == NewMessages(s.repo, h.repo) && d == Decision(c, s.queue[v.index], v, h.result)
    ensures After(s.(repo := h.repo), v.index, h.repo, news, d, v.world.deadLetterOk) == Settled(c, s, v, h)
  {
  }

  /** At the start every submitted message waits, once. */
  lemma FreshAccounted(s: Sys, submitted: seq<Message>)
    requires s.queue == Spawned(submitted, 0) && s.acked == s.dead == s.lost == [] && s.nextSeq == |submitted|
    ensures Accounted(s)
  {
    forall n: nat
      ensures Everywhere(s, n) == if n < s.nextSeq then 1 else 0
    {
      TimesSpawned(submitted, 0, n);
      assert Times([], n) == 0;
    }
  }

  class Loop {
    const setup: Setup
    const engine: Engine.DeliveryEngine
    var queue: seq<Entry>
    var acked: seq<Entry>
    var dead: seq<Entry>
    var lost: seq<Entry>
    var naks: seq<Nak>
    var nextSeq: nat
    var handled: nat

    ghost predicate Valid() {
      engine.config == setup.engine
    }

    ghost function State(): Sys
      reads this, engine
    {
      Sys(engine.State(), queue, acked, dead, lost, naks, nextSeq, handled)
    }

    constructor (setup: Setup, submitted: seq<Message>)
      ensures Valid() && fresh(engine) && this.setup == setup
      ensures State() == Sys(Repo(0, {}, map[], [], []), Spawned(submitted, 0), [], [], [], [], |submitted|, 0)
      ensures Accounted(State())
    {
      this.setup := setup;
      this.engine := new Engine.DeliveryEngine(setup.engine);
      queue, acked, dead, lost, naks := Spawned(submitted, 0), [], [], [], [];
      nextSeq, handled := |submitted|, 0;
      new;
      FreshAccounted(State(), submitted);
    }

    /** Parse the body and call the handler. */
    method Invoke(i: nat, e: Entry, w: World) returns (result: HandlerResult, ghost v: Move)
      requires Valid()
      modifies engine
      ensures v.index == i && v.world == w
      ensures e.payload.Mail? ==> IsGrouping(v.groups, e.payload.m.rcpts)
      ensures Handled(engine.State(), result) == HandleEntry(setup, old(engine.State()), e, v)
    {
      result := Reject;
      v := Move(i, w, []);
      if e.payload.Mail? {
        ghost var groups;
        result, groups := engine.Process(w, e.payload.m, RetryCount(e, AsU32(e.delivered + 1)), e.queuedAt);
        v := Move(i, w, groups);
      }
    }

    /** What the engine has published since `before` joins the stream. */
    method Collect(known: nat, ghost before: Repo) returns (news: seq<Message>)
      requires known == |before.published| && before.published <= engine.published
      ensures news == NewMessages(before, engine.State())
    {
      news := engine.published[known..];
    }

    /** Send the acknowledgement that was decided. */
    method Settle(i: nat, news: seq<Message>, d: Disposition, deadLetterOk: bool)
      requires i < |queue|
      modifies this
      ensures State() == After(old(State()), i, engine.State(), news, d, deadLetterOk)
    {
      var seen := queue[i].(delivered := queue[i].delivered + 1);
      queue := QueueAfter(queue, i, Spawned(news, nextSeq), d.Nakked?);
      match d {
        case Acked => acked := acked + [seen];
        case Nakked(delay) => naks := naks + [Nak(seen.seqNo, delay)];
        case DeadLettered =>
          if deadLetterOk {
            dead := dead + [seen];
          } else {
            lost := lost + [seen];
          }
      }
      nextSeq := nextSeq + |news|;
      handled := handled + 1;
    }

    /** Hand one waiting message to the engine and acknowledge it as the result demands. */
    method Turn(i: nat, w: World) returns (ghost v: Move)
      requires Valid() && i < |queue|
      modifies this, engine
      ensures v.index == i && v.world == w && Legal(old(State()), v)
      ensures State() == Step(setup, old(State()), v)
    {
      var e := queue[i];
      ghost var s := State();
      var known := |engine.published|;
      var result;
      result, v := Invoke(i, e, w);
      ghost var r := engine.State();
      NewMessagesAreReports(setup, s.repo, e, v);
      var news := Collect(known, s.repo);
      var d := Dispose(setup.policy, result, AsU32(e.delivered + 1), w.draw(0));
      assert State() == s.(repo := r);
      Settle(i, news, d, w.deadLetterOk);
      SettledIs(setup, s, v, Handled(r, result), news, d);
    }

    /**
      Run until nothing is waiting, in any order and in any world. It ends, after no more turns than the
      potential of the submitted messages, and what it did is a run of the transition system.
    */
    method Run(worlds: nat -> World, ghost t: Trust) returns (ghost states: seq<Sys>, ghost moves: seq<Move>)
      requires Valid()
      requires forall k: nat :: Admits(t, worlds(k))
      modifies this, engine
      ensures queue == []
      ensures IsRun(setup, t, states, moves) && states[0] == old(State()) && states[|moves|] == State()
      ensures handled == old(handled) + |moves| <= old(handled) + Potential(setup, old(queue))
      ensures Accounted(old(State())) ==> Accounted(State())
      ensures Accounted(old(State())) && t.deadLetters && old(lost) == [] ==>
        forall n: nat :: n < nextSeq ==> Times(acked, n) + Times(dead, n) == 1
    {
      states, moves := [State()], [];
      while queue != []
        invariant IsRun(setup, t, states, moves) && states[0] == old(State()) && states[|moves|] == State()
        decreases Potential(setup, queue)
      {
        var i: nat :| i < |queue|;
        ghost var s := State();
        var w := worlds(handled);
        ghost var v := Turn(i, w);
        StepUsesPotential(setup, s, v);
        ExtendRun(setup, t, states, moves, v);
        states, moves := states + [State()], moves + [v];
      }
      RunsAreFinite(setup, t, states, moves);
      if Accounted(states[0]) {
        RunConserves(setup, t, states, moves);
        assert t.deadLetters && old(lost) == [] ==> State().lost == [];
        forall n: nat | n < nextSeq && t.deadLetters && old(lost) == []
          ensures Times(acked, n) + Times(dead, n) == 1
        {
          TerminalDisposition(setup, t, states, moves, n);
        }
      }
    }
  }
}
