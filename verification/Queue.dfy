/**
  The outbound queue as a whole: the consumer loop of crates/sentio-queue/src/consumer.rs driving the delivery
  engine. The broker may hand out any waiting message next, and redelivers only what was Nak'd.
*/
module Queue {
  import opened Basics
  import opened Delivery
  import opened DeliveryFacts
  import Retry

  datatype Payload = Garbage | Mail(m: Message)

  /** A message in the stream. `delivered` counts the deliveries so far; `attempt` is a legacy publisher's header. */
  datatype Entry = Entry(seqNo: nat, payload: Payload, delivered: nat, attempt: Option<u32>, queuedAt: Option<nat>)

  /** The engine's configuration and the consumer's own retry policy. */
  datatype Setup = Setup(engine: Retry.Config, policy: Retry.Policy)

  datatype Disposition = Acked | Nakked(delayMs: nat) | DeadLettered

  function AsU32(n: int): u32 {
    n % (U32_MAX + 1)
  }

  function RetryCount(e: Entry, delivered: u32): u32 {
    if e.attempt.Some? then e.attempt.value else if delivered > 0 then delivered - 1 else 0
  }

  /** The acknowledgement the loop sends for a handler result. */
  function Dispose(p: Retry.Policy, result: HandlerResult, delivered: u32, draw: Retry.Draw): Disposition {
    match result
    case Ack => Acked
    case Reject => DeadLettered
    case Again =>
      if delivered < p.maxRetries
      then Nakked(Retry.Delay(p, if delivered > 0 then delivered - 1 else 0, None, draw)) else DeadLettered
    case RetryAfter(d) =>
      if delivered < p.maxRetries then Nakked(d) else DeadLettered
  }

  /** A negative acknowledgement as sent to the broker. */
  datatype Nak = Nak(seqNo: nat, delayMs: nat)

  /** The queue, where messages have gone, the Naks sent, and everything the engine can change. */
  datatype Sys = Sys(
    repo: Repo,
    queue: seq<Entry>,
    acked: seq<Entry>,
    dead: seq<Entry>,
    lost: seq<Entry>,
    naks: seq<Nak>,
    nextSeq: nat,
    handled: nat)

  datatype Move = Move(index: nat, world: World, groups: seq<Group>)

  ghost predicate Legal(s: Sys, v: Move) {
    && v.index < |s.queue|
    && var e := s.queue[v.index];
       e.payload.Mail? ==> IsGrouping(v.groups, e.payload.m.rcpts)
  }

  function Without(q: seq<Entry>, i: nat): seq<Entry>
    requires i < |q|
  {
    q[..i] + q[i + 1..]
  }

  function Spawned(ms: seq<Message>, seqNo: nat): (q: seq<Entry>)
    ensures |q| == |ms|
    ensures forall k :: 0 <= k < |q| ==> q[k] == Entry(seqNo + k, Mail(ms[k]), 0, None, None)
  {
    seq(|ms|, k requires 0 <= k < |ms| => Entry(seqNo + k, Mail(ms[k]), 0, None, None))
  }

  ghost function HandleEntry(c: Setup, r: Repo, e: Entry, v: Move): (h: Handled)
    requires e.payload.Mail? ==> NonEmptyGroups(v.groups)
  {
    if e.payload.Garbage? then Handled(r, Reject)
    else Handle(r, v.world, c.engine, e.payload.m, RetryCount(e, AsU32(e.delivered + 1)), e.queuedAt, v.groups)
  }

  /** Handling an entry that parses is what `Handle` does with its message and retry count. */
  lemma EntryHandled(c: Setup, r: Repo, e: Entry, v: Move, h: Handled)
    requires e.payload.Mail? && NonEmptyGroups(v.groups) && h == HandleEntry(c, r, e, v)
    ensures var retries := RetryCount(e, AsU32(e.delivered + 1));
            h == Handle(r, v.world, c.engine, e.payload.m, retries, e.queuedAt, v.groups)
  {
  }

  ghost function NewMessages(r: Repo, r': Repo): seq<Message> {
    if r.published <= r'.published then r'.published[|r.published|..] else []
  }

  /** The queue after a turn: the other entries, the reports, and the entry itself if it was Nak'd. */
  function QueueAfter(q: seq<Entry>, i: nat, born: seq<Entry>, again: bool): seq<Entry>
    requires i < |q|
  {
    Without(q, i) + born + if again then [q[i].(delivered := q[i].delivered + 1)] else []
  }

  /** What a turn does to the queue once the handler has run and the acknowledgement is decided. */
  function After(s: Sys, i: nat, r: Repo, ms: seq<Message>, d: Disposition, deadLetterOk: bool): Sys
    requires i < |s.queue|
  {
    var seen := s.queue[i].(delivered := s.queue[i].delivered + 1);
    Sys(r,
        QueueAfter(s.queue, i, Spawned(ms, s.nextSeq), d.Nakked?),
        if d.Acked? then s.acked + [seen] else s.acked,
        if d.DeadLettered? && deadLetterOk then s.dead + [seen] else s.dead,
        if d.DeadLettered? && !deadLetterOk then s.lost + [seen] else s.lost,
        if d.Nakked? then s.naks + [Nak(seen.seqNo, d.delayMs)] else s.naks,
        s.nextSeq + |ms|,
        s.handled + 1)
  }

  ghost function Decision(c: Setup, e: Entry, v: Move, result: HandlerResult): Disposition {
    Dispose(c.policy, result, AsU32(e.delivered + 1), v.world.draw(0))
  }

  /** One turn of the loop. */
  ghost function Step(c: Setup, s: Sys, v: Move): Sys
    requires Legal(s, v)
  {
    Settled(c, s, v, HandleEntry(c, s.repo, s.queue[v.index], v))
  }

  /** A turn whose handler did `h`. */
  ghost function Settled(c: Setup, s: Sys, v: Move, h: Handled): Sys
    requires v.index < |s.queue|
  {
    After(s, v.index, h.repo, NewMessages(s.repo, h.repo), Decision(c, s.queue[v.index], v, h.result),
          v.world.deadLetterOk)
  }

  // ----- runs

  /** What is assumed of every world of a run. */
  datatype Trust = Trust(checks: bool, bars: bool, deadLetters: bool)

  ghost predicate Admits(t: Trust, w: World) {
    && (t.checks ==> ChecksSucceed(w)) && (t.bars ==> BarsSucceed(w))
    && (t.deadLetters ==> w.deadLetterOk)
  }

  ghost predicate IsRun(c: Setup, t: Trust, states: seq<Sys>, moves: seq<Move>) {
    && |states| == |moves| + 1
    && forall k :: 0 <= k < |moves| ==>
         Legal(states[k], moves[k]) && Admits(t, moves[k].world) && states[k + 1] == Step(c, states[k], moves[k])
  }

  /** How often one message can be handled. */
  function Cap(c: Setup): (k: nat)
    ensures 1 <= k <= U32_MAX
  {
    if c.policy.maxRetries == 0 then 1 else c.policy.maxRetries
  }

  // ----- every run is finite

  function Reportable(e: Entry): nat {
    if e.payload.Mail? && e.payload.m.sender != "" then |e.payload.m.rcpts| else 0
  }

  /** Handlings one delivery of the entry can cost: itself, and every report it can spawn. */
  function CostPerDelivery(cap: nat, e: Entry): nat {
    1 + Reportable(e) * cap
  }

  /** How often an entry can still be handled; the broker's count is truncated to 32 bits. */
  function Left(c: Setup, delivered: nat): nat {
    var count := AsU32(delivered + 1);
    if count < c.policy.maxRetries then c.policy.maxRetries - count + 1 else 1
  }

  function Weight(c: Setup, e: Entry): nat {
    Left(c, e.delivered) * CostPerDelivery(Cap(c), e)
  }

  function Potential(c: Setup, q: seq<Entry>): nat {
    if q == [] then 0 else Potential(c, q[..|q| - 1]) + Weight(c, q[|q| - 1])
  }

  lemma {:induction false} PotentialConcat(c: Setup, a: seq<Entry>, b: seq<Entry>)
    ensures Potential(c, a + b) == Potential(c, a) + Potential(c, b)
  {
    if b == [] {
      assert a + b == a;
    } else {
      var init := b[..|b| - 1];
      PotentialConcat(c, a, init);
      assert (a + b)[..|a + b| - 1] == a + init;
    }
  }

  lemma PotentialOne(c: Setup, e: Entry)
    ensures Potential(c, [e]) == Weight(c, e)
  {
    assert [e][..0] == [];
    assert Potential(c, []) == 0;
  }

  lemma PotentialWithout(c: Setup, q: seq<Entry>, i: nat)
    requires i < |q|
    ensures Potential(c, q) == Potential(c, Without(q, i)) + Weight(c, q[i])
  {
    assert q == q[..i] + [q[i]] + q[i + 1..];
    PotentialConcat(c, q[..i] + [q[i]], q[i + 1..]);
    PotentialConcat(c, q[..i], [q[i]]);
    PotentialConcat(c, q[..i], q[i + 1..]);
    PotentialOne(c, q[i]);
  }

  lemma {:induction false} PotentialOfReports(c: Setup, q: seq<Entry>)
    requires forall k :: 0 <= k < |q| ==> q[k].delivered == 0 && Reportable(q[k]) == 0
    ensures Potential(c, q) == |q| * Cap(c)
  {
    if q != [] {
      PotentialOfReports(c, q[..|q| - 1]);
      assert Weight(c, q[|q| - 1]) == Cap(c);
      assert (|q| - 1) * Cap(c) + Cap(c) == |q| * Cap(c);
    }
  }

  ghost predicate ReportsOf(e: Entry, ms: seq<Message>) {
    && |ms| <= Reportable(e)
    && forall k :: 0 <= k < |ms| ==> ms[k].sender == "" && e.payload.Mail? && ms[k].rcpts == [e.payload.m.sender]
  }

  /** The messages one turn puts on the queue: at most one per reportable recipient, none of them reportable. */
  lemma NewMessagesAreReports(c: Setup, r: Repo, e: Entry, v: Move)
    requires e.payload.Mail? ==> IsGrouping(v.groups, e.payload.m.rcpts)
    ensures var r' := HandleEntry(c, r, e, v).repo;
            r.published <= r'.published && ReportsOf(e, NewMessages(r, r'))
  {
    if e.payload.Mail? {
      var m := e.payload.m;
      HandlePublishes(v.world, c.engine, m, RetryCount(e, AsU32(e.delivered + 1)), e.queuedAt, r, v.groups);
      var r' := HandleEntry(c, r, e, v).repo;
      assert Republished(m, r.published, r'.published);
    }
  }

  lemma LeftDrops(c: Setup, delivered: nat)
    requires AsU32(delivered + 1) < c.policy.maxRetries
    ensures Left(c, delivered) == Left(c, delivered + 1) + 1
  {
    assert AsU32(delivered + 2) == AsU32(delivered + 1) + 1;
  }

  /** A handling costs its entry what one delivery costs, whether or not the entry stays. */
  lemma WeightDrops(c: Setup, e: Entry, seen: Entry, again: bool)
    requires seen == e.(delivered := e.delivered + 1)
    requires again ==> AsU32(e.delivered + 1) < c.policy.maxRetries
    ensures Weight(c, e) >= (if again then Weight(c, seen) else 0) + CostPerDelivery(Cap(c), e)
  {
    if again {
      LeftDrops(c, e.delivered);
      OneLess(Left(c, seen.delivered), CostPerDelivery(Cap(c), e));
    } else {
      ScaleMonotone(1, Left(c, e.delivered), CostPerDelivery(Cap(c), e));
    }
  }

  lemma OneLess(left: nat, cost: nat)
    ensures (left + 1) * cost == left * cost + cost
  {
  }

  lemma QueueAfterPotential(c: Setup, q: seq<Entry>, i: nat, ms: seq<Message>, seqNo: nat, again: bool)
    requires i < |q| && ReportsOf(q[i], ms)
    requires again ==> AsU32(q[i].delivered + 1) < c.policy.maxRetries
    ensures Potential(c, QueueAfter(q, i, Spawned(ms, seqNo), again)) < Potential(c, q)
  {
    var e := q[i];
    var seen := e.(delivered := e.delivered + 1);
    var rest, born := Without(q, i), Spawned(ms, seqNo);
    PotentialWithout(c, q, i);
    PotentialOfReports(c, born);
    ScaleMonotone(|born|, Reportable(e), Cap(c));
    WeightDrops(c, e, seen, again);
    PotentialConcat(c, rest, born);
    PotentialConcat(c, rest + born, if again then [seen] else []);
    PotentialOne(c, seen);
    assert Potential(c, []) == 0;
  }

  /** Every turn of the loop, on any queue and in any world, uses up potential. */
  lemma StepUsesPotential(c: Setup, s: Sys, v: Move)
    requires Legal(s, v)
    ensures Potential(c, Step(c, s, v).queue) < Potential(c, s.queue)
    ensures Step(c, s, v).handled == s.handled + 1
  {
    var e := s.queue[v.index];
    NewMessagesAreReports(c, s.repo, e, v);
    var h := HandleEntry(c, s.repo, e, v);
    var d := Decision(c, e, v, h.result);
    assert d.Nakked? ==> AsU32(e.delivered + 1) < c.policy.maxRetries;
    QueueAfterPotential(c, s.queue, v.index, NewMessages(s.repo, h.repo), s.nextSeq, d.Nakked?);
  }

  /** No run is longer than the potential of its first queue. */
  lemma {:induction false} RunsAreFinite(c: Setup, t: Trust, states: seq<Sys>, moves: seq<Move>)
    requires IsRun(c, t, states, moves)
    ensures |moves| + Potential(c, states[|moves|].queue) <= Potential(c, states[0].queue)
    ensures states[|moves|].handled == states[0].handled + |moves|
    decreases |moves|
  {
    if moves != [] {
      var n := |moves| - 1;
      RunsAreFinite(c, t, states[..n + 1], moves[..n]);
      StepUsesPotential(c, states[n], moves[n]);
    }
  }

  /** The bound in closed form, for messages none of which has been delivered yet. */
  function TotalBound(cap: nat, q: seq<Entry>): nat {
    if q == [] then 0
    else TotalBound(cap, q[..|q| - 1]) + cap * (1 + Reportable(q[|q| - 1]) * cap)
  }

  lemma {:induction false} SubmittedPotential(c: Setup, q: seq<Entry>)
    requires forall i :: 0 <= i < |q| ==> q[i].delivered == 0
    ensures Potential(c, q) == TotalBound(Cap(c), q)
  {
    if q != [] {
      SubmittedPotential(c, q[..|q| - 1]);
      assert Left(c, 0) == Cap(c);
    }
  }

  /** From submitted messages: at most cap * (1 + n * cap) handlings per message with n reportable recipients. */
  lemma RunBound(c: Setup, t: Trust, states: seq<Sys>, moves: seq<Move>)
    requires IsRun(c, t, states, moves)
    requires forall i :: 0 <= i < |states[0].queue| ==> states[0].queue[i].delivered == 0
    ensures |moves| <= TotalBound(Cap(c), states[0].queue)
  {
    SubmittedPotential(c, states[0].queue);
    RunsAreFinite(c, t, states, moves);
  }

  // ----- conservation

  /** How often a message occurs in a list of entries. */
  function Times(q: seq<Entry>, n: nat): nat {
    if q == [] then 0 else Times(q[..|q| - 1], n) + if q[|q| - 1].seqNo == n then 1 else 0
  }

  lemma {:induction false} TimesConcat(a: seq<Entry>, b: seq<Entry>, n: nat)
    ensures Times(a + b, n) == Times(a, n) + Times(b, n)
  {
    if b == [] {
      assert a + b == a;
    } else {
      TimesConcat(a, b[..|b| - 1], n);
      assert (a + b)[..|a + b| - 1] == a + b[..|b| - 1];
    }
  }

  lemma TimesOne(e: Entry, n: nat)
    ensures Times([e], n) == if e.seqNo == n then 1 else 0
  {
    assert [e][..0] == [];
    assert Times([], n) == 0;
  }

  lemma TimesWithout(q: seq<Entry>, i: nat, n: nat)
    requires i < |q|
    ensures Times(q, n) == Times(Without(q, i), n) + if q[i].seqNo == n then 1 else 0
  {
    assert q == q[..i] + [q[i]] + q[i + 1..];
    TimesConcat(q[..i] + [q[i]], q[i + 1..], n);
    TimesConcat(q[..i], [q[i]], n);
    TimesConcat(q[..i], q[i + 1..], n);
    TimesOne(q[i], n);
  }

  lemma {:induction false} TimesSpawned(ms: seq<Message>, k: nat, n: nat)
    ensures Times(Spawned(ms, k), n) == if k <= n < k + |ms| then 1 else 0
  {
    if ms != [] {
      var init := ms[..|ms| - 1];
      TimesSpawned(init, k, n);
      var q := Spawned(ms, k);
      assert q[..|q| - 1] == Spawned(init, k);
    }
  }

  lemma TimesQueueAfter(q: seq<Entry>, i: nat, born: seq<Entry>, again: bool, n: nat)
    requires i < |q|
    ensures Times(QueueAfter(q, i, born, again), n) + (if !again && q[i].seqNo == n then 1 else 0)
            == Times(q, n) + Times(born, n)
  {
    var seen := q[i].(delivered := q[i].delivered + 1);
    TimesWithout(q, i, n);
    TimesConcat(Without(q, i), born, n);
    TimesConcat(Without(q, i) + born, if again then [seen] else [], n);
    TimesOne(seen, n);
    assert Times([], n) == 0;
  }

  /** How often a message occurs anywhere. */
  function Everywhere(s: Sys, n: nat): nat {
    Times(s.queue, n) + Times(s.acked, n) + Times(s.dead, n) + Times(s.lost, n)
  }

  /** Every message ever put on the queue is in exactly one place, once. */
  ghost predicate Accounted(s: Sys) {
    forall n: nat :: Everywhere(s, n) == if n < s.nextSeq then 1 else 0
  }

  lemma AfterEverywhere(s: Sys, i: nat, r: Repo, ms: seq<Message>, d: Disposition, deadLetterOk: bool, n: nat)
    requires i < |s.queue|
    ensures Everywhere(After(s, i, r, ms, d, deadLetterOk), n)
            == Everywhere(s, n) + if s.nextSeq <= n < s.nextSeq + |ms| then 1 else 0
  {
    var e := s.queue[i];
    var seen := e.(delivered := e.delivered + 1);
    TimesSpawned(ms, s.nextSeq, n);
    TimesQueueAfter(s.queue, i, Spawned(ms, s.nextSeq), d.Nakked?, n);
    TimesOne(seen, n);
    TimesConcat(s.acked, [seen], n);
    TimesConcat(s.dead, [seen], n);
    TimesConcat(s.lost, [seen], n);
  }

  lemma AfterAccounted(s: Sys, i: nat, r: Repo, ms: seq<Message>, d: Disposition, deadLetterOk: bool)
    requires i < |s.queue| && Accounted(s)
    ensures Accounted(After(s, i, r, ms, d, deadLetterOk))
  {
    forall n: nat {
      AfterEverywhere(s, i, r, ms, d, deadLetterOk, n);
    }
  }

  /** Conservation over whole runs; only a failed dead-letter publish can lose a message. */
  lemma {:induction false} RunConserves(c: Setup, t: Trust, states: seq<Sys>, moves: seq<Move>)
    requires IsRun(c, t, states, moves) && Accounted(states[0])
    ensures Accounted(states[|moves|])
    ensures t.deadLetters ==> states[|moves|].lost == states[0].lost
    decreases |moves|
  {
    if moves != [] {
      var n := |moves| - 1;
      RunConserves(c, t, states[..n + 1], moves[..n]);
      var s, v := states[n], moves[n];
      var h := HandleEntry(c, s.repo, s.queue[v.index], v);
      AfterAccounted(s, v.index, h.repo, NewMessages(s.repo, h.repo), Decision(c, s.queue[v.index], v, h.result),
                     v.world.deadLetterOk);
    }
  }

  /** Once the queue has drained, each message was acknowledged or dead-lettered, and not both. */
  lemma TerminalDisposition(c: Setup, t: Trust, states: seq<Sys>, moves: seq<Move>, n: nat)
    requires IsRun(c, t, states, moves) && Accounted(states[0])
    requires t.deadLetters && states[0].lost == []
    requires states[|moves|].queue == [] && n < states[|moves|].nextSeq
    ensures Times(states[|moves|].acked, n) + Times(states[|moves|].dead, n) == 1
  {
    RunConserves(c, t, states, moves);
    assert Everywhere(states[|moves|], n) == 1;
  }

  // ----- suppression over whole runs

  /** With successful suppression checks, over all messages and redeliveries, no barred recipient is offered again. */
  lemma {:induction false} RunNeverReoffers(c: Setup, t: Trust, states: seq<Sys>, moves: seq<Move>)
    requires IsRun(c, t, states, moves) && t.checks && Guarded(states[0].repo)
    ensures Guarded(states[|moves|].repo)
    ensures NeverReoffered(states[|moves|].repo.log)
    decreases |moves|
  {
    if moves != [] {
      var n := |moves| - 1;
      RunNeverReoffers(c, t, states[..n + 1], moves[..n]);
      HandleEntryGuarded(c, states[n].repo, states[n].queue[moves[n].index], moves[n]);
    }
  }

  lemma HandleEntryGuarded(c: Setup, r: Repo, e: Entry, v: Move)
    requires e.payload.Mail? ==> NonEmptyGroups(v.groups)
    requires ChecksSucceed(v.world) && Guarded(r)
    ensures Guarded(HandleEntry(c, r, e, v).repo)
  {
    if e.payload.Mail? {
      var r' := HandleEntry(c, r, e, v).repo;
      EntryLog(c, r, e, v);
      DeliverGuarded(v.world, e.payload.m, r, v.groups);
      GuardedSame(Deliver(r, v.world, e.payload.m, v.groups).repo, r');
    }
  }

  /** After the pass the handler writes at most a status. */
  lemma EntryLog(c: Setup, r: Repo, e: Entry, v: Move)
    requires e.payload.Mail? && NonEmptyGroups(v.groups)
    ensures var p, r' := Deliver(r, v.world, e.payload.m, v.groups).repo, HandleEntry(c, r, e, v).repo;
            r'.log == p.log && r'.suppressed == p.suppressed
  {
  }

  // ----- reports over whole runs

  function DsnsOf(log: seq<Event>, id: nat, x: string): nat {
    if log == [] then 0
    else
      var last := log[|log| - 1];
      DsnsOf(log[..|log| - 1], id, x) + if last.DsnQueued? && last.id == id && last.rcpt == x then 1 else 0
  }

  lemma {:induction false} DsnsOfConcat(a: seq<Event>, b: seq<Event>, id: nat, x: string)
    ensures DsnsOf(a + b, id, x) == DsnsOf(a, id, x) + DsnsOf(b, id, x)
  {
    if b == [] {
      assert a + b == a;
    } else {
      DsnsOfConcat(a, b[..|b| - 1], id, x);
      assert (a + b)[..|a + b| - 1] == a + b[..|b| - 1];
    }
  }

  /** Events of one pass all carry one id, so counting by id and recipient is counting by recipient. */
  lemma {:induction false} DsnsOfTail(v: seq<Event>, own: Option<nat>, id: nat, x: string)
    requires forall i :: 0 <= i < |v| && v[i].DsnQueued? ==> own.Some? && v[i].id == own.value
    ensures DsnsOf(v, id, x) == if own == Some(id) then DsnsFor(v, x) else 0
  {
    if v != [] {
      DsnsOfTail(v[..|v| - 1], own, id, x);
      assert v[|v| - 1].DsnQueued? ==> own.Some? && v[|v| - 1].id == own.value;
    }
  }

  /** The submitted messages by id, and for each recipient no more reports than occurrences. */
  ghost predicate OnceReported(submitted: map<nat, Message>, r: Repo) {
    forall id: nat, x: string :: DsnsOf(r.log, id, x) > 0 ==>
      && id in submitted && submitted[id].tenant.Some?
      && DsnsOf(r.log, id, x) <= multiset(submitted[id].rcpts)[x]
      && (submitted[id].tenant.value, x) in r.suppressed
  }

  ghost predicate KnownEntry(submitted: map<nat, Message>, e: Entry) {
    e.payload.Mail? && e.payload.m.sender != "" && e.payload.m.id.Some? ==>
      e.payload.m.id.value in submitted && submitted[e.payload.m.id.value] == e.payload.m
  }

  ghost predicate Known(submitted: map<nat, Message>, q: seq<Entry>) {
    forall i :: 0 <= i < |q| ==> KnownEntry(submitted, q[i])
  }

  /** One handling adds reports only for its own message, and none for recipients already barred. */
  lemma PassReports(w: World, m: Message, r: Repo, r': Repo, id: nat, x: string)
    requires BarsSucceed(w) && m.tenant.Some? && m.id.Some? && Effect(w, EnvelopeOf(m), r, r', m.rcpts)
    requires (m.tenant.value, x) in r.suppressed ==> DsnsFor(r'.log[|r.log|..], x) == 0
    ensures DsnsOf(r'.log, id, x) > DsnsOf(r.log, id, x) ==>
              && m.sender != "" && id == m.id.value
              && (m.tenant.value, x) !in r.suppressed && (m.tenant.value, x) in r'.suppressed
              && DsnsOf(r'.log, id, x) <= DsnsOf(r.log, id, x) + multiset(m.rcpts)[x]
    ensures DsnsOf(r'.log, id, x) >= DsnsOf(r.log, id, x)
  {
    var e := EnvelopeOf(m);
    var v := r'.log[|r.log|..];
    assert r'.log == r.log + v;
    DsnsOfConcat(r.log, v, id, x);
    OwnTail(w, e, r, r', m.rcpts, v);
    DsnsOfTail(v, Some(e.id), id, x);
    assert Tail(r, r') == v;
    assert DsnsFor(v, x) <= multiset(m.rcpts)[x];
    if DsnsFor(v, x) > 0 {
      var i := SomeDsn(v, x);
      assert OwnEvent(w, e, r', v[i]);
    }
  }

  lemma OwnTail(w: World, e: Envelope, r: Repo, r': Repo, rcpts: seq<string>, v: seq<Event>)
    requires Effect(w, e, r, r', rcpts) && r'.log == r.log + v
    ensures forall i :: 0 <= i < |v| ==> OwnEvent(w, e, r', v[i])
  {
    forall i | 0 <= i < |v|
      ensures OwnEvent(w, e, r', v[i])
    {
      assert v[i] == r'.log[|r.log| + i];
    }
  }

  lemma {:induction false} SomeDsn(v: seq<Event>, x: string) returns (i: nat)
    requires DsnsFor(v, x) > 0
    ensures i < |v| && v[i].DsnQueued? && v[i].rcpt == x
  {
    i := |v| - 1;
    if !(v[i].DsnQueued? && v[i].rcpt == x) {
      i := SomeDsn(v[..|v| - 1], x);
    }
  }

  lemma PassOnceReported(submitted: map<nat, Message>, w: World, m: Message, r: Repo, r': Repo)
    requires OnceReported(submitted, r)
    requires m.sender != "" && m.id.Some? ==> m.id.value in submitted && submitted[m.id.value] == m
    requires BarsSucceed(w) && m.tenant.Some? && m.id.Some? && Effect(w, EnvelopeOf(m), r, r', m.rcpts)
    requires forall x :: (m.tenant.value, x) in r.suppressed ==> DsnsFor(r'.log[|r.log|..], x) == 0
    ensures OnceReported(submitted, r')
  {
    forall id: nat, x: string | DsnsOf(r'.log, id, x) > 0
      ensures && id in submitted && submitted[id].tenant.Some?
              && DsnsOf(r'.log, id, x) <= multiset(submitted[id].rcpts)[x]
              && (submitted[id].tenant.value, x) in r'.suppressed
    {
      PassReports(w, m, r, r', id, x);
    }
  }

  /** What is known of one handling, in terms of the queue entry. */
  lemma EntryEffect(c: Setup, r: Repo, e: Entry, v: Move)
    requires e.payload.Mail? && IsGrouping(v.groups, e.payload.m.rcpts)
    ensures var r' := HandleEntry(c, r, e, v).repo;
            if Attempted(e.payload.m, v.world) then Effect(v.world, EnvelopeOf(e.payload.m), r, r', e.payload.m.rcpts)
            else r'.log == r.log && r'.suppressed == r.suppressed
  {
    var m, retries := e.payload.m, RetryCount(e, AsU32(e.delivered + 1));
    var h := Handle(r, v.world, c.engine, m, retries, e.queuedAt, v.groups);
    assert HandleEntry(c, r, e, v) == h;
    HandleEffect(v.world, c.engine, m, retries, e.queuedAt, r, v.groups);
  }

  lemma EntrySilent(c: Setup, r: Repo, e: Entry, v: Move, x: string)
    requires e.payload.Mail? && NonEmptyGroups(v.groups) && ChecksSucceed(v.world)
    requires e.payload.m.tenant.Some? && (e.payload.m.tenant.value, x) in r.suppressed
    ensures var r' := HandleEntry(c, r, e, v).repo;
            r.log <= r'.log && DsnsFor(r'.log[|r.log|..], x) == 0
  {
    var m, retries := e.payload.m, RetryCount(e, AsU32(e.delivered + 1));
    var h := Handle(r, v.world, c.engine, m, retries, e.queuedAt, v.groups);
    assert HandleEntry(c, r, e, v) == h;
    HandleSilent(v.world, c.engine, m, retries, e.queuedAt, r, v.groups, x);
  }

  lemma SameLogOnceReported(submitted: map<nat, Message>, r: Repo, r': Repo)
    requires OnceReported(submitted, r) && r'.log == r.log && r'.suppressed == r.suppressed
    ensures OnceReported(submitted, r')
  {
  }

  lemma HandleEntryOnceReported(c: Setup, submitted: map<nat, Message>, r: Repo, e: Entry, v: Move)
    requires e.payload.Mail? ==> IsGrouping(v.groups, e.payload.m.rcpts)
    requires ChecksSucceed(v.world) && BarsSucceed(v.world) && OnceReported(submitted, r) && KnownEntry(submitted, e)
    ensures OnceReported(submitted, HandleEntry(c, r, e, v).repo)
  {
    if e.payload.Mail? {
      var m, r' := e.payload.m, HandleEntry(c, r, e, v).repo;
      EntryEffect(c, r, e, v);
      if Attempted(m, v.world) {
        forall x | (m.tenant.value, x) in r.suppressed
          ensures DsnsFor(r'.log[|r.log|..], x) == 0
        {
          EntrySilent(c, r, e, v, x);
        }
        PassOnceReported(submitted, v.world, m, r, r');
      } else {
        SameLogOnceReported(submitted, r, r');
      }
    }
  }

  /**
    With successful suppression checks and writes, over all redeliveries of all messages, each recipient of a
    submitted message is reported to its sender at most once per occurrence in the envelope.
  */
  lemma {:induction false} RunReportsOnce(c: Setup, t: Trust, states: seq<Sys>, moves: seq<Move>,
                                          submitted: map<nat, Message>)
    requires IsRun(c, t, states, moves) && t.checks && t.bars
    requires Known(submitted, states[0].queue) && OnceReported(submitted, states[0].repo)
    ensures Known(submitted, states[|moves|].queue) && OnceReported(submitted, states[|moves|].repo)
    decreases |moves|
  {
    if moves != [] {
      var n := |moves| - 1;
      RunReportsOnce(c, t, states[..n + 1], moves[..n], submitted);
      var s, v := states[n], moves[n];
      var e := s.queue[v.index];
      HandleEntryOnceReported(c, submitted, s.repo, e, v);
      NewMessagesAreReports(c, s.repo, e, v);
      var h := HandleEntry(c, s.repo, e, v);
      KnownAfter(submitted, s.queue, v.index, NewMessages(s.repo, h.repo), s.nextSeq,
                 Decision(c, e, v, h.result).Nakked?);
    }
  }

  lemma KnownAfter(submitted: map<nat, Message>, q: seq<Entry>, i: nat, ms: seq<Message>, seqNo: nat, again: bool)
    requires i < |q| && Known(submitted, q) && ReportsOf(q[i], ms)
    ensures Known(submitted, QueueAfter(q, i, Spawned(ms, seqNo), again))
  {
    var q' := QueueAfter(q, i, Spawned(ms, seqNo), again);
    assert KnownEntry(submitted, q[i]);
    forall k | 0 <= k < |q'|
      ensures KnownEntry(submitted, q'[k])
    {
      if k < i {
        assert q'[k] == q[k];
      } else if k < |q| - 1 {
        assert q'[k] == q[k + 1];
      } else if k < |q| - 1 + |ms| {
        assert q'[k].payload == Mail(ms[k - (|q| - 1)]);
      }
    }
  }
}
