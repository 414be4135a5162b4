/**
  What one delivery pass of the outbound engine does: crates/sentio-smtp-client/src/delivery.rs.

  The engine talks to repositories, a blob store, a queue and remote servers. A `World` fixes what those
  answer: every awaited call consumes one tick, and each answer depends on the tick alone, so a statement
  about all worlds is a statement about all behaviours of the environment. The handler's hard timeout is the
  world's `deadline`: calls at or after it never happen.
*/
module Delivery {
  import opened Basics
  import Retry

  datatype Outcome =
    | Delivered
    | Deferred(bounce: BounceClass)
    | Bounced(bounce: BounceClass)
    | Suppressed

  /** What an attempt at a whole domain can end in. */
  type Verdict = o: Outcome | !o.Suppressed? witness Delivered

  datatype Status = IsQueued | IsDelivered | IsBounced | IsDeferred | IsDropped

  /** An outbound message; an id that does not parse as a UUID is None. */
  datatype Message = Message(id: Option<nat>, tenant: Option<nat>, sender: string, rcpts: seq<string>)

  /** `at` is the tick of the call behind the event. */
  datatype Event =
    | Offered(tenant: nat, rcpts: seq<string>, at: nat)                // handed to deliver_to_domain
    | Recorded(tenant: nat, id: nat, rcpt: string, outcome: Outcome, saved: bool, at: nat)   // record_outcome; row kept?
    | Barred(tenant: nat, rcpt: string)                                // suppression written
    | DsnQueued(tenant: nat, id: nat, rcpt: string)                    // bounce report published

  /** Everything outside the engine that a pass can change. */
  datatype Repo = Repo(
    tick: nat,
    suppressed: set<(nat, string)>,
    status: map<nat, Status>,
    published: seq<Message>,
    log: seq<Event>)

  datatype World = World(
    checkOk: nat -> bool,         // does the suppression check made at this tick succeed
    barOk: nat -> bool,           // does the suppression write made at this tick succeed
    ok: nat -> bool,              // does any other call made at this tick succeed
    answer: nat -> Verdict,       // how the attempt made at this tick ends
    newId: nat -> nat,
    deadline: nat,
    warmupOpen: bool,
    blobOk: bool,
    deadLetterOk: bool,
    nowMs: nat,
    draw: nat -> Retry.Draw)

  /** The envelope facts a pass carries along. */
  datatype Envelope = Envelope(tenant: nat, id: nat, sender: string)

  predicate Alive(r: Repo, w: World) {
    r.tick < w.deadline
  }

  /** The next call happens before the deadline and succeeds. */
  predicate Ok(r: Repo, w: World) {
    Alive(r, w) && w.ok(r.tick)
  }

  ghost predicate ChecksSucceed(w: World) {
    forall k: nat :: w.checkOk(k)
  }

  ghost predicate BarsSucceed(w: World) {
    forall k: nat :: w.barOk(k)
  }

  // ----- addresses and grouping

  /** What follows the last at sign, or everything when there is none. */
  function AfterLastAt(s: string): string {
    if |s| == 0 || s[|s| - 1] == '@' then []
    else AfterLastAt(s[..|s| - 1]) + [s[|s| - 1]]
  }

  lemma {:induction false} AfterLastAtIsSuffix(s: string)
    ensures var r := AfterLastAt(s);
            && '@' !in r && |r| <= |s| && r == s[|s| - |r|..]
            && (if '@' in s then |r| < |s| && s[|s| - |r| - 1] == '@' else r == s)
  {
    if |s| > 0 && s[|s| - 1] != '@' {
      AfterLastAtIsSuffix(s[..|s| - 1]);
    }
  }

  function DomainOf(rcpt: string): string {
    if '@' in rcpt then Lower(AfterLastAt(rcpt)) else "unknown"
  }

  datatype Group = Group(domain: string, rcpts: seq<string>)

  function InDomain(rcpts: seq<string>, d: string): seq<string> {
    if rcpts == [] then []
    else
      var last := rcpts[|rcpts| - 1];
      InDomain(rcpts[..|rcpts| - 1], d) + (if DomainOf(last) == d then [last] else [])
  }

  predicate HasDomain(groups: seq<Group>, d: string) {
    exists i :: 0 <= i < |groups| && groups[i].domain == d
  }

  ghost predicate NonEmptyGroups(groups: seq<Group>) {
    forall i :: 0 <= i < |groups| ==> groups[i].rcpts != []
  }

  ghost predicate GroupsOf(groups: seq<Group>, rcpts: seq<string>) {
    && (forall i :: 0 <= i < |groups| ==> groups[i].rcpts == InDomain(rcpts, groups[i].domain))
    && (forall i, j :: 0 <= i < j < |groups| ==> groups[i].domain != groups[j].domain)
  }

  /** The groups a hash map of the recipients can be drained into, in any order. */
  ghost predicate IsGrouping(groups: seq<Group>, rcpts: seq<string>) {
    && GroupsOf(groups, rcpts)
    && NonEmptyGroups(groups)
    && (forall r :: r in rcpts ==> HasDomain(groups, DomainOf(r)))
  }

  function Flatten(groups: seq<Group>): seq<string> {
    if groups == [] then [] else Flatten(groups[..|groups| - 1]) + groups[|groups| - 1].rcpts
  }

  lemma HasDomainSnoc(groups: seq<Group>, g: Group, d: string)
    ensures HasDomain(groups + [g], d) <==> HasDomain(groups, d) || g.domain == d
  {
    var all := groups + [g];
    if HasDomain(groups, d) {
      var i :| 0 <= i < |groups| && groups[i].domain == d;
      assert all[i].domain == d;
    }
    if g.domain == d {
      assert all[|groups|].domain == d;
    }
  }

  lemma {:induction false} InDomainCount(rcpts: seq<string>, d: string, x: string)
    ensures multiset(InDomain(rcpts, d))[x] == if DomainOf(x) == d then multiset(rcpts)[x] else 0
  {
    if rcpts != [] {
      var init, last := rcpts[..|rcpts| - 1], rcpts[|rcpts| - 1];
      InDomainCount(init, d, x);
      assert rcpts == init + [last];
    }
  }

  lemma {:induction false} FlattenCount(groups: seq<Group>, rcpts: seq<string>, x: string, d: string)
    requires GroupsOf(groups, rcpts) && d == DomainOf(x)
    ensures multiset(Flatten(groups))[x] == if HasDomain(groups, d) then multiset(rcpts)[x] else 0
  {
    if groups != [] {
      var init, last := groups[..|groups| - 1], groups[|groups| - 1];
      FlattenCount(init, rcpts, x, d);
      InDomainCount(rcpts, last.domain, x);
      assert groups == init + [last];
      HasDomainSnoc(init, last, d);
      assert HasDomain(init, d) ==> last.domain != d;
      MultisetConcatAt(Flatten(init), last.rcpts, x);
    }
  }

  lemma MultisetConcatAt(a: seq<string>, b: seq<string>, x: string)
    ensures multiset(a + b)[x] == multiset(a)[x] + multiset(b)[x]
  {
  }

  /** Grouping is a partition: the groups hold exactly the recipients, repetitions included. */
  lemma GroupingIsPartition(groups: seq<Group>, rcpts: seq<string>)
    requires IsGrouping(groups, rcpts)
    ensures multiset(Flatten(groups)) == multiset(rcpts)
    ensures |Flatten(groups)| == |rcpts|
  {
    var flat := Flatten(groups);
    forall x: string
      ensures multiset(flat)[x] == multiset(rcpts)[x]
    {
      FlattenCount(groups, rcpts, x, DomainOf(x));
      assert x in multiset(rcpts) <==> x in rcpts;
    }
    assert multiset(flat) == multiset(rcpts);
    assert |multiset(flat)| == |flat| && |multiset(rcpts)| == |rcpts|;
  }

  // ----- recording outcomes

  function Tick(r: Repo): Repo {
    r.(tick := r.tick + 1)
  }

  function Bar(r: Repo, w: World, e: Envelope, rcpt: string): Repo {
    if Alive(r, w) && w.barOk(r.tick) then
      Tick(r).(suppressed := r.suppressed + {(e.tenant, rcpt)}, log := r.log + [Barred(e.tenant, rcpt)])
    else Tick(r)
  }

  /** The bounce report for one recipient: null sender, addressed to the original sender. */
  function Dsn(id: nat, e: Envelope): Message {
    Message(Some(id), Some(e.tenant), "", [e.sender])
  }

  /** Assign and upload a blob, insert the message record, publish; the first failure ends it. */
  function QueueDsn(r: Repo, w: World, e: Envelope, rcpt: string): Repo {
    if !Ok(r, w) then Tick(r)
    else if !Ok(Tick(r), w) then Tick(Tick(r))
    else
      var r2 := Tick(Tick(r));
      if !Ok(r2, w) then Tick(r2)
      else
        var id := w.newId(r2.tick);
        var r3 := Tick(r2).(status := r2.status[id := IsQueued]);
        if !Ok(r3, w) then Tick(r3)
        else Tick(r3).(published := r3.published + [Dsn(id, e)],
                       log := r3.log + [DsnQueued(e.tenant, e.id, rcpt)])
  }

  /** `record_outcome`: one event, whose insert may fail; a hard bounce also bars and reports to a non-null sender. */
  function Record(r: Repo, w: World, e: Envelope, rcpt: string, o: Outcome): Repo {
    if !Alive(r, w) then r
    else
      var r1 := Tick(r).(log := r.log + [Recorded(e.tenant, e.id, rcpt, o, w.ok(r.tick), r.tick)]);
      if o != Bounced(Hard) then r1
      else
        var r2 := Bar(r1, w, e, rcpt);
        if e.sender == "" then r2 else QueueDsn(r2, w, e, rcpt)
  }

  function RecordAll(r: Repo, w: World, e: Envelope, rcpts: seq<string>, o: Outcome): Repo {
    if rcpts == [] then r
    else Record(RecordAll(r, w, e, rcpts[..|rcpts| - 1], o), w, e, rcpts[|rcpts| - 1], o)
  }

  // ----- one domain group

  datatype Screening = Screening(repo: Repo, active: seq<string>, outcomes: seq<(string, Outcome)>)

  /** One suppression check; a failed check lets the recipient through. */
  function CheckOne(s: Screening, w: World, e: Envelope, rcpt: string): Screening {
    if !Alive(s.repo, w) then s
    else if w.checkOk(s.repo.tick) && (e.tenant, rcpt) in s.repo.suppressed then
      Screening(Record(Tick(s.repo), w, e, rcpt, Suppressed), s.active, s.outcomes + [(rcpt, Suppressed)])
    else
      Screening(Tick(s.repo), s.active + [rcpt], s.outcomes)
  }

  function CheckAll(r: Repo, w: World, e: Envelope, rcpts: seq<string>): Screening {
    if rcpts == [] then Screening(r, [], [])
    else CheckOne(CheckAll(r, w, e, rcpts[..|rcpts| - 1]), w, e, rcpts[|rcpts| - 1])
  }

  datatype Pass = Pass(repo: Repo, outcomes: seq<(string, Outcome)>)

  function Offer(r: Repo, e: Envelope, active: seq<string>): Repo {
    Tick(r).(log := r.log + [Offered(e.tenant, active, r.tick)])
  }

  function DeliverGroup(p: Pass, w: World, e: Envelope, g: Group): Pass
    requires g.rcpts != []
  {
    if !Alive(p.repo, w) then p
    else
      var s := CheckAll(p.repo, w, e, g.rcpts);
      if s.active == [] || !Alive(s.repo, w) then Pass(s.repo, p.outcomes + s.outcomes)
      else
        var o := w.answer(s.repo.tick);
        Pass(RecordAll(Offer(s.repo, e, s.active), w, e, s.active, o),
             p.outcomes + s.outcomes + [(g.rcpts[0], o)])
  }

  ghost function DeliverGroups(r: Repo, w: World, e: Envelope, groups: seq<Group>): Pass
    requires NonEmptyGroups(groups)
  {
    if groups == [] then Pass(r, [])
    else DeliverGroup(DeliverGroups(r, w, e, groups[..|groups| - 1]), w, e, groups[|groups| - 1])
  }

  // ----- the whole pass

  predicate AllDelivered(outcomes: seq<(string, Outcome)>) {
    forall i :: 0 <= i < |outcomes| ==> outcomes[i].1.Delivered?
  }

  predicate AnyBounced(outcomes: seq<(string, Outcome)>) {
    exists i :: 0 <= i < |outcomes| && outcomes[i].1.Bounced?
  }

  predicate AnyDeferred(outcomes: seq<(string, Outcome)>) {
    exists i :: 0 <= i < |outcomes| && outcomes[i].1.Deferred?
  }

  predicate AllSuppressed(outcomes: seq<(string, Outcome)>) {
    forall i :: 0 <= i < |outcomes| ==> outcomes[i].1.Suppressed?
  }

  function FinalStatus(outcomes: seq<(string, Outcome)>): Option<Status> {
    if AllDelivered(outcomes) then Some(IsDelivered)
    else if AnyBounced(outcomes) then Some(IsBounced)
    else if AnyDeferred(outcomes) then Some(IsDeferred)
    else if AllSuppressed(outcomes) then Some(IsDropped)
    else None
  }

  function SetStatus(r: Repo, w: World, id: nat, status: Status): Repo {
    if Ok(r, w) then Tick(r).(status := r.status[id := status]) else Tick(r)
  }

  function Placeholder(m: Message): string {
    if m.rcpts == [] then "" else m.rcpts[0]
  }

  /** Does `deliver` get past its early returns? */
  predicate Attempted(m: Message, w: World) {
    m.tenant.Some? && m.id.Some? && w.warmupOpen && w.blobOk
  }

  function EarlyOutcome(m: Message, w: World): Outcome {
    if m.tenant.Some? && m.id.Some? && !w.warmupOpen then Deferred(Soft) else Bounced(Hard)
  }

  function EnvelopeOf(m: Message): Envelope
    requires m.tenant.Some? && m.id.Some?
  {
    Envelope(m.tenant.value, m.id.value, m.sender)
  }

  /** `deliver`, for one order in which the hash map yields the groups. */
  ghost function Deliver(r: Repo, w: World, m: Message, groups: seq<Group>): Pass
    requires NonEmptyGroups(groups)
  {
    if !Attempted(m, w) then Pass(r, [(Placeholder(m), EarlyOutcome(m, w))])
    else
      var p := DeliverGroups(r, w, EnvelopeOf(m), groups);
      var status := FinalStatus(p.outcomes);
      if status.Some? then Pass(SetStatus(p.repo, w, m.id.value, status.value), p.outcomes) else p
  }

  // ----- the handler's decision

  function PolicyFor(c: Retry.Config, rcpt: string): Retry.Policy {
    Retry.FromConfigForDomain(c, AfterLastAt(rcpt))
  }

  function ElapsedMs(w: World, queuedAt: Option<nat>): nat {
    if queuedAt.Some? && queuedAt.value <= w.nowMs then w.nowMs - queuedAt.value else 0
  }

  /** Every deferred outcome, and there is one, is denied another try by its own domain's policy. */
  ghost predicate BudgetExhausted(c: Retry.Config, outcomes: seq<(string, Outcome)>, retries: u32, elapsedMs: nat) {
    && AnyDeferred(outcomes)
    && forall i :: 0 <= i < |outcomes| && outcomes[i].1.Deferred? ==>
         !Retry.ShouldRetry(PolicyFor(c, outcomes[i].0), retries, elapsedMs)
  }

  /** The delay each deferred outcome's own policy asks for; nothing for the others. */
  function OwnDelay(c: Retry.Config, o: (string, Outcome), retries: u32, draw: Retry.Draw): Option<nat> {
    if o.1.Deferred? then Some(Retry.Delay(PolicyFor(c, o.0), retries, Some(o.1.bounce), draw)) else None
  }

  function OwnDelays(c: Retry.Config, w: World, outcomes: seq<(string, Outcome)>, retries: u32): (r: seq<Option<nat>>)
    ensures |r| == |outcomes|
    ensures forall i :: 0 <= i < |r| ==> r[i] == OwnDelay(c, outcomes[i], retries, w.draw(i))
  {
    seq(|outcomes|, i requires 0 <= i < |outcomes| => OwnDelay(c, outcomes[i], retries, w.draw(i)))
  }

  function Longest(delays: seq<Option<nat>>): (d: Option<nat>)
    ensures d.Some? <==> exists i :: 0 <= i < |delays| && delays[i].Some?
    ensures d.Some? ==> d in delays && forall i :: 0 <= i < |delays| && delays[i].Some? ==> delays[i].value <= d.value
  {
    if delays == [] then None
    else
      var n := |delays| - 1;
      var before := Longest(delays[..n]);
      if delays[n].None? then before
      else if before.Some? && before.value >= delays[n].value then before
      else delays[n]
  }

  function LongestDelay(c: Retry.Config, w: World, outcomes: seq<(string, Outcome)>, retries: u32): (d: Option<nat>)
    ensures d.Some? <==> AnyDeferred(outcomes)
  {
    var own := OwnDelays(c, w, outcomes, retries);
    assert forall i :: 0 <= i < |own| ==> (own[i].Some? <==> outcomes[i].1.Deferred?);
    Longest(own)
  }

  datatype HandlerResult = Ack | Again | RetryAfter(delayMs: nat) | Reject

  datatype Handled = Handled(repo: Repo, result: HandlerResult)

  const TIMEOUT_RETRY_MS: nat := 300_000

  /** `MessageHandler::handle`, after the body has been parsed. */
  ghost function Handle(r: Repo, w: World, c: Retry.Config, m: Message, retries: u32, queuedAt: Option<nat>,
                        groups: seq<Group>): Handled
    requires NonEmptyGroups(groups)
  {
    var p := Deliver(r, w, m, groups);
    if !Alive(p.repo, w) then Handled(p.repo, RetryAfter(TIMEOUT_RETRY_MS))
    else if !AnyDeferred(p.outcomes) || m.id.None? then Handled(p.repo, Ack)
    else if BudgetExhausted(c, p.outcomes, retries, ElapsedMs(w, queuedAt)) then
      Handled(SetStatus(p.repo, w, m.id.value, IsBounced), Ack)
    else
      Handled(p.repo, RetryAfter(LongestDelay(c, w, p.outcomes, retries).value))
  }
}
