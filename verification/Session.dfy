/**
  One delivery attempt as a conversation: `try_mx_host` and `send_message` in
  crates/sentio-smtp-client/src/delivery.rs, over the commands of crates/sentio-smtp-client/src/connection.rs.
  The server is arbitrary: what it answers at each point depends on how far the conversation has got.
*/
module Session {
  datatype TlsPolicy = Opportunistic | Required | Dane

  datatype Command = Ehlo | StartTls | Mail | Rcpt(r: string) | Data | Body | Rset | Quit

  datatype Event =
    | Sent(c: Command)
    | Got(code: nat)
    | ReadFailed
    | WriteFailed
    | Handshake(ok: bool)

  /** A reply, or a timeout or error instead of one; EHLO replies advertise capabilities. */
  datatype Reply = Reply(code: nat, starttls: bool) | NoReply

  datatype Server = Server(reply: nat -> Reply, writeOk: nat -> bool, tlsOk: nat -> bool)

  predicate Success(code: nat) {
    200 <= code < 300
  }

  predicate IsSuccess(v: Event) {
    v.Got? && 200 <= v.code <= 299
  }

  datatype Verdict = Delivered | Deferred | Bounced

  datatype Result = Done(v: Verdict) | Failed

  /** `classify_response`, as far as the verdict goes. */
  function Classify(code: nat): Verdict {
    if Success(code) then Delivered else if 400 <= code < 500 then Deferred else Bounced
  }

  /** The reply to the first EHLO, the third step of every conversation that gets so far, offers STARTTLS. */
  predicate OffersTls(server: Server) {
    server.reply(2).Reply? && server.reply(2).starttls
  }

  // ----- what the server owes

  predicate IsRead(v: Event) {
    v.Got? || v.ReadFailed?
  }

  /**
    Replies a conforming server still owes: its greeting, one per command and one for the message body
    (sections 3.1 and 4.2 of RFC 5321), and nothing after a TLS handshake (section 4.2 of RFC 3207).
  */
  function Owed(trace: seq<Event>): int {
    if trace == [] then 1
    else
      var before, last := Owed(trace[..|trace| - 1]), trace[|trace| - 1];
      if last.Sent? then before + 1
      else if IsRead(last) then before - 1
      else if last == Handshake(true) then 0
      else before
  }

  /** The client never waits for a reply that is not owed. */
  ghost predicate Disciplined(trace: seq<Event>) {
    forall i :: 0 <= i < |trace| && IsRead(trace[i]) ==> Owed(trace[..i]) > 0
  }

  lemma OwedSnoc(trace: seq<Event>, v: Event)
    ensures (trace + [v])[..|trace|] == trace
    ensures Owed(trace + [v]) == if v.Sent? then Owed(trace) + 1 else if IsRead(v) then Owed(trace) - 1
                                 else if v == Handshake(true) then 0 else Owed(trace)
  {
    assert (trace + [v])[..|trace|] == trace;
  }

  lemma DisciplinedSnoc(trace: seq<Event>, v: Event)
    ensures Disciplined(trace + [v]) <==> Disciplined(trace) && (IsRead(v) ==> Owed(trace) > 0)
  {
    var t := trace + [v];
    assert t[..|trace|] == trace;
    forall i | 0 <= i < |trace|
      ensures t[..i] == trace[..i] && t[i] == trace[i]
    {
    }
    if Disciplined(t) {
      forall i | 0 <= i < |trace| && IsRead(trace[i])
        ensures Owed(trace[..i]) > 0
      {
        assert Owed(t[..i]) > 0;
      }
      assert IsRead(v) ==> Owed(t[..|trace|]) > 0 by { assert t[|trace|] == v; }
    }
  }

  /** Under a strict policy MAIL is only ever sent after a successful handshake. */
  ghost predicate MailAfterTls(trace: seq<Event>) {
    forall i :: 0 <= i < |trace| && trace[i] == Sent(Mail) ==> exists j :: 0 <= j < i && trace[j] == Handshake(true)
  }

  /** MAIL and the first `n` recipients were accepted, in order. */
  ghost predicate TakenUpTo(ext: seq<Event>, rcpts: seq<string>, n: nat)
    requires n <= |rcpts|
  {
    && |ext| >= 2 + 2 * n && ext[0] == Sent(Mail) && IsSuccess(ext[1])
    && forall i :: 0 <= i < n ==> ext[2 + 2 * i] == Sent(Rcpt(rcpts[i])) && IsSuccess(ext[3 + 2 * i])
  }

  /** A stretch of conversation in which MAIL, every RCPT and the message were accepted. */
  ghost predicate Accepted(ext: seq<Event>, rcpts: seq<string>) {
    var n := 2 + 2 * |rcpts|;
    && TakenUpTo(ext, rcpts, |rcpts|) && |ext| >= n + 2 && ext[n] == Sent(Data)
    && if ext[n + 1] == Got(354) then |ext| >= n + 4 && ext[n + 2] == Sent(Body) && IsSuccess(ext[n + 3])
       else IsSuccess(ext[n + 1])
  }

  // ----- the reply that decides, in terms of codes

  ghost predicate MailRefused(ext: seq<Event>, code: nat) {
    |ext| >= 2 && ext[0] == Sent(Mail) && ext[1] == Got(code) && !(200 <= code <= 299)
  }

  /** The first recipient that was not accepted was refused with this code. */
  ghost predicate RcptRefused(ext: seq<Event>, rcpts: seq<string>, k: int, code: nat) {
    && 0 <= k < |rcpts| && TakenUpTo(ext, rcpts, k) && |ext| >= 4 + 2 * k
    && ext[2 + 2 * k] == Sent(Rcpt(rcpts[k])) && ext[3 + 2 * k] == Got(code) && !(200 <= code <= 299)
  }

  /** All recipients were accepted, and DATA or the message itself was refused with this code. */
  ghost predicate DataRefused(ext: seq<Event>, rcpts: seq<string>, code: nat) {
    var n := 2 + 2 * |rcpts|;
    && TakenUpTo(ext, rcpts, |rcpts|) && |ext| >= n + 2 && ext[n] == Sent(Data) && !(200 <= code <= 299)
    && if ext[n + 1] == Got(354) then |ext| >= n + 4 && ext[n + 2] == Sent(Body) && ext[n + 3] == Got(code)
       else ext[n + 1] == Got(code)
  }

  /** The reply with this code turned the message down. */
  ghost predicate TurnedDown(ext: seq<Event>, rcpts: seq<string>, code: nat) {
    MailRefused(ext, code) || (exists k :: RcptRefused(ext, rcpts, k, code)) || DataRefused(ext, rcpts, code)
  }

  /**
    The result by the codes on the wire: deferred on a 4yz refusal, bounced on any other, delivered when nothing was
    refused, and none of these when the conversation broke off.
  */
  ghost predicate FitsCodes(r: Result, ext: seq<Event>, rcpts: seq<string>) {
    && (r == Done(Delivered) <==> Accepted(ext, rcpts))
    && (r == Done(Deferred) <==> exists code: nat :: 400 <= code < 500 && TurnedDown(ext, rcpts, code))
    && (r == Done(Bounced) <==> exists code: nat :: !(400 <= code < 500) && TurnedDown(ext, rcpts, code))
  }

  /** At most one code turns a message down, and then it was not accepted. */
  lemma TurnedDownOnce(ext: seq<Event>, rcpts: seq<string>, a: nat, b: nat)
    requires TurnedDown(ext, rcpts, a)
    ensures TurnedDown(ext, rcpts, b) ==> a == b
    ensures !Accepted(ext, rcpts)
  {
  }

  /** The conversation broke off after some recipients had been accepted: nothing decided. */
  lemma BrokenOff(ext: seq<Event>, rcpts: seq<string>, k: nat, code: nat)
    requires k < |rcpts| && TakenUpTo(ext, rcpts, k)
    requires (|ext| == 3 + 2 * k && ext[2 + 2 * k].WriteFailed?) || (|ext| == 4 + 2 * k && ext[3 + 2 * k].ReadFailed?)
    ensures !TurnedDown(ext, rcpts, code) && !Accepted(ext, rcpts)
  {
  }

  lemma RefusalFits(r: Reply, ext: seq<Event>, rcpts: seq<string>)
    requires r.Reply? && TurnedDown(ext, rcpts, r.code) && !Success(r.code)
    ensures FitsCodes(Outcome(r), ext, rcpts)
  {
    forall code: nat | TurnedDown(ext, rcpts, code)
      ensures code == r.code
    {
      TurnedDownOnce(ext, rcpts, r.code, code);
    }
    TurnedDownOnce(ext, rcpts, r.code, r.code);
  }

  lemma SuccessFits(ext: seq<Event>, rcpts: seq<string>)
    requires Accepted(ext, rcpts)
    ensures FitsCodes(Done(Delivered), ext, rcpts)
  {
    forall code: nat
      ensures !TurnedDown(ext, rcpts, code)
    {
      if TurnedDown(ext, rcpts, code) {
        TurnedDownOnce(ext, rcpts, code, code);
      }
    }
  }

  /** A conforming server never answers DATA with a 2xx code (section 4.3.2 of RFC 5321). */
  ghost predicate ConformsOnData(ext: seq<Event>) {
    forall i :: 0 <= i < |ext| - 1 && ext[i] == Sent(Data) && ext[i + 1].Got? ==> !Success(ext[i + 1].code)
  }

  /** What happened at step `i` is what the server, the network and the handshake do there. */
  ghost predicate Happens(server: Server, i: nat, v: Event) {
    match v
    case Sent(_) => server.writeOk(i)
    case WriteFailed => !server.writeOk(i)
    case Got(code) => server.reply(i).Reply? && server.reply(i).code == code
    case ReadFailed => server.reply(i).NoReply?
    case Handshake(ok) => server.tlsOk(i) == ok
  }

  /** The message itself is only ever sent in answer to a 354. */
  ghost predicate BodyAfterGo(trace: seq<Event>, i: nat)
    requires i < |trace|
  {
    trace[i] == Sent(Body) ==> i > 0 && trace[i - 1] == Got(354)
  }

  /** The trace is one that this server can produce, and the body is sent only when asked for. */
  ghost predicate Faithful(server: Server, trace: seq<Event>) {
    forall i :: 0 <= i < |trace| ==> Happens(server, i, trace[i]) && BodyAfterGo(trace, i)
  }

  lemma FaithfulSnoc(server: Server, trace: seq<Event>, v: Event)
    requires Faithful(server, trace) && Happens(server, |trace|, v)
    requires v == Sent(Body) ==> trace != [] && trace[|trace| - 1] == Got(354)
    ensures Faithful(server, trace + [v])
  {
    var t := trace + [v];
    forall i | 0 <= i < |t|
      ensures Happens(server, i, t[i]) && BodyAfterGo(t, i)
    {
      if i < |trace| {
        assert t[i] == trace[i] && BodyAfterGo(trace, i);
      }
    }
  }

  /** Something went wrong here: a broken connection, a failed handshake or a refusal. */
  predicate Breaks(v: Event) {
    v.WriteFailed? || v.ReadFailed? || v == Handshake(false) || (v.Got? && !Success(v.code))
  }

  /** The result is that of a reply read from step `n` on, or a failure after something went wrong there. */
  ghost predicate Reason(trace: seq<Event>, n: nat, r: Result) {
    match r
    case Done(v) => exists i :: n <= i < |trace| && trace[i].Got? && Classify(trace[i].code) == v
    case Failed => exists i :: n <= i < |trace| && Breaks(trace[i])
  }

  function Outcome(r: Reply): Result {
    if r.NoReply? then Failed else Done(Classify(r.code))
  }

  lemma ReasonKept(t: seq<Event>, t': seq<Event>, n: nat, n': nat, r: Result)
    requires t <= t' && n' <= n && Reason(t, n, r)
    ensures Reason(t', n', r)
  {
    match r {
      case Done(v) =>
        var i :| n <= i < |t| && t[i].Got? && Classify(t[i].code) == v;
        assert t'[i] == t[i];
      case Failed =>
        var i :| n <= i < |t| && Breaks(t[i]);
        assert t'[i] == t[i];
    }
  }

  lemma AskedReason(t: seq<Event>, t': seq<Event>, c: Command, r: Reply)
    requires Asked(t, t', c, r)
    ensures t <= t' && Reason(t', |t|, Outcome(r))
    ensures r.Reply? && !Success(r.code) ==> Reason(t', |t|, Failed)
  {
    var last := |t'| - 1;
    assert r.NoReply? ==> Breaks(t'[last]);
    assert r.Reply? ==> t'[last] == Got(r.code);
  }

  lemma DataReason(t: seq<Event>, t': seq<Event>, r: Reply)
    requires DataTail(t, t', r)
    ensures t <= t' && Reason(t', |t|, Outcome(r))
  {
    var last := |t'| - 1;
    assert r.NoReply? ==> Breaks(t'[last]);
    assert r.Reply? ==> t'[last] == Got(r.code);
  }

  class Conversation {
    const server: Server
    ghost var trace: seq<Event>
    var steps: nat

    ghost predicate Valid()
      reads this
    {
      steps == |trace| && Faithful(server, trace)
    }

    constructor (server: Server)
      ensures Valid() && this.server == server && trace == []
    {
      this.server := server;
      trace, steps := [], 0;
    }

    method Read() returns (r: Reply)
      requires Valid()
      modifies this
      ensures Valid() && r == server.reply(old(steps))
      ensures trace == old(trace) + [if r.Reply? then Got(r.code) else ReadFailed]
      ensures Disciplined(trace) <==> Disciplined(old(trace)) && Owed(old(trace)) > 0
      ensures Owed(trace) == Owed(old(trace)) - 1
    {
      r := server.reply(steps);
      ghost var v := if r.Reply? then Got(r.code) else ReadFailed;
      FaithfulSnoc(server, trace, v);
      OwedSnoc(trace, v);
      DisciplinedSnoc(trace, v);
      trace, steps := trace + [v], steps + 1;
    }

    method Write(c: Command) returns (ok: bool)
      requires Valid() && (c == Body ==> trace != [] && trace[|trace| - 1] == Got(354))
      modifies this
      ensures Valid() && ok == server.writeOk(old(steps))
      ensures trace == old(trace) + [if ok then Sent(c) else WriteFailed]
      ensures Disciplined(trace) <==> Disciplined(old(trace))
      ensures Owed(trace) == Owed(old(trace)) + if ok then 1 else 0
    {
      ok := server.writeOk(steps);
      ghost var v := if ok then Sent(c) else WriteFailed;
      FaithfulSnoc(server, trace, v);
      OwedSnoc(trace, v);
      DisciplinedSnoc(trace, v);
      trace, steps := trace + [v], steps + 1;
    }

    /** `command`: send a line and read the reply to it. */
    method Ask(c: Command) returns (r: Reply)
      requires Valid() && Disciplined(trace) && Owed(trace) == 0 && c != Body
      modifies this
      ensures Valid() && Disciplined(trace) && Owed(trace) == 0
      ensures Asked(old(trace), trace, c, r)
      ensures r.Reply? ==> r == server.reply(old(steps) + 1)
    {
      var ok := Write(c);
      if !ok { return NoReply; }
      r := Read();
    }

    method UpgradeTls() returns (ok: bool)
      requires Valid()
      modifies this
      ensures Valid() && trace == old(trace) + [Handshake(ok)]
      ensures Disciplined(trace) <==> Disciplined(old(trace))
      ensures ok ==> Owed(trace) == 0
    {
      ok := server.tlsOk(steps);
      FaithfulSnoc(server, trace, Handshake(ok));
      OwedSnoc(trace, Handshake(ok));
      DisciplinedSnoc(trace, Handshake(ok));
      trace, steps := trace + [Handshake(ok)], steps + 1;
    }

    /** `data`: the command, and on 354 the message and the reply to it. */
    method SendData() returns (r: Reply)
      requires Valid() && Disciplined(trace) && Owed(trace) == 0
      modifies this
      ensures Valid() && Disciplined(trace) && (r.Reply? ==> Owed(trace) == 0)
      ensures DataTail(old(trace), trace, r)
    {
      var init := Ask(Data);
      if init.NoReply? || init.code != 354 { return init; }
      r := SendBody(old(trace));
    }

    method SendBody(ghost t: seq<Event>) returns (r: Reply)
      requires Valid() && Disciplined(trace) && Owed(trace) == 0 && trace == t + [Sent(Data), Got(354)]
      modifies this
      ensures Valid() && Disciplined(trace) && (r.Reply? ==> Owed(trace) == 0)
      ensures DataTail(t, trace, r)
    {
      var ok := Write(Body);
      if !ok { return NoReply; }
      r := Read();
    }

    /** RCPT for each recipient until one is refused or the connection breaks. */
    method SendRecipients(rcpts: seq<string>) returns (all: bool, last: Reply, ghost k: nat)
      requires Valid() && Disciplined(trace) && Owed(trace) == 0
      modifies this
      ensures Valid() && Disciplined(trace) && Owed(trace) == 0
      ensures all ==> AllTaken(old(trace), trace, rcpts)
      ensures !all ==> StoppedAt(old(trace), trace, rcpts, k, last)
      ensures !all ==> Reason(trace, |old(trace)|, Outcome(last))
    {
      ghost var start := trace;
      for i := 0 to |rcpts|
        invariant Valid() && Disciplined(trace) && Owed(trace) == 0
        invariant AllTaken(start, trace, rcpts[..i])
      {
        ghost var before := trace;
        var reply := Ask(Rcpt(rcpts[i]));
        if reply.NoReply? || !Success(reply.code) {
          StopsHere(start, before, trace, rcpts, i, reply);
          return false, reply, i;
        }
        RcptGo(start, before, trace, rcpts, i, reply.code);
      }
      assert rcpts[..|rcpts|] == rcpts;
      return true, NoReply, 0;
    }

    /**
      `send_message`: delivered exactly when everything was accepted, and otherwise deferred or bounced by the code of
      the first refusal, of MAIL, of a recipient or of the message.
    */
    method SendMessage(rcpts: seq<string>) returns (r: Result)
      requires Valid() && Disciplined(trace) && Owed(trace) == 0
      modifies this
      ensures Valid() && Disciplined(trace) && Quiet(old(trace), trace)
      ensures FitsCodes(r, trace[|old(trace)|..], rcpts) && |trace| > |old(trace)|
      ensures Reason(trace, |old(trace)|, r)
    {
      ghost var t0 := trace;
      var mail := Ask(Mail);
      if mail.NoReply? || !Success(mail.code) {
        MailVerdict(t0, trace, rcpts, mail);
        return Outcome(mail);
      }
      r := SendAfterMail(t0, mail.code, rcpts);
    }

    method SendAfterMail(ghost t0: seq<Event>, ghost code: nat, rcpts: seq<string>) returns (r: Result)
      requires Valid() && Disciplined(trace) && Owed(trace) == 0
      requires trace == t0 + [Sent(Mail), Got(code)] && Success(code)
      modifies this
      ensures Valid() && Disciplined(trace) && Quiet(old(trace), trace)
      ensures FitsCodes(r, trace[|t0|..], rcpts)
      ensures Reason(trace, |t0|, r)
    {
      ghost var t1 := trace;
      ghost var k;
      var all, last;
      all, last, k := SendRecipients(rcpts);
      ghost var t2 := trace;
      if !all {
        if last.Reply? {
          var _ := Ask(Rset);
        }
        RcptFits(t0, t1, t2, trace, rcpts, k, last);
        ReasonKept(t2, trace, |t1|, |t0|, Outcome(last));
        return Outcome(last);
      }
      r := SendAfterRcpt(t0, t1, rcpts);
    }

    method SendAfterRcpt(ghost t0: seq<Event>, ghost t1: seq<Event>, rcpts: seq<string>) returns (r: Result)
      requires Valid() && Disciplined(trace) && Owed(trace) == 0
      requires MailTaken(t0, t1) && AllTaken(t1, trace, rcpts)
      modifies this
      ensures Valid() && Disciplined(trace) && Quiet(old(trace), trace)
      ensures FitsCodes(r, trace[|t0|..], rcpts)
      ensures Reason(trace, |t0|, r)
    {
      ghost var t2 := trace;
      var data := SendData();
      ghost var t3 := trace;
      DataQuiet(t2, t3, data);
      TakeLeave(data);
      DataVerdict(t0, t1, t2, t3, trace, rcpts, data);
      return Outcome(data);
    }

    /** QUIT, unless the connection is gone. */
    method TakeLeave(data: Reply)
      requires Valid() && Disciplined(trace) && (data.Reply? ==> Owed(trace) == 0)
      modifies this
      ensures Valid() && Disciplined(trace) && Quiet(old(trace), trace)
      ensures data.NoReply? ==> trace == old(trace)
    {
      if data.Reply? {
        var _ := Ask(Quit);
      }
    }

    /** Connect and read the greeting. */
    method ReadGreeting() returns (ok: bool)
      requires Valid() && trace == []
      modifies this
      ensures Valid() && Disciplined(trace) && Owed(trace) == 0 && Plaintext(trace)
      ensures if ok then |trace| == 1 && IsSuccess(trace[0]) else Reason(trace, 0, Failed)
    {
      assert Owed([]) == 1 && Disciplined([]);
      var greeting := Read();
      ok := greeting.Reply? && Success(greeting.code);
      assert !ok ==> Breaks(trace[0]);
    }

    /** Read the greeting, introduce ourselves. */
    method Greet() returns (ok: bool, starttls: bool)
      requires Valid() && trace == []
      modifies this
      ensures Valid() && Disciplined(trace) && Plaintext(trace)
      ensures if ok then Owed(trace) == 0 else Reason(trace, 0, Failed)
      ensures ok ==> Introduced(trace) && starttls == OffersTls(server)
    {
      var greeted := ReadGreeting();
      if !greeted { return false, false; }
      ghost var t := trace;
      var hello := Ask(Ehlo);
      AskedKeepsPlain(t, trace, Ehlo, hello);
      AskedReason(t, trace, Ehlo, hello);
      if hello.NoReply? || !Success(hello.code) {
        ReasonKept(trace, trace, |t|, 0, Failed);
        return false, false;
      }
      return true, hello.starttls;
    }

    /** The STARTTLS step and the second EHLO, when the server offers TLS and agrees to start it. */
    method Secure(policy: TlsPolicy, starttls: bool) returns (ready: bool)
      requires Valid() && Disciplined(trace) && Owed(trace) == 0 && Plaintext(trace) && Introduced(trace)
      modifies this
      ensures Valid() && Disciplined(trace) && Prepared(policy, trace, ready)
      ensures ready ==> Owed(trace) == 0
      ensures if ready then Opened(policy, starttls, trace)
              else Reason(trace, 0, Failed) || (policy != Opportunistic && !starttls)
    {
      ghost var t := trace;
      if !starttls { return policy == Opportunistic; }
      var go := Ask(StartTls);
      ghost var t1 := trace;
      AskedKeepsPlain(t, t1, StartTls, go);
      AskedReason(t, t1, StartTls, go);
      if go.NoReply? { return false; }
      if !Success(go.code) {
        StaysPlain(policy, t, t1, go.code);
        return policy == Opportunistic;
      }
      ready := GoSecure(policy, t, go.code);
    }

    /** The handshake and the second EHLO. */
    method GoSecure(policy: TlsPolicy, ghost t: seq<Event>, ghost code: nat) returns (ready: bool)
      requires Valid() && Disciplined(trace) && Owed(trace) == 0 && Plaintext(trace)
      requires Introduced(t) && Success(code) && trace == t + [Sent(StartTls), Got(code)]
      modifies this
      ensures Valid() && Disciplined(trace) && Prepared(policy, trace, ready)
      ensures ready ==> Owed(trace) == 0
      ensures if ready then Opened(policy, true, trace) else Reason(trace, 0, Failed)
    {
      ghost var t1 := trace;
      var up := UpgradeTls();
      if !up {
        FailedPrepared(policy, t1);
        assert Breaks(trace[|t1|]);
        return false;
      }
      ghost var t2 := trace;
      var hello := Ask(Ehlo);
      AskedReason(t2, trace, Ehlo, hello);
      ready := hello.Reply? && Success(hello.code);
      SecuredPrepared(policy, t1, t2, trace, hello, ready);
      SecuredOpened(policy, t, t1, t2, trace, hello);
      if !ready {
        ReasonKept(trace, trace, |t2|, 0, Failed);
      }
    }

    /**
      `try_mx_host`: in every conversation the client waits only for replies that are owed; under a strict
      policy it sends MAIL only after a successful handshake; nothing follows a failed handshake. A message is only
      begun, at `start`, once the conversation has been opened as it should, with TLS whenever the server offers it and
      agrees. From there the codes on the wire decide the verdict, and against a server that conforms on DATA Delivered
      includes the message itself. A failure has a reason in the conversation or in the policy.
    */
    method TryMxHost(policy: TlsPolicy, rcpts: seq<string>) returns (r: Result, ghost start: nat)
      requires Valid() && trace == []
      modifies this
      ensures Valid() && Disciplined(trace)
      ensures policy != Opportunistic ==> MailAfterTls(trace)
      ensures forall i :: 0 <= i < |trace| && trace[i] == Handshake(false) ==> i == |trace| - 1
      ensures start <= |trace| && Sent(Mail) !in trace[..start]
      ensures start < |trace| ==> Opened(policy, OffersTls(server), trace[..start])
      ensures FitsCodes(r, trace[start..], rcpts)
      ensures r == Done(Delivered) && ConformsOnData(trace) ==> BodyAccepted(trace[start..], rcpts)
      ensures Reason(trace, 0, r) || (r == Failed && policy != Opportunistic && !OffersTls(server))
    {
      var ok, starttls := Greet();
      if !ok {
        NoMailSoFar(trace);
        return Failed, |trace|;
      }
      var ready := Secure(policy, starttls);
      start := |trace|;
      if !ready {
        NoMailSoFar(trace);
        return Failed, start;
      }
      ghost var t := trace;
      r := SendMessage(rcpts);
      SentAfter(policy, t, trace);
      assert trace[..start] == t;
      ReasonKept(trace, trace, start, 0, r);
      if r == Done(Delivered) && ConformsOnData(trace) {
        DeliveredMeansSent(trace, start, rcpts);
      }
    }

    /**
      A server that answers everything with 250, DATA included, is told nothing but reported as delivered: the client
      never sends it the message.
    */
    method DeliverToYesMan(rcpts: seq<string>) returns (r: Result)
      requires Valid() && trace == [] && AlwaysYes(server)
      modifies this
      ensures r == Done(Delivered) && Sent(Body) !in trace
    {
      ghost var start;
      r, start := TryMxHost(Opportunistic, rcpts);
      YesMeansDelivered(server, trace, r);
    }

    /**
      The relay path after STARTTLS opens the connection anew and reads a greeting: as soon as the handshake
      succeeds it waits for a reply that no conforming server sends.
    */
    method RelayUpgrade() returns (ok: bool)
      requires Valid() && trace == []
      modifies this
      ensures Valid()
      ensures Disciplined(trace) <==> Handshake(true) !in trace
    {
      var greeted, starttls := Greet();
      if !greeted || !starttls { return false; }
      var go := Ask(StartTls);
      if go.NoReply? || !Success(go.code) { return false; }
      var up := UpgradeTls();
      if !up { return false; }
      ghost var t := trace;
      assert t[|t| - 1] == Handshake(true);
      var greeting := Read();
      assert trace[|t| - 1] == Handshake(true);
      return greeting.Reply? && Success(greeting.code);
    }
  }

  // ----- shapes of the stretches

  /** No TLS step and no MAIL. */
  ghost predicate Plaintext(trace: seq<Event>) {
    forall i :: 0 <= i < |trace| ==> !trace[i].Handshake? && trace[i] != Sent(Mail)
  }

  /** The conversation went on without a TLS step. */
  ghost predicate Quiet(t: seq<Event>, t': seq<Event>) {
    t <= t' && forall i :: |t| <= i < |t'| ==> !t'[i].Handshake?
  }

  /** One command and what came of it. */
  ghost predicate Asked(t: seq<Event>, t': seq<Event>, c: Command, r: Reply) {
    match r
    case Reply(code, _) => t' == t + [Sent(c), Got(code)]
    case NoReply => t' == t + [WriteFailed] || t' == t + [Sent(c), ReadFailed]
  }

  ghost predicate DataTail(t: seq<Event>, t': seq<Event>, r: Reply) {
    || (t' == t + [WriteFailed] && r.NoReply?)
    || (t' == t + [Sent(Data), ReadFailed] && r.NoReply?)
    || (r.Reply? && r.code != 354 && t' == t + [Sent(Data), Got(r.code)])
    || (t' == t + [Sent(Data), Got(354), WriteFailed] && r.NoReply?)
    || (t' == t + [Sent(Data), Got(354), Sent(Body), ReadFailed] && r.NoReply?)
    || (r.Reply? && t' == t + [Sent(Data), Got(354), Sent(Body), Got(r.code)])
  }

  /** After `t` exactly these recipients were offered, in order, and accepted. */
  ghost predicate AllTaken(t: seq<Event>, t': seq<Event>, rcpts: seq<string>) {
    && Quiet(t, t') && |t'| == |t| + 2 * |rcpts|
    && forall i :: 0 <= i < |rcpts| ==> Taken(t', |t| + 2 * i, rcpts[i])
  }

  ghost predicate Taken(t: seq<Event>, at: int, r: string) {
    0 <= at < |t| - 1 && t[at] == Sent(Rcpt(r)) && IsSuccess(t[at + 1])
  }

  /** The first `k` recipients were accepted, and the conversation stopped at the next one. */
  ghost predicate StoppedAt(t: seq<Event>, t': seq<Event>, rcpts: seq<string>, k: nat, last: Reply) {
    && Quiet(t, t') && k < |rcpts| && |t| + 2 * k <= |t'|
    && AllTaken(t, t'[..|t| + 2 * k], rcpts[..k])
    && Asked(t'[..|t| + 2 * k], t', Rcpt(rcpts[k]), last)
    && (last.Reply? ==> !Success(last.code))
  }

  lemma RcptGo(t: seq<Event>, b: seq<Event>, t': seq<Event>, rcpts: seq<string>, i: nat, code: nat)
    requires i < |rcpts| && AllTaken(t, b, rcpts[..i]) && Success(code)
    requires t' == b + [Sent(Rcpt(rcpts[i])), Got(code)]
    ensures AllTaken(t, t', rcpts[..i + 1])
  {
    var rs := rcpts[..i + 1];
    forall k | 0 <= k < |rs|
      ensures Taken(t', |t| + 2 * k, rs[k])
    {
      if k < i {
        assert rcpts[..i][k] == rs[k];
        assert Taken(b, |t| + 2 * k, rs[k]);
      }
    }
  }

  lemma StopsHere(t: seq<Event>, b: seq<Event>, t': seq<Event>, rcpts: seq<string>, k: nat, last: Reply)
    requires k < |rcpts| && AllTaken(t, b, rcpts[..k]) && Asked(b, t', Rcpt(rcpts[k]), last)
    requires last.Reply? ==> !Success(last.code)
    ensures StoppedAt(t, t', rcpts, k, last) && Reason(t', |t|, Outcome(last))
  {
    assert t'[..|b|] == b;
    AskedReason(b, t', Rcpt(rcpts[k]), last);
    ReasonKept(t', t', |b|, |t|, Outcome(last));
  }

  /** MAIL has been accepted in the two steps after `t0`. */
  ghost predicate MailTaken(t0: seq<Event>, t1: seq<Event>) {
    t0 <= t1 && |t1| == |t0| + 2 && t1[|t0|] == Sent(Mail) && IsSuccess(t1[|t0| + 1])
  }

  lemma TakenSoFar(t0: seq<Event>, t1: seq<Event>, b: seq<Event>, t': seq<Event>, rcpts: seq<string>, k: nat)
    requires MailTaken(t0, t1) && k <= |rcpts| && AllTaken(t1, b, rcpts[..k]) && b <= t'
    ensures TakenUpTo(t'[|t0|..], rcpts, k)
  {
    var ext := t'[|t0|..];
    assert ext[0] == t1[|t0|] && ext[1] == t1[|t0| + 1];
    forall i | 0 <= i < k
      ensures ext[2 + 2 * i] == Sent(Rcpt(rcpts[i])) && IsSuccess(ext[3 + 2 * i])
    {
      assert rcpts[..k][i] == rcpts[i];
      assert Taken(b, |t1| + 2 * i, rcpts[i]);
      assert ext[2 + 2 * i] == b[|t1| + 2 * i] && ext[3 + 2 * i] == b[|t1| + 2 * i + 1];
    }
  }

  /** Where a recipient is not accepted, its reply decides, or nothing does. */
  lemma RcptFits(t0: seq<Event>, t1: seq<Event>, t2: seq<Event>, t': seq<Event>, rcpts: seq<string>, k: nat,
                 last: Reply)
    requires MailTaken(t0, t1) && StoppedAt(t1, t2, rcpts, k, last) && t2 <= t' && (last.NoReply? ==> t' == t2)
    ensures FitsCodes(Outcome(last), t'[|t0|..], rcpts)
  {
    var b, ext := t2[..|t1| + 2 * k], t'[|t0|..];
    TakenSoFar(t0, t1, b, t', rcpts, k);
    assert |b| == |t0| + 2 + 2 * k && ext[2 + 2 * k] == t2[|b|];
    if |t2| > |b| + 1 {
      assert ext[3 + 2 * k] == t2[|b| + 1];
    }
    if last.Reply? {
      assert RcptRefused(ext, rcpts, k, last.code);
      RefusalFits(last, ext, rcpts);
    } else {
      forall code: nat
        ensures !TurnedDown(ext, rcpts, code) && !Accepted(ext, rcpts)
      {
        BrokenOff(ext, rcpts, k, code);
      }
    }
  }

  /** What came of DATA, seen from the start of the message. */
  ghost predicate DataEnds(ext: seq<Event>, n: nat, r: Reply) {
    && |ext| > n
    && match r
       case NoReply =>
         || (|ext| == n + 1 && ext[n] == WriteFailed)
         || (|ext| == n + 2 && ext[n] == Sent(Data) && ext[n + 1] == ReadFailed)
         || (|ext| == n + 3 && ext[n + 1] == Got(354) && ext[n + 2] == WriteFailed)
         || (|ext| == n + 4 && ext[n + 1] == Got(354) && ext[n + 3] == ReadFailed)
       case Reply(code, _) =>
         && ext[n] == Sent(Data) && |ext| >= n + 2
         && (|| (code != 354 && ext[n + 1] == Got(code))
             || (|ext| >= n + 4 && ext[n + 1] == Got(354) && ext[n + 2] == Sent(Body) && ext[n + 3] == Got(code)))
  }

  lemma DataEnding(t0: seq<Event>, t2: seq<Event>, t3: seq<Event>, t': seq<Event>, n: nat, data: Reply)
    requires t0 <= t2 && |t2| == |t0| + n && DataTail(t2, t3, data) && t3 <= t' && (data.NoReply? ==> t' == t3)
    ensures DataEnds(t'[|t0|..], n, data)
  {
    var ext := t'[|t0|..];
    assert |t3| > |t2| && ext[n] == t3[|t2|];
    assert |t3| > |t2| + 1 ==> ext[n + 1] == t3[|t2| + 1];
    assert |t3| > |t2| + 2 ==> ext[n + 2] == t3[|t2| + 2];
    assert |t3| > |t2| + 3 ==> ext[n + 3] == t3[|t2| + 3];
  }

  /** Once every recipient is accepted the reply to the data phase decides, or nothing does. */
  lemma DataFits(ext: seq<Event>, rcpts: seq<string>, data: Reply)
    requires TakenUpTo(ext, rcpts, |rcpts|) && DataEnds(ext, 2 + 2 * |rcpts|, data)
    ensures FitsCodes(Outcome(data), ext, rcpts)
  {
    if data.Reply? {
      if Success(data.code) {
        SuccessFits(ext, rcpts);
      } else {
        assert DataRefused(ext, rcpts, data.code);
        RefusalFits(data, ext, rcpts);
      }
    } else {
      forall code: nat
        ensures !TurnedDown(ext, rcpts, code)
      {
      }
    }
  }

  lemma DataQuiet(t: seq<Event>, t': seq<Event>, r: Reply)
    requires DataTail(t, t', r)
    ensures Quiet(t, t')
  {
  }

  lemma DataVerdict(t0: seq<Event>, t1: seq<Event>, t2: seq<Event>, t3: seq<Event>, t': seq<Event>, rcpts: seq<string>,
                    data: Reply)
    requires MailTaken(t0, t1)
    requires AllTaken(t1, t2, rcpts) && DataTail(t2, t3, data) && t3 <= t' && (data.NoReply? ==> t' == t3)
    ensures FitsCodes(Outcome(data), t'[|t0|..], rcpts)
    ensures Reason(t', |t0|, Outcome(data))
  {
    assert rcpts[..|rcpts|] == rcpts;
    TakenSoFar(t0, t1, t2, t', rcpts, |rcpts|);
    DataEnding(t0, t2, t3, t', 2 + 2 * |rcpts|, data);
    DataFits(t'[|t0|..], rcpts, data);
    DataReason(t2, t3, data);
    ReasonKept(t3, t', |t2|, |t0|, Outcome(data));
  }

  lemma MailVerdict(t0: seq<Event>, t1: seq<Event>, rcpts: seq<string>, mail: Reply)
    requires Asked(t0, t1, Mail, mail) && (mail.Reply? ==> !Success(mail.code))
    ensures FitsCodes(Outcome(mail), t1[|t0|..], rcpts)
    ensures Quiet(t0, t1) && |t1| > |t0| && Reason(t1, |t0|, Outcome(mail))
  {
    var ext := t1[|t0|..];
    AskedReason(t0, t1, Mail, mail);
    if mail.Reply? {
      assert MailRefused(ext, mail.code);
      RefusalFits(mail, ext, rcpts);
    } else {
      forall code: nat
        ensures !TurnedDown(ext, rcpts, code)
      {
      }
    }
  }

  /** The greeting and the reply to EHLO were read and both good. */
  ghost predicate Introduced(t: seq<Event>) {
    |t| == 3 && IsSuccess(t[0]) && t[1] == Sent(Ehlo) && IsSuccess(t[2])
  }

  /**
    The ways a conversation gets ready for a message: over TLS, with a second EHLO; in plain text after the server turned
    STARTTLS down; in plain text because it was not offered. The last two only when TLS is opportunistic.
  */
  ghost predicate Opened(policy: TlsPolicy, offered: bool, t: seq<Event>) {
    && |t| >= 3 && Introduced(t[..3])
    && if !offered then |t| == 3 && policy == Opportunistic
       else
         && |t| >= 5 && t[3] == Sent(StartTls) && t[4].Got?
         && if Success(t[4].code)
            then |t| == 8 && t[5] == Handshake(true) && t[6] == Sent(Ehlo) && IsSuccess(t[7])
            else |t| == 5 && policy == Opportunistic
  }

  /** What is known when the conversation is ready for a message, or given up before one. */
  ghost predicate Prepared(policy: TlsPolicy, t: seq<Event>, ready: bool) {
    && Sent(Mail) !in t
    && (ready && policy != Opportunistic ==> Handshake(true) in t)
    && (forall i :: 0 <= i < |t| && t[i] == Handshake(false) ==> !ready && i == |t| - 1)
  }

  lemma AskedKeepsPlain(t: seq<Event>, t': seq<Event>, c: Command, r: Reply)
    requires Plaintext(t) && Asked(t, t', c, r) && c != Mail
    ensures Plaintext(t')
  {
  }

  lemma FailedPrepared(policy: TlsPolicy, t: seq<Event>)
    requires Plaintext(t)
    ensures Prepared(policy, t + [Handshake(false)], false)
  {
  }

  lemma SecuredPrepared(policy: TlsPolicy, t: seq<Event>, t1: seq<Event>, t': seq<Event>, r: Reply, ready: bool)
    requires Plaintext(t) && t1 == t + [Handshake(true)] && Asked(t1, t', Ehlo, r)
    ensures Prepared(policy, t', ready)
  {
    assert t'[|t|] == Handshake(true);
    forall i | 0 <= i < |t'|
      ensures t'[i] != Sent(Mail) && t'[i] != Handshake(false)
    {
      if i < |t| {
        assert t'[i] == t[i];
      }
    }
  }

  lemma StaysPlain(policy: TlsPolicy, t: seq<Event>, t1: seq<Event>, code: nat)
    requires Introduced(t) && t1 == t + [Sent(StartTls), Got(code)] && !Success(code)
    ensures policy == Opportunistic ==> Opened(policy, true, t1)
    ensures Reason(t1, 0, Failed)
  {
    assert t1[..3] == t && Breaks(t1[4]);
  }

  lemma SecuredOpened(policy: TlsPolicy, t: seq<Event>, t1: seq<Event>, t2: seq<Event>, t': seq<Event>, hello: Reply)
    requires Introduced(t) && t2 == t1 + [Handshake(true)] && Asked(t2, t', Ehlo, hello)
    requires |t1| == 5 && t <= t1 && t1[3] == Sent(StartTls) && IsSuccess(t1[4])
    ensures hello.Reply? && Success(hello.code) ==> Opened(policy, true, t')
  {
    assert t'[..3] == t;
  }

  lemma NoMailSoFar(t: seq<Event>)
    requires Sent(Mail) !in t
    ensures MailAfterTls(t)
  {
  }

  lemma SentAfter(policy: TlsPolicy, t: seq<Event>, t': seq<Event>)
    requires Prepared(policy, t, true) && Quiet(t, t')
    ensures policy != Opportunistic ==> MailAfterTls(t')
    ensures forall i :: 0 <= i < |t'| ==> t'[i] != Handshake(false)
  {
    forall i | 0 <= i < |t'|
      ensures t'[i] != Handshake(false) && (t'[i] == Sent(Mail) ==> i >= |t|)
    {
      if i < |t| {
        assert t'[i] == t[i];
      }
    }
    if policy != Opportunistic {
      var h :| 0 <= h < |t| && t[h] == Handshake(true);
      assert t'[h] == Handshake(true);
    }
  }

  /** The message was sent after a 354 and accepted. */
  ghost predicate BodyAccepted(ext: seq<Event>, rcpts: seq<string>) {
    var n := 2 + 2 * |rcpts|;
    |ext| >= n + 4 && ext[n + 1] == Got(354) && ext[n + 2] == Sent(Body) && IsSuccess(ext[n + 3])
  }

  lemma DeliveredMeansSent(trace: seq<Event>, start: nat, rcpts: seq<string>)
    requires start <= |trace| && Accepted(trace[start..], rcpts) && ConformsOnData(trace)
    ensures BodyAccepted(trace[start..], rcpts)
  {
    var n, ext := 2 + 2 * |rcpts|, trace[start..];
    assert ext[n] == trace[start + n] && ext[n + 1] == trace[start + n + 1];
  }

  ghost predicate AlwaysYes(server: Server) {
    forall k: nat :: server.writeOk(k) && server.tlsOk(k) && server.reply(k) == Reply(250, false)
  }

  lemma YesMeansDelivered(server: Server, trace: seq<Event>, r: Result)
    requires AlwaysYes(server) && Faithful(server, trace) && Reason(trace, 0, r)
    ensures r == Done(Delivered) && Sent(Body) !in trace
  {
    forall i | 0 <= i < |trace|
      ensures !Breaks(trace[i]) && trace[i] != Sent(Body)
    {
      assert Happens(server, i, trace[i]) && BodyAfterGo(trace, i);
      if i > 0 {
        assert Happens(server, i - 1, trace[i - 1]);
      }
    }
  }
}
