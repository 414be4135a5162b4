/**
  Bounce reports: the delivery-status part printed by `generate_dsn` in crates/sentio-smtp-client/src/headers.rs
  and read by `extract_fields` in crates/sentio-smtp-server/src/bounce_handler.rs.
*/
module Dsn {
  import opened Basics
  import opened Text

  // ----- reading

  datatype Parsed = Parsed(
    code: Option<nat>,
    enhanced: Option<string>,
    diagnostic: Option<string>,
    recipient: Option<string>)

  const NOTHING: Parsed := Parsed(None, None, None, None)

  /** Put a character in front of the first line. */
  function ConsFirst(c: char, ls: seq<string>): seq<string>
    requires ls != []
  {
    [[c] + ls[0]] + ls[1..]
  }

  /** `split('\n')` */
  function SplitLf(s: string): (r: seq<string>)
    ensures r != []
  {
    if s == [] then [[]]
    else if s[0] == '\n' then [[]] + SplitLf(s[1..])
    else ConsFirst(s[0], SplitLf(s[1..]))
  }

  /** Append one line, its CRs trimmed, to the unfolded lines. */
  function FoldTrimmed(acc: seq<string>, line: string): seq<string> {
    if line == [] then acc + [[]]
    else if (line[0] == ' ' || line[0] == '\t') && acc != [] then
      acc[..|acc| - 1] + [acc[|acc| - 1] + " " + TrimStart(line)]
    else acc + [line]
  }

  function FoldLine(acc: seq<string>, raw: string): seq<string> {
    FoldTrimmed(acc, TrimEndCr(raw))
  }

  function Unfold(lines: seq<string>, acc: seq<string>): seq<string> {
    if lines == [] then acc else Unfold(lines[1..], FoldLine(acc, lines[0]))
  }

  predicate IsDigit(c: char) {
    '0' <= c <= '9'
  }

  function Digit(c: char): nat
    requires IsDigit(c)
  {
    c as int - '0' as int
  }

  /** A three-digit number in the SMTP range stands at `i`, with no digit on either side. */
  predicate CodeAt(s: string, i: int, n: nat) {
    && 0 <= i && i + 3 <= |s| && IsDigit(s[i]) && IsDigit(s[i + 1]) && IsDigit(s[i + 2])
    && (i == 0 || !IsDigit(s[i - 1])) && (i + 3 == |s| || !IsDigit(s[i + 3]))
    && n == Digit(s[i]) * 100 + Digit(s[i + 1]) * 10 + Digit(s[i + 2]) && 200 <= n <= 599
  }

  predicate SomeCodeAt(s: string, i: int) {
    && 0 <= i && i + 3 <= |s| && IsDigit(s[i]) && IsDigit(s[i + 1]) && IsDigit(s[i + 2])
    && CodeAt(s, i, Digit(s[i]) * 100 + Digit(s[i + 1]) * 10 + Digit(s[i + 2]))
  }

  /** The first isolated code from position `i` on. */
  function FirstCodeFrom(s: string, i: nat): Option<nat>
    decreases |s| - i
  {
    if i + 3 > |s| then None
    else if SomeCodeAt(s, i) then Some(Digit(s[i]) * 100 + Digit(s[i + 1]) * 10 + Digit(s[i + 2]))
    else FirstCodeFrom(s, i + 1)
  }

  /** `first_smtp_code`: found at the first place where one stands, or nowhere. */
  method FirstSmtpCode(s: string) returns (r: Option<nat>)
    ensures r == FirstCodeFrom(s, 0)
    ensures match r
            case Some(n) => exists i :: CodeAt(s, i, n) && forall k, m :: 0 <= k < i ==> !CodeAt(s, k, m)
            case None => forall k, m :: !CodeAt(s, k, m)
  {
    var i: nat := 0;
    while i + 3 <= |s|
      invariant FirstCodeFrom(s, i) == FirstCodeFrom(s, 0)
      invariant forall k, m :: 0 <= k < i ==> !CodeAt(s, k, m)
      decreases |s| - i
    {
      if IsDigit(s[i]) && IsDigit(s[i + 1]) && IsDigit(s[i + 2]) {
        var boundary := i == 0 || !IsDigit(s[i - 1]);
        var alone := i + 3 == |s| || !IsDigit(s[i + 3]);
        if boundary && alone {
          var n := Digit(s[i]) * 100 + Digit(s[i + 1]) * 10 + Digit(s[i + 2]);
          if 200 <= n <= 599 {
            assert CodeAt(s, i, n);
            return Some(n);
          }
        }
      }
      i := i + 1;
    }
    return None;
  }

  /** What follows the first semicolon, trimmed; all of it when there is none. */
  function AfterType(value: string): string {
    var parts := SplitOnce(value, ';');
    if parts.Some? then Trim(parts.value.1) else value
  }

  function WithRecipient(out: Parsed, value: string): Parsed {
    var addr := AfterType(value);
    if addr != [] && out.recipient.None? then out.(recipient := Some(addr)) else out
  }

  function WithStatus(out: Parsed, value: string): Parsed {
    if out.enhanced.None? && value != [] then out.(enhanced := Some(value)) else out
  }

  function WithDiagnostic(out: Parsed, value: string): Parsed {
    var body := AfterType(value);
    var out1 := if out.diagnostic.None? && body != [] then out.(diagnostic := Some(body)) else out;
    if out1.code.None? then out1.(code := FirstCodeFrom(body, 0)) else out1
  }

  function TakeNamed(out: Parsed, name: string, value: string): Parsed {
    if name == "final-recipient" then WithRecipient(out, value)
    else if name == "status" then WithStatus(out, value)
    else if name == "diagnostic-code" then WithDiagnostic(out, value)
    else out
  }

  function Take(out: Parsed, line: string): Parsed {
    var parts := SplitOnce(line, ':');
    if parts.None? then out else TakeNamed(out, Lower(Trim(parts.value.0)), Trim(parts.value.1))
  }

  function Scan(lines: seq<string>, out: Parsed): Parsed {
    if lines == [] then out else Scan(lines[1..], Take(out, lines[0]))
  }

  function Extracted(ds: string): Parsed {
    Scan(Unfold(SplitLf(ds), []), NOTHING)
  }

  /** `extract_fields`: unfold, then scan. */
  method ExtractFields(ds: string) returns (out: Parsed)
    ensures out == Extracted(ds)
  {
    var raw := SplitLf(ds);
    var unfolded: seq<string> := [];
    for i := 0 to |raw|
      invariant Unfold(raw[i..], unfolded) == Unfold(raw, [])
    {
      assert raw[i..][1..] == raw[i + 1..];
      var line := TrimEndCr(raw[i]);
      if line == [] {
        unfolded := unfolded + [[]];
      } else if (line[0] == ' ' || line[0] == '\t') && unfolded != [] {
        unfolded := unfolded[..|unfolded| - 1] + [unfolded[|unfolded| - 1] + " " + TrimStart(line)];
      } else {
        unfolded := unfolded + [line];
      }
    }
    out := NOTHING;
    for i := 0 to |unfolded|
      invariant Scan(unfolded[i..], out) == Scan(unfolded, NOTHING)
    {
      assert unfolded[i..][1..] == unfolded[i + 1..];
      assert unfolded[i] == [] ==> SplitOnce(unfolded[i], ':') == None;
      if unfolded[i] != [] {
        out := Take(out, unfolded[i]);
      }
    }
  }

  // ----- folding a line changes nothing

  /** Join two lists of lines at the seam. */
  function Glue(x: seq<string>, y: seq<string>): seq<string>
    requires x != [] && y != []
  {
    x[..|x| - 1] + [x[|x| - 1] + y[0]] + y[1..]
  }

  lemma GlueEmpty(y: seq<string>)
    requires y != []
    ensures Glue([[]], y) == y
  {
    assert [] + y[0] == y[0];
  }

  lemma GlueBreak(x: seq<string>, y: seq<string>)
    requires x != [] && y != []
    ensures Glue([[]] + x, y) == [[]] + Glue(x, y)
  {
    var e: seq<string> := [[]];
    assert (e + x)[..|e + x| - 1] == e + x[..|x| - 1];
    assert (e + x)[|e + x| - 1] == x[|x| - 1];
  }

  lemma GlueCons(c: char, x: seq<string>, y: seq<string>)
    requires x != [] && y != []
    ensures Glue(ConsFirst(c, x), y) == ConsFirst(c, Glue(x, y))
  {
    var cx := ConsFirst(c, x);
    if |x| == 1 {
      assert cx == [[c] + x[0]];
      assert [c] + x[0] + y[0] == [c] + (x[0] + y[0]);
    } else {
      assert cx[..|cx| - 1] == [[c] + x[0]] + x[1..|x| - 1];
      assert cx[|cx| - 1] == x[|x| - 1];
      assert Glue(x, y)[0] == x[0] && Glue(x, y)[1..] == x[1..|x| - 1] + [x[|x| - 1] + y[0]] + y[1..];
    }
  }

  lemma {:induction false} SplitLfConcat(a: string, b: string)
    ensures SplitLf(a + b) == Glue(SplitLf(a), SplitLf(b))
  {
    if a == [] {
      assert a + b == b;
      GlueEmpty(SplitLf(b));
    } else {
      SplitLfConcat(a[1..], b);
      assert (a + b)[1..] == a[1..] + b && (a + b)[0] == a[0];
      if a[0] == '\n' {
        GlueBreak(SplitLf(a[1..]), SplitLf(b));
      } else {
        GlueCons(a[0], SplitLf(a[1..]), SplitLf(b));
      }
    }
  }

  lemma {:induction false} SplitLfOneLine(a: string)
    requires '\n' !in a
    ensures SplitLf(a) == [a]
  {
    if a != [] {
      SplitLfOneLine(a[1..]);
      assert a == [a[0]] + a[1..];
    }
  }

  lemma {:induction false} SplitLfLast(a: string)
    requires a != [] && a[|a| - 1] != '\n'
    ensures var l := SplitLf(a)[|SplitLf(a)| - 1]; l != [] && l[|l| - 1] == a[|a| - 1]
  {
    var init, last := a[..|a| - 1], [a[|a| - 1]];
    assert a == init + last;
    SplitLfConcat(init, last);
    SplitLfOneLine(last);
  }

  lemma SplitLfFirst(a: string)
    requires a != [] && a[0] != '\n'
    ensures SplitLf(a)[0] != [] && SplitLf(a)[0][0] == a[0]
  {
  }

  lemma {:induction false} UnfoldConcat(a: seq<string>, b: seq<string>, acc: seq<string>)
    ensures Unfold(a + b, acc) == Unfold(b, Unfold(a, acc))
    decreases |a|
  {
    if a == [] {
      assert a + b == b;
    } else {
      UnfoldConcat(a[1..], b, FoldLine(acc, a[0]));
      assert (a + b)[1..] == a[1..] + b && (a + b)[0] == a[0];
    }
  }

  lemma {:induction false} AllWhiteTrims(w: string, x: string)
    requires (forall i :: 0 <= i < |w| ==> IsWhite(w[i])) && x != [] && !IsWhite(x[0])
    ensures TrimStart(w + x) == x
  {
    TrimStartConcat(w, x);
  }

  /** One logical line, broken at a space: the two raw lines unfold to what the one unfolds to. */
  lemma FoldedLine(acc: seq<string>, l: string, w: string, p: string)
    requires l != [] && !IsWhite(l[|l| - 1]) && p != [] && !IsWhite(p[0])
    requires w != [] && (w[0] == ' ' || w[0] == '\t') && forall i :: 0 <= i < |w| ==> IsWhite(w[i])
    ensures FoldLine(FoldLine(acc, l + "\r"), w + p) == FoldLine(acc, l + " " + p)
  {
    var q := TrimEndCr(p);
    TrimEndCrConcat(l, "\r");
    assert TrimEndCr("\r") == [] by { assert "\r"[..0] == []; }
    assert l + [] == l;
    TrimEndCrKeepsFirst(p);
    CrOnlyAfter(w, p);
    CrOnlyAfter(l + " ", p);
    FoldedTrimmed(acc, l, w, q);
  }

  lemma FoldedTrimmed(acc: seq<string>, l: string, w: string, q: string)
    requires l != [] && !IsWhite(l[|l| - 1]) && q != [] && !IsWhite(q[0])
    requires w != [] && (w[0] == ' ' || w[0] == '\t') && forall i :: 0 <= i < |w| ==> IsWhite(w[i])
    ensures FoldTrimmed(FoldTrimmed(acc, l), w + q) == FoldTrimmed(acc, l + " " + q)
  {
    AllWhiteTrims(w, q);
    var first := FoldTrimmed(acc, l);
    assert first != [] && (w + q)[0] == w[0];
    var n := |first| - 1;
    assert FoldTrimmed(first, w + q) == first[..n] + [first[n] + " " + q];
    if (l[0] == ' ' || l[0] == '\t') && acc != [] {
      TrimStartKeepsTail(l, " " + q);
      assert l + " " + q == l + (" " + q);
      assert first[n] + " " + q == acc[n] + " " + (TrimStart(l) + (" " + q));
      assert first[..n] == acc[..n];
    } else {
      assert first[..n] == acc && first[n] == l;
    }
  }

  lemma TrimEndCrKeepsFirst(p: string)
    requires p != [] && !IsWhite(p[0])
    ensures TrimEndCr(p) != [] && TrimEndCr(p)[0] == p[0]
  {
    TrimEndCrConcat([p[0]], p[1..]);
    assert p == [p[0]] + p[1..];
  }

  lemma CrOnlyAfter(w: string, p: string)
    requires p != [] && !IsWhite(p[0])
    ensures TrimEndCr(w + p) == w + TrimEndCr(p)
  {
    TrimEndCrConcat([p[0]], p[1..]);
    TrimEndCrConcat(w + [p[0]], p[1..]);
    assert p == [p[0]] + p[1..];
    assert w + p == w + [p[0]] + p[1..];
    assert w + ([p[0]] + TrimEndCr(p[1..])) == w + [p[0]] + TrimEndCr(p[1..]);
  }

  /** White space in front of a text that ends in something else is independent of what follows. */
  lemma {:induction false} TrimStartKeepsTail(l: string, x: string)
    requires l != [] && !IsWhite(l[|l| - 1])
    ensures TrimStart(l + x) == TrimStart(l) + x
  {
    if IsWhite(l[0]) {
      TrimStartKeepsTail(l[1..], x);
      assert (l + x)[1..] == l[1..] + x;
    }
  }

  /**
    Replacing a single space between two other characters by CRLF and white space leaves everything that is
    extracted unchanged, in any delivery-status text.
  */
  lemma FoldingInvariant(pre: string, w: string, post: string)
    requires pre != [] && !IsWhite(pre[|pre| - 1]) && post != [] && !IsWhite(post[0])
    requires w != [] && (w[0] == ' ' || w[0] == '\t') && '\n' !in w && forall i :: 0 <= i < |w| ==> IsWhite(w[i])
    ensures Extracted(pre + "\r\n" + w + post) == Extracted(pre + " " + post)
  {
    var x, y := SplitLf(pre), SplitLf(post);
    SplitLfLast(pre);
    SplitLfFirst(post);
    var init, l, p, rest := x[..|x| - 1], x[|x| - 1], y[0], y[1..];
    PlainLines(pre, " ", post, init, l, p, rest);
    FoldedLines(pre, w, post, init, l, p, rest);
    UnfoldsAlike(init, l, w, p, rest);
  }

  lemma UnfoldsAlike(init: seq<string>, l: string, w: string, p: string, rest: seq<string>)
    requires l != [] && !IsWhite(l[|l| - 1]) && p != [] && !IsWhite(p[0])
    requires w != [] && (w[0] == ' ' || w[0] == '\t') && forall i :: 0 <= i < |w| ==> IsWhite(w[i])
    ensures Unfold(init + ([l + "\r", w + p] + rest), []) == Unfold(init + ([l + " " + p] + rest), [])
  {
    var acc := Unfold(init, []);
    UnfoldConcat(init, [l + " " + p] + rest, []);
    UnfoldConcat([l + " " + p], rest, acc);
    UnfoldOne(l + " " + p, acc);
    UnfoldConcat(init, [l + "\r", w + p] + rest, []);
    UnfoldConcat([l + "\r", w + p], rest, acc);
    UnfoldTwo(l + "\r", w + p, acc);
    FoldedLine(acc, l, w, p);
  }

  lemma UnfoldOne(a: string, acc: seq<string>)
    ensures Unfold([a], acc) == FoldLine(acc, a)
  {
    assert [a][1..] == [];
  }

  lemma UnfoldTwo(a: string, b: string, acc: seq<string>)
    ensures Unfold([a, b], acc) == FoldLine(FoldLine(acc, a), b)
  {
    assert [a, b][1..] == [b];
    UnfoldOne(b, FoldLine(acc, a));
  }

  lemma PlainLines(pre: string, mid: string, post: string, init: seq<string>, l: string, p: string, rest: seq<string>)
    requires SplitLf(pre) == init + [l] && SplitLf(post) == [p] + rest && '\n' !in mid
    ensures SplitLf(pre + mid + post) == init + ([l + mid + p] + rest)
  {
    SplitLfOneLine(mid);
    SplitLfConcat(pre, mid);
    assert SplitLf(pre + mid) == init + [l + mid];
    SplitLfConcat(pre + mid, post);
  }

  lemma SplitEnded(a: string)
    ensures SplitLf(a + "\n") == SplitLf(a) + [[]]
  {
    var x := SplitLf(a);
    assert "\n"[1..] == "";
    assert SplitLf("\n") == [[]] + [[]];
    SplitLfConcat(a, "\n");
    assert x[|x| - 1] + [] == x[|x| - 1];
  }

  /** A line break separates the lines before it from those after it. */
  lemma SplitBreak(a: string, b: string)
    ensures SplitLf(a + "\n" + b) == SplitLf(a) + SplitLf(b)
  {
    var x, y := SplitLf(a), SplitLf(b);
    SplitEnded(a);
    SplitLfConcat(a + "\n", b);
    GlueAtEnd(x, [], y);
    assert [] + y[0] == y[0];
    assert x + [y[0]] + y[1..] == x + y;
  }

  lemma GlueAtEnd(init: seq<string>, l: string, y: seq<string>)
    requires y != []
    ensures Glue(init + [l], y) == init + [l + y[0]] + y[1..]
  {
    assert (init + [l])[..|init|] == init;
  }

  lemma FoldedLines(pre: string, w: string, post: string, init: seq<string>, l: string, p: string, rest: seq<string>)
    requires SplitLf(pre) == init + [l] && SplitLf(post) == [p] + rest && '\n' !in w
    ensures SplitLf(pre + "\r\n" + w + post) == init + ([l + "\r", w + p] + rest)
  {
    assert pre + "\r\n" + w + post == (pre + "\r") + "\n" + (w + post);
    SplitBreak(pre + "\r", w + post);
    SplitLfOneLine("\r");
    SplitLfConcat(pre, "\r");
    GlueAtEnd(init, l, ["\r"]);
    SplitLfOneLine(w);
    SplitLfConcat(w, post);
    GlueAtEnd([], w, [p] + rest);
    assert [] + [w] == [w];
    JoinLines(init, l + "\r", w + p, rest);
  }

  lemma JoinLines(init: seq<string>, a: string, b: string, rest: seq<string>)
    ensures (init + [a] + []) + ([] + [b] + rest) == init + ([a, b] + rest)
  {
  }

  // ----- printing

  datatype Report = Report(
    reportingMta: string,
    envid: Option<string>,
    arrival: string,
    rcpts: seq<string>,
    orcpt: map<string, string>,
    bounce: BounceClass,
    remoteMta: Option<string>,
    response: string)

  function StatusCode(b: BounceClass): string {
    match b
    case Hard => "5.0.0"
    case Block => "5.7.1"
    case Soft => "4.0.0"
  }

  function ActionWord(b: BounceClass): string {
    if b.Soft? then "delayed" else "failed"
  }

  function OptionalLine(name: string, v: Option<string>): seq<string> {
    if v.Some? then [name + v.value] else []
  }

  function HeadLines(p: Report): seq<string> {
    ["Reporting-MTA: dns; " + p.reportingMta] + OptionalLine("Original-Envelope-Id: ", p.envid)
    + ["Arrival-Date: " + p.arrival, ""]
  }

  function RcptLines(p: Report, r: string): seq<string> {
    OptionalLine("Original-Recipient: ", if r in p.orcpt then Some(p.orcpt[r]) else None)
    + ["Final-Recipient: rfc822; " + r, "Action: " + ActionWord(p.bounce), "Status: " + StatusCode(p.bounce)]
    + OptionalLine("Remote-MTA: dns; ", p.remoteMta)
    + ["Diagnostic-Code: smtp; " + p.response, ""]
  }

  function AllRcptLines(p: Report, rs: seq<string>): seq<string> {
    if rs == [] then [] else RcptLines(p, rs[0]) + AllRcptLines(p, rs[1..])
  }

  function Printed(lines: seq<string>): string {
    if lines == [] then [] else lines[0] + "\r\n" + Printed(lines[1..])
  }

  function StatusPart(p: Report): string {
    Printed(HeadLines(p) + AllRcptLines(p, p.rcpts))
  }

  lemma {:induction false} PrintedConcat(a: seq<string>, b: seq<string>)
    ensures Printed(a + b) == Printed(a) + Printed(b)
  {
    if a == [] {
      assert a + b == b;
    } else {
      PrintedConcat(a[1..], b);
      assert (a + b)[1..] == a[1..] + b && (a + b)[0] == a[0];
    }
  }

  lemma PrintedOne(l: string)
    ensures Printed([l]) == l + "\r\n"
  {
    assert [l][1..] == [];
    assert Printed([]) == [];
  }

  /** The delivery-status part of `generate_dsn`, appended piece by piece. */
  method GenerateStatusPart(p: Report) returns (msg: string)
    ensures msg == StatusPart(p)
  {
    msg := GenerateHead(p);
    PrintedConcat(HeadLines(p), AllRcptLines(p, p.rcpts));
    assert p.rcpts[0..] == p.rcpts;
    for i := 0 to |p.rcpts|
      invariant msg + Printed(AllRcptLines(p, p.rcpts[i..])) == StatusPart(p)
    {
      assert p.rcpts[i..][1..] == p.rcpts[i + 1..];
      PrintedConcat(RcptLines(p, p.rcpts[i]), AllRcptLines(p, p.rcpts[i + 1..]));
      var block := GenerateRecipient(p, p.rcpts[i]);
      msg := msg + block;
    }
  }

  method GenerateHead(p: Report) returns (msg: string)
    ensures msg == Printed(HeadLines(p))
  {
    msg := PushLine([], [], "Reporting-MTA: dns; " + p.reportingMta);
    ghost var lines := ["Reporting-MTA: dns; " + p.reportingMta];
    if p.envid.Some? {
      msg := PushLine(msg, lines, "Original-Envelope-Id: " + p.envid.value);
      lines := lines + ["Original-Envelope-Id: " + p.envid.value];
    }
    msg := PushLine(msg, lines, "Arrival-Date: " + p.arrival);
    msg := PushLine(msg, lines + ["Arrival-Date: " + p.arrival], "");
    assert lines + ["Arrival-Date: " + p.arrival] + [""] == HeadLines(p);
  }

  method PushLine(msg: string, ghost lines: seq<string>, l: string) returns (r: string)
    requires msg == Printed(lines)
    ensures r == Printed(lines + [l])
  {
    r := msg + l + "\r\n";
    PrintedConcat(lines, [l]);
    PrintedOne(l);
  }

  method GenerateRecipient(p: Report, rcpt: string) returns (msg: string)
    ensures msg == Printed(RcptLines(p, rcpt))
  {
    ghost var lines: seq<string> := [];
    msg := [];
    if rcpt in p.orcpt {
      msg := PushLine(msg, lines, "Original-Recipient: " + p.orcpt[rcpt]);
      lines := lines + ["Original-Recipient: " + p.orcpt[rcpt]];
    }
    msg := PushLine(msg, lines, "Final-Recipient: rfc822; " + rcpt);
    lines := lines + ["Final-Recipient: rfc822; " + rcpt];
    msg := PushLine(msg, lines, "Action: " + ActionWord(p.bounce));
    lines := lines + ["Action: " + ActionWord(p.bounce)];
    msg := PushLine(msg, lines, "Status: " + StatusCode(p.bounce));
    lines := lines + ["Status: " + StatusCode(p.bounce)];
    if p.remoteMta.Some? {
      msg := PushLine(msg, lines, "Remote-MTA: dns; " + p.remoteMta.value);
      lines := lines + ["Remote-MTA: dns; " + p.remoteMta.value];
    }
    msg := PushLine(msg, lines, "Diagnostic-Code: smtp; " + p.response);
    lines := lines + ["Diagnostic-Code: smtp; " + p.response];
    msg := PushLine(msg, lines, "");
    assert lines + [""] == RcptLines(p, rcpt);
  }
}
