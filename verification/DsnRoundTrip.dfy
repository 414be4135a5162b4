/** Reading a printed report gives back what was printed: exactly when, and what no response can change. */
module DsnRoundTrip {
  import opened Basics
  import opened Text
  import opened Dsn
  import opened DsnFields
  import opened DsnFolding

  /** The first recipient that is not blank. */
  function FirstRecipient(rs: seq<string>): Option<string> {
    if rs == [] then None else if Trim(rs[0]) != [] then Some(Trim(rs[0])) else FirstRecipient(rs[1..])
  }

  /** What the reader is expected to find. */
  function Expected(p: Report): Parsed {
    if p.rcpts == [] then NOTHING
    else
      var body := Trim(p.response);
      Parsed(FirstCodeFrom(body, 0), Some(StatusCode(p.bounce)), if body == [] then None else Some(body),
             FirstRecipient(p.rcpts))
  }

  // ----- one recipient

  function BeforeDiagnostic(p: Report, r: string): seq<string> {
    OptionalLine("Original-Recipient: ", if r in p.orcpt then Some(p.orcpt[r]) else None)
    + ["Final-Recipient: rfc822; " + r, "Action: " + ActionWord(p.bounce), "Status: " + StatusCode(p.bounce)]
    + OptionalLine("Remote-MTA: dns; ", p.remoteMta)
  }

  /** What the lines of a recipient before its diagnostic add. */
  function Named(out: Parsed, p: Report, r: string): Parsed {
    var out1 := AddRecipient(out, Trim(r));
    if out1.enhanced.None? then out1.(enhanced := Some(StatusCode(p.bounce))) else out1
  }

  lemma BeforeNames(out: Parsed, p: Report, r: string)
    ensures ScanRaw(BeforeDiagnostic(p, r), out) == Named(out, p, r)
  {
    NameOriginalRecipient();
    NameRemoteMta();
    var a := OptionalLine("Original-Recipient: ", if r in p.orcpt then Some(p.orcpt[r]) else None);
    var b := ["Final-Recipient: rfc822; " + r, "Action: " + ActionWord(p.bounce), "Status: " + StatusCode(p.bounce)];
    var c := OptionalLine("Remote-MTA: dns; ", p.remoteMta);
    OptionalOther(out, "Original-Recipient", "Original-Recipient: ", if r in p.orcpt then Some(p.orcpt[r]) else None);
    MiddleLines(out, p, r);
    OptionalOther(ScanRaw(b, out), "Remote-MTA", "Remote-MTA: dns; ", p.remoteMta);
    ScanRawConcat(a + b, c, out);
    ScanRawConcat(a, b, out);
  }

  lemma BeforeOneLiners(p: Report, r: string)
    requires SingleLine(p) && '\n' !in r
    ensures OneLiners(BeforeDiagnostic(p, r))
  {
    var a := OptionalLine("Original-Recipient: ", if r in p.orcpt then Some(p.orcpt[r]) else None);
    var b := ["Final-Recipient: rfc822; " + r, "Action: " + ActionWord(p.bounce), "Status: " + StatusCode(p.bounce)];
    var c := OptionalLine("Remote-MTA: dns; ", p.remoteMta);
    OneLinersConcat(a, b);
    OneLinersConcat(a + b, c);
  }

  lemma ScanLogicalOne(l: string, out: Parsed)
    ensures ScanLogical([l], out) == Scan(Logical(l), out)
  {
    assert [l][1..] == [];
  }

  /** A recipient's block: its fields, then its diagnostic. */
  lemma BlockIs(p: Report, r: string, out: Parsed)
    requires SingleLine(p) && '\n' !in r
    ensures ScanLogical(RcptLines(p, r), out) == Scan(Logical(DIAGNOSTIC + p.response), Named(out, p, r))
  {
    var a, d := BeforeDiagnostic(p, r), DIAGNOSTIC + p.response;
    var out1 := Named(out, p, r);
    BeforeOneLiners(p, r);
    ScanLogicalRaw(a, out);
    BeforeNames(out, p, r);
    assert RcptLines(p, r) == a + ([d] + [""]);
    ScanLogicalConcat(a, [d] + [""], out);
    ScanLogicalConcat([d], [""], out1);
    ScanLogicalOne(d, out1);
    var out2 := Scan(Logical(d), out1);
    ScanLogicalOne("", out2);
    LogicalOne("");
    ScanWhite([TrimEndCr("")], out2);
  }

  // ----- responses that survive

  /** What one recipient's block adds when the response survives. */
  function Seen(out: Parsed, p: Report, r: string): Parsed {
    AddDiagnostic(Named(out, p, r), Trim(p.response))
  }

  lemma BlockSeen(p: Report, r: string, out: Parsed)
    requires SingleLine(p) && '\n' !in r && Survives(p.response)
    ensures ScanLogical(RcptLines(p, r), out) == Seen(out, p, r)
  {
    BlockIs(p, r, out);
    ReadDiagnostic(p.response, Named(out, p, r));
  }

  /** Blocks after the first can only supply a recipient. */
  lemma {:induction false} LaterBlocks(out: Parsed, p: Report, rs: seq<string>)
    requires SingleLine(p) && Survives(p.response) && forall i :: 0 <= i < |rs| ==> '\n' !in rs[i]
    requires out.enhanced.Some? && out.code == FirstCodeFrom(Trim(p.response), 0)
    requires out.diagnostic == if Trim(p.response) == [] then None else Some(Trim(p.response))
    ensures ScanLogical(AllRcptLines(p, rs), out)
            == if out.recipient.Some? then out else out.(recipient := FirstRecipient(rs))
    decreases |rs|
  {
    if rs != [] {
      BlockSeen(p, rs[0], out);
      ScanLogicalConcat(RcptLines(p, rs[0]), AllRcptLines(p, rs[1..]), out);
      LaterBlocks(Seen(out, p, rs[0]), p, rs[1..]);
    }
  }

  lemma AllBlocks(p: Report)
    requires SingleLine(p) && Survives(p.response)
    ensures ScanLogical(AllRcptLines(p, p.rcpts), NOTHING) == Expected(p)
  {
    if p.rcpts != [] {
      var r, rs := p.rcpts[0], p.rcpts[1..];
      BlockSeen(p, r, NOTHING);
      ScanLogicalConcat(RcptLines(p, r), AllRcptLines(p, rs), NOTHING);
      LaterBlocks(Seen(NOTHING, p, r), p, rs);
    }
  }

  // ----- responses that do not

  lemma {:induction false} BlocksCut(p: Report, rs: seq<string>, out: Parsed)
    requires SingleLine(p) && '\n' !in Trim(p.response) && !Survives(p.response)
    requires forall i :: 0 <= i < |rs| ==> '\n' !in rs[i]
    ensures Shorter(out.diagnostic, ScanLogical(AllRcptLines(p, rs), out).diagnostic, |Trim(p.response)|)
    decreases |rs|
  {
    if rs != [] {
      var first, later := RcptLines(p, rs[0]), AllRcptLines(p, rs[1..]);
      BlockIs(p, rs[0], out);
      ReadDiagnostic(p.response, Named(out, p, rs[0]));
      ScanLogicalConcat(first, later, out);
      BlocksCut(p, rs[1..], ScanLogical(first, out));
    }
  }

  // ----- whole reports

  lemma {:induction false} BlocksFlush(p: Report, rs: seq<string>)
    ensures AllFlush(AllRcptLines(p, rs))
    decreases |rs|
  {
    if rs != [] {
      BlocksFlush(p, rs[1..]);
    }
  }

  lemma ExtractBlocks(p: Report)
    requires SingleLine(p)
    ensures Extracted(StatusPart(p)) == ScanLogical(AllRcptLines(p, p.rcpts), NOTHING)
  {
    var head, blocks := HeadLines(p), AllRcptLines(p, p.rcpts);
    HeadOneLiners(p);
    BlocksFlush(p, p.rcpts);
    ExtractLogical(head + blocks);
    ScanLogicalConcat(head, blocks, NOTHING);
    ScanLogicalRaw(head, NOTHING);
    HeadBlock(NOTHING, p);
  }

  /**
    For every report, whatever its response: the reader gets the first recipient that is not blank, the status of the
    bounce class, the trimmed response and its first isolated code if and only if the response survives: trailing
    white space aside, its line breaks lie in its leading white space and every line after the first is indented.
  */
  lemma RoundTripExactly(p: Report)
    requires SingleLine(p)
    ensures Extracted(StatusPart(p)) == Expected(p) <==> p.rcpts == [] || Survives(p.response)
    ensures Extracted(StatusPart(p)).diagnostic == Expected(p).diagnostic <==> p.rcpts == [] || Survives(p.response)
  {
    ExtractBlocks(p);
    if Survives(p.response) || p.rcpts == [] {
      if p.rcpts != [] {
        AllBlocks(p);
      }
    } else if '\n' in Trim(p.response) {
      ExtractedHasNoLf(StatusPart(p));
    } else {
      ReadDiagnostic(p.response, NOTHING);
      BlocksCut(p, p.rcpts, NOTHING);
    }
  }

  /** Responses without a line break survive. */
  lemma OneLineSurvives(response: string)
    requires '\n' !in response
    ensures Survives(response)
  {
    TrimIsPart(response, '\n');
    SplitLfOneLine(TrimEnd(response));
  }

  /** A reply text is not read back whole as soon as some line break has text that is not blank on both sides. */
  lemma SeveralLinesAreCut(p: Report, first: string, others: string)
    requires SingleLine(p) && p.rcpts != [] && p.response == first + "\n" + others
    requires Trim(first) != [] && Trim(others) != []
    ensures Extracted(StatusPart(p)).diagnostic != Expected(p).diagnostic
  {
    SeveralLines(first, others);
    RoundTripExactly(p);
  }

  // ----- what no response can change

  lemma {:induction false} ScanKeeps(lines: seq<string>, out: Parsed)
    ensures out.recipient.Some? ==> Scan(lines, out).recipient == out.recipient
    ensures out.enhanced.Some? ==> Scan(lines, out).enhanced == out.enhanced
    decreases |lines|
  {
    if lines != [] {
      ScanKeeps(lines[1..], Take(out, lines[0]));
    }
  }

  lemma {:induction false} ScanLogicalKeeps(lines: seq<string>, out: Parsed)
    ensures out.recipient.Some? ==> ScanLogical(lines, out).recipient == out.recipient
    ensures out.enhanced.Some? ==> ScanLogical(lines, out).enhanced == out.enhanced
    decreases |lines|
  {
    if lines != [] {
      ScanKeeps(Logical(lines[0]), out);
      ScanLogicalKeeps(lines[1..], Scan(Logical(lines[0]), out));
    }
  }

  /** Whatever the response: the status is right, and so is the recipient when the first one is not blank. */
  lemma FieldsAlwaysRight(p: Report)
    requires SingleLine(p) && p.rcpts != []
    ensures Extracted(StatusPart(p)).enhanced == Some(StatusCode(p.bounce))
    ensures Trim(p.rcpts[0]) != [] ==> Extracted(StatusPart(p)).recipient == Some(Trim(p.rcpts[0]))
  {
    var r := p.rcpts[0];
    var first, later := RcptLines(p, r), AllRcptLines(p, p.rcpts[1..]);
    ExtractBlocks(p);
    ScanLogicalConcat(first, later, NOTHING);
    BlockIs(p, r, NOTHING);
    ScanKeeps(Logical(DIAGNOSTIC + p.response), Named(NOTHING, p, r));
    ScanLogicalKeeps(later, ScanLogical(first, NOTHING));
  }

  /** What a reader finds for each class: a permanent failure, a policy block, or a delay that is still retried. */
  lemma ClassReadBack(p: Report)
    requires SingleLine(p) && p.rcpts != []
    ensures var status, lines := Extracted(StatusPart(p)).enhanced, RcptLines(p, p.rcpts[0]);
            && (p.bounce == Hard <==> status == Some("5.0.0"))
            && (p.bounce == Block <==> status == Some("5.7.1"))
            && (p.bounce == Soft <==> status == Some("4.0.0"))
            && (if p.bounce == Soft then "Action: delayed" else "Action: failed") in lines
  {
    FieldsAlwaysRight(p);
    var lines := RcptLines(p, p.rcpts[0]);
    var k := if p.rcpts[0] in p.orcpt then 2 else 1;
    assert "5.0.0"[0] == '5' && "5.0.0"[2] == '0' && "5.7.1"[2] == '7' && "4.0.0"[0] == '4';
    assert "Action: " + "delayed" == "Action: delayed" && "Action: " + "failed" == "Action: failed";
    assert lines[k] == "Action: " + ActionWord(p.bounce);
  }

  const FIELD: string := "Final-Recipient: rfc822; "

  /** A response of two lines, the second of which reads like a field. */
  function FieldLike(name: string): string {
    "x" + "\n" + (FIELD + name)
  }

  lemma TwoRawLines(a: string, b: string)
    requires '\n' !in a && '\n' !in b
    ensures SplitLf(a + "\n" + b + "\r") == [a, b + "\r"]
  {
    assert a + "\n" + b + "\r" == a + "\n" + (b + "\r");
    SplitBreak(a, b + "\r");
    SplitLfOneLine(a);
    SplitLfOneLine(b + "\r");
  }

  lemma TwoLines(a: string, b: string)
    requires '\n' !in a && '\n' !in b && Flush(a) && a != [] && Flush(b)
    ensures Logical(a + "\n" + b) == [TrimEndCr(a), TrimEndCr(b)]
  {
    TwoRawLines(a, b);
    UnfoldTwo(a, b + "\r", []);
    TrimEndCrKeepsFirst(a);
    assert FoldLine([], a) == [TrimEndCr(a)];
    FoldPrintedLine([TrimEndCr(a)], b);
  }

  lemma Regroup(a: string, b: string, c: string, d: string)
    ensures a + (b + c + d) == a + b + c + d
  {
  }

  lemma FieldLikeLines(name: string)
    requires '\n' !in name
    ensures Logical(DIAGNOSTIC + FieldLike(name)) == [DIAGNOSTIC + "x", TrimEndCr(FIELD + name)]
  {
    FieldFlush(name);
    SecondLine(DIAGNOSTIC, "x", FIELD + name);
  }

  lemma SecondLine(a: string, x: string, b: string)
    requires '\n' !in a + x && '\n' !in b && Flush(a + x) && Flush(b) && x != [] && x[|x| - 1] != '\r'
    ensures Logical(a + (x + "\n" + b)) == [a + x, TrimEndCr(b)]
  {
    Regroup(a, x, "\n", b);
    TwoLines(a + x, b);
    TrimEndCrKept(a + x);
  }

  lemma FieldFlush(name: string)
    requires '\n' !in name
    ensures '\n' !in FIELD + name && Flush(FIELD + name)
    ensures '\n' !in DIAGNOSTIC + "x" && Flush(DIAGNOSTIC + "x") && DIAGNOSTIC + "x" != []
  {
    assert (FIELD + name)[0] == 'F' && (DIAGNOSTIC + "x")[0] == 'D';
    NoLfInName();
  }

  lemma TrimEndCrKept(a: string)
    requires a != [] && a[|a| - 1] != '\r'
    ensures TrimEndCr(a) == a
  {
  }

  lemma MisledRecipient(p: Report, name: string)
    requires SingleLine(p) && p.rcpts != [] && Trim(p.rcpts[0]) == [] && p.response == FieldLike(name)
    requires '\n' !in name && Trim(name) != []
    ensures Extracted(StatusPart(p)).recipient == Some(Trim(name))
  {
    var r, out := p.rcpts[0], Named(NOTHING, p, p.rcpts[0]);
    var a, b := DIAGNOSTIC + "x", TrimEndCr(FIELD + name);
    var first, later := RcptLines(p, r), AllRcptLines(p, p.rcpts[1..]);
    ExtractBlocks(p);
    ScanLogicalConcat(first, later, NOTHING);
    BlockIs(p, r, NOTHING);
    FieldLikeLines(name);
    assert [a, b] == [a] + [b];
    ScanConcat([a], [b], out);
    ScanOne(a, out);
    TakeDiagnostic(out, "x");
    ScanOne(b, Take(out, a));
    RecipientLine(Take(out, a), name);
    ScanLogicalKeeps(later, ScanLogical(first, NOTHING));
  }

  /** The recipient read back is right for every response if and only if the first recipient is not blank. */
  lemma RecipientRightExactly(p: Report)
    requires SingleLine(p) && p.rcpts != []
    ensures (forall x: string :: RecipientRight(p, x)) <==> Trim(p.rcpts[0]) != []
  {
    if Trim(p.rcpts[0]) != [] {
      forall x: string
        ensures RecipientRight(p, x)
      {
        FieldsAlwaysRight(p.(response := x));
      }
    } else {
      var name := if FirstRecipient(p.rcpts) == Some("a") then "b" else "a";
      MisledRecipient(p.(response := FieldLike(name)), name);
      assert !RecipientRight(p, FieldLike(name));
    }
  }

  predicate RecipientRight(p: Report, response: string) {
    Extracted(StatusPart(p.(response := response))).recipient == FirstRecipient(p.rcpts)
  }
}
