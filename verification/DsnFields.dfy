/** The fields of a printed report, as the reader takes them one line at a time. */
module DsnFields {
  import opened Basics
  import opened Text
  import opened Dsn

  // ----- from the printed text to logical lines

  ghost predicate OneLiners(lines: seq<string>) {
    forall i :: 0 <= i < |lines| ==> '\n' !in lines[i] && (lines[i] == [] || !IsWhite(lines[i][0]))
  }

  lemma FoldPrintedLine(acc: seq<string>, l: string)
    requires l == [] || !IsWhite(l[0])
    ensures FoldLine(acc, l + "\r") == acc + [TrimEndCr(l)]
  {
    assert (l + "\r")[..|l|] == l;
    assert TrimEndCr(l + "\r") == TrimEndCr(l);
    if l != [] {
      TrimEndCrKeepsFirst(l);
    }
  }

  lemma UnfoldCons(l: string, rest: seq<string>, acc: seq<string>)
    ensures Unfold([l] + rest, acc) == Unfold(rest, FoldLine(acc, l))
  {
    assert ([l] + rest)[1..] == rest;
  }

  /** The reader's view of printed lines. */
  function ScanRaw(lines: seq<string>, out: Parsed): Parsed {
    if lines == [] then out else ScanRaw(lines[1..], Take(out, TrimEndCr(lines[0])))
  }

  lemma {:induction false} ScanRawConcat(a: seq<string>, b: seq<string>, out: Parsed)
    ensures ScanRaw(a + b, out) == ScanRaw(b, ScanRaw(a, out))
    decreases |a|
  {
    if a == [] {
      assert a + b == b;
    } else {
      ScanRawConcat(a[1..], b, Take(out, TrimEndCr(a[0])));
      assert (a + b)[1..] == a[1..] + b && (a + b)[0] == a[0];
    }
  }

  lemma ScanRawCons(l: string, rest: seq<string>, out: Parsed)
    ensures ScanRaw([l] + rest, out) == ScanRaw(rest, Take(out, TrimEndCr(l)))
  {
    assert ([l] + rest)[1..] == rest;
  }

  // ----- one field

  predicate PlainName(name: string) {
    name != [] && ':' !in name && forall i :: 0 <= i < |name| ==> !IsWhite(name[i])
  }

  lemma TakeField(out: Parsed, name: string, v: string)
    requires PlainName(name)
    ensures Take(out, TrimEndCr(name + ": " + v)) == TakeNamed(out, Lower(name), Trim(v))
  {
    TrimEndCrConcat(name + ": ", v);
    var w := " " + TrimEndCr(v);
    assert name + ": " + TrimEndCr(v) == name + [':'] + w;
    SplitOnceIs(name, ':', w);
    assert TrimStart(name) == name && TrimEnd(name) == name;
    TrimAfterWhite(' ', TrimEndCr(v));
    TrimAfterCr(v);
  }

  /** The value of a field with a type in front. */
  lemma TypedValue(kind: string, x: string)
    requires kind != [] && ';' !in kind && forall i :: 0 <= i < |kind| ==> !IsWhite(kind[i])
    ensures AfterType(Trim(kind + "; " + x)) == Trim(x)
  {
    var s := kind + "; " + x;
    assert TrimStart(s) == s;
    assert s == (kind + ";") + (" " + x);
    TrimEndConcat(kind + ";", " " + x);
    var y := TrimEnd(" " + x);
    assert kind + ";" + y == kind + [';'] + y;
    SplitOnceIs(kind, ';', y);
    TrimAfterTrimEnd(" " + x);
    TrimAfterWhite(' ', x);
  }

  lemma NameFinalRecipient()
    ensures PlainName("Final-Recipient") && Lower("Final-Recipient") == "final-recipient"
  {
  }

  lemma NameStatus()
    ensures PlainName("Status") && Lower("Status") == "status"
  {
  }

  lemma NameDiagnosticCode()
    ensures PlainName("Diagnostic-Code") && Lower("Diagnostic-Code") == "diagnostic-code"
  {
  }

  lemma NameAction()
    ensures PlainName("Action") && Lower("Action") == "action" && !Reserved(Lower("Action"))
  {
  }

  lemma NameReportingMta()
    ensures PlainName("Reporting-MTA") && Lower("Reporting-MTA") == "reporting-mta" && !Reserved(Lower("Reporting-MTA"))
  {
  }

  lemma NameEnvelopeId()
    ensures PlainName("Original-Envelope-Id") && Lower("Original-Envelope-Id") == "original-envelope-id"
    ensures !Reserved(Lower("Original-Envelope-Id"))
  {
  }

  lemma NameArrivalDate()
    ensures PlainName("Arrival-Date") && Lower("Arrival-Date") == "arrival-date" && !Reserved(Lower("Arrival-Date"))
  {
  }

  lemma NameOriginalRecipient()
    ensures PlainName("Original-Recipient") && Lower("Original-Recipient") == "original-recipient"
    ensures !Reserved(Lower("Original-Recipient"))
  {
  }

  lemma NameRemoteMta()
    ensures PlainName("Remote-MTA") && Lower("Remote-MTA") == "remote-mta" && !Reserved(Lower("Remote-MTA"))
  {
  }

  predicate Reserved(name: string) {
    name == "final-recipient" || name == "status" || name == "diagnostic-code"
  }

  /** A field the reader does not know leaves the result alone. */
  lemma OtherField(out: Parsed, name: string, v: string)
    requires PlainName(name) && !Reserved(Lower(name))
    ensures Take(out, TrimEndCr(name + ": " + v)) == out
  {
    TakeField(out, name, v);
  }

  lemma EmptyLine(out: Parsed)
    ensures Take(out, TrimEndCr("")) == out
  {
    assert SplitOnce("", ':') == None;
  }

  // ----- one recipient

  function AddRecipient(out: Parsed, addr: string): Parsed {
    if addr != [] && out.recipient.None? then out.(recipient := Some(addr)) else out
  }

  function AddDiagnostic(out: Parsed, body: string): Parsed {
    var out1 := if out.diagnostic.None? && body != [] then out.(diagnostic := Some(body)) else out;
    if out1.code.None? then out1.(code := FirstCodeFrom(body, 0)) else out1
  }

  lemma TypedField(out: Parsed, name: string, kind: string, x: string)
    requires PlainName(name)
    requires kind != [] && ';' !in kind && forall i :: 0 <= i < |kind| ==> !IsWhite(kind[i])
    ensures var v := Trim(kind + "; " + x);
            && Take(out, TrimEndCr(name + ": " + kind + "; " + x)) == TakeNamed(out, Lower(name), v)
            && AfterType(v) == Trim(x)
  {
    assert name + ": " + kind + "; " + x == name + ": " + (kind + "; " + x);
    TakeField(out, name, kind + "; " + x);
    TypedValue(kind, x);
  }

  lemma RecipientLine(out: Parsed, r: string)
    ensures Take(out, TrimEndCr("Final-Recipient: rfc822; " + r)) == AddRecipient(out, Trim(r))
  {
    NameFinalRecipient();
    TypedField(out, "Final-Recipient", "rfc822", r);
    assert "Final-Recipient: rfc822; " + r == "Final-Recipient" + ": " + "rfc822" + "; " + r;
  }

  lemma DiagnosticLine(out: Parsed, x: string)
    ensures Take(out, TrimEndCr("Diagnostic-Code: smtp; " + x)) == AddDiagnostic(out, Trim(x))
  {
    NameDiagnosticCode();
    TypedField(out, "Diagnostic-Code", "smtp", x);
    assert "Diagnostic-Code: smtp; " + x == "Diagnostic-Code" + ": " + "smtp" + "; " + x;
  }

  lemma StatusLine(out: Parsed, b: BounceClass)
    ensures Take(out, TrimEndCr("Status: " + StatusCode(b)))
            == if out.enhanced.None? then out.(enhanced := Some(StatusCode(b))) else out
  {
    assert "Status: " + StatusCode(b) == "Status" + ": " + StatusCode(b);
    NameStatus();
    TakeField(out, "Status", StatusCode(b));
    assert Trim(StatusCode(b)) == StatusCode(b);
  }

  lemma OtherLine(out: Parsed, name: string, prefix: string, v: string)
    requires PlainName(name) && !Reserved(Lower(name)) && name + ": " <= prefix
    ensures Take(out, TrimEndCr(prefix + v)) == out
  {
    var w := prefix[|name + ": "|..] + v;
    assert prefix + v == name + ": " + w;
    OtherField(out, name, w);
  }

  lemma OptionalOther(out: Parsed, name: string, prefix: string, v: Option<string>)
    requires PlainName(name) && !Reserved(Lower(name)) && name + ": " <= prefix
    ensures ScanRaw(OptionalLine(prefix, v), out) == out
  {
    if v.Some? {
      OtherLine(out, name, prefix, v.value);
      ScanRawCons(prefix + v.value, [], out);
      assert [prefix + v.value] + [] == [prefix + v.value];
    }
  }

  lemma MiddleLines(out: Parsed, p: Report, r: string)
    ensures ScanRaw(["Final-Recipient: rfc822; " + r, "Action: " + ActionWord(p.bounce),
                     "Status: " + StatusCode(p.bounce)], out)
            == var out1 := AddRecipient(out, Trim(r));
               if out1.enhanced.None? then out1.(enhanced := Some(StatusCode(p.bounce))) else out1
  {
    var f := "Final-Recipient: rfc822; " + r;
    var a, t := "Action: " + ActionWord(p.bounce), "Status: " + StatusCode(p.bounce);
    var out1 := AddRecipient(out, Trim(r));
    RecipientLine(out, r);
    NameAction();
    OtherLine(out1, "Action", "Action: ", ActionWord(p.bounce));
    StatusLine(out1, p.bounce);
    assert [f, a, t] == [f] + ([a] + ([t] + []));
    ScanRawCons(f, [a] + ([t] + []), out);
    ScanRawCons(a, [t] + [], out1);
    ScanRawCons(t, [], out1);
  }

  lemma ArrivalLines(out: Parsed, v: string)
    ensures ScanRaw(["Arrival-Date: " + v, ""], out) == out
  {
    var c := "Arrival-Date: " + v;
    NameArrivalDate();
    OtherLine(out, "Arrival-Date", "Arrival-Date: ", v);
    EmptyLine(out);
    assert [c, ""] == [c] + ([""] + []);
    ScanRawCons(c, [""] + [], out);
    ScanRawCons("", [], out);
  }

  lemma HeadBlock(out: Parsed, p: Report)
    ensures ScanRaw(HeadLines(p), out) == out
  {
    var a := OptionalLine("Reporting-MTA: dns; ", Some(p.reportingMta));
    var b := OptionalLine("Original-Envelope-Id: ", p.envid);
    var c := ["Arrival-Date: " + p.arrival, ""];
    NameReportingMta();
    OptionalOther(out, "Reporting-MTA", "Reporting-MTA: dns; ", Some(p.reportingMta));
    NameEnvelopeId();
    OptionalOther(out, "Original-Envelope-Id", "Original-Envelope-Id: ", p.envid);
    ArrivalLines(out, p.arrival);
    ScanRawConcat(a + b, c, out);
    ScanRawConcat(a, b, out);
  }

  ghost predicate SingleLine(p: Report) {
    && '\n' !in p.reportingMta && (p.envid.Some? ==> '\n' !in p.envid.value) && '\n' !in p.arrival
    && (forall i :: 0 <= i < |p.rcpts| ==> '\n' !in p.rcpts[i])
    && (forall r :: r in p.orcpt ==> '\n' !in p.orcpt[r])
    && (p.remoteMta.Some? ==> '\n' !in p.remoteMta.value)
  }

  lemma OneLinersConcat(a: seq<string>, b: seq<string>)
    requires OneLiners(a) && OneLiners(b)
    ensures OneLiners(a + b)
  {
  }

  lemma HeadOneLiners(p: Report)
    requires SingleLine(p)
    ensures OneLiners(HeadLines(p))
  {
    var a, b := ["Reporting-MTA: dns; " + p.reportingMta], OptionalLine("Original-Envelope-Id: ", p.envid);
    var c := ["Arrival-Date: " + p.arrival, ""];
    assert OneLiners(a) && OneLiners(b) && OneLiners(c);
    OneLinersConcat(a, b);
    OneLinersConcat(a + b, c);
  }

  // ----- what is read back never breaks the line

  ghost predicate NoLf(lines: seq<string>) {
    forall i :: 0 <= i < |lines| ==> '\n' !in lines[i]
  }

  lemma {:induction false} SplitHasNoLf(s: string)
    ensures NoLf(SplitLf(s))
  {
    if s != [] {
      SplitHasNoLf(s[1..]);
    }
  }

  lemma FoldHasNoLf(acc: seq<string>, raw: string)
    requires NoLf(acc) && '\n' !in raw
    ensures NoLf(FoldLine(acc, raw))
  {
    TrimIsPart(raw, '\n');
    TrimIsPart(TrimEndCr(raw), '\n');
  }

  lemma {:induction false} UnfoldHasNoLf(lines: seq<string>, acc: seq<string>)
    requires NoLf(lines) && NoLf(acc)
    ensures NoLf(Unfold(lines, acc))
    decreases |lines|
  {
    if lines != [] {
      FoldHasNoLf(acc, lines[0]);
      UnfoldHasNoLf(lines[1..], FoldLine(acc, lines[0]));
    }
  }

  ghost predicate DiagnosticNoLf(out: Parsed) {
    out.diagnostic.Some? ==> '\n' !in out.diagnostic.value
  }

  lemma AfterTypeHasNoLf(v: string)
    requires '\n' !in v
    ensures '\n' !in AfterType(v)
  {
    SplitOnceParts(v, ';');
    if SplitOnce(v, ';').Some? {
      TrimIsPart(SplitOnce(v, ';').value.1, '\n');
    }
  }

  lemma TakeHasNoLf(out: Parsed, line: string)
    requires DiagnosticNoLf(out) && '\n' !in line
    ensures DiagnosticNoLf(Take(out, line))
  {
    SplitOnceParts(line, ':');
    if SplitOnce(line, ':').Some? {
      var v := SplitOnce(line, ':').value.1;
      TrimIsPart(v, '\n');
      AfterTypeHasNoLf(Trim(v));
    }
  }

  lemma {:induction false} ScanHasNoLf(lines: seq<string>, out: Parsed)
    requires NoLf(lines) && DiagnosticNoLf(out)
    ensures DiagnosticNoLf(Scan(lines, out))
    decreases |lines|
  {
    if lines != [] {
      TakeHasNoLf(out, lines[0]);
      ScanHasNoLf(lines[1..], Take(out, lines[0]));
    }
  }

  lemma ExtractedHasNoLf(ds: string)
    ensures DiagnosticNoLf(Extracted(ds))
  {
    SplitHasNoLf(ds);
    UnfoldHasNoLf(SplitLf(ds), []);
    ScanHasNoLf(Unfold(SplitLf(ds), []), NOTHING);
  }
}
