/**
  How the reader unfolds lines that break: the diagnostic of a report whose remote response holds line breaks, as the
  text of every multi-line SMTP reply does.
*/
module DsnFolding {
  import opened Basics
  import opened Text
  import opened Dsn
  import opened DsnFields

  const DIAGNOSTIC: string := "Diagnostic-Code: smtp; "

  ghost predicate White(s: string) {
    forall i :: 0 <= i < |s| ==> IsWhite(s[i])
  }

  ghost predicate WhiteLines(ls: seq<string>) {
    forall i :: 0 <= i < |ls| ==> White(ls[i])
  }

  predicate Indented(l: string) {
    l != [] && (l[0] == ' ' || l[0] == '\t')
  }

  predicate AllIndented(ls: seq<string>) {
    forall i :: 0 <= i < |ls| ==> Indented(ls[i])
  }

  /**
    Trailing white space aside, every line break lies in the leading white space, and every line after the first
    is indented, so that it counts as folded.
  */
  predicate Survives(response: string) {
    '\n' !in Trim(response) && AllIndented(SplitLf(TrimEnd(response))[1..])
  }

  // ----- white space

  lemma {:induction false} SplitWhite(s: string)
    requires White(s)
    ensures WhiteLines(SplitLf(s))
  {
    if s != [] {
      SplitWhite(s[1..]);
    }
  }

  lemma {:induction false} TrimStartWhite(s: string)
    requires White(s)
    ensures TrimStart(s) == []
  {
    if s != [] {
      TrimStartWhite(s[1..]);
    }
  }

  lemma {:induction false} TrimStartParts(s: string) returns (lead: string)
    ensures s == lead + TrimStart(s) && White(lead)
    ensures TrimStart(s) != [] ==> !IsWhite(TrimStart(s)[0])
  {
    if s != [] && IsWhite(s[0]) {
      lead := TrimStartParts(s[1..]);
      lead := [s[0]] + lead;
    } else {
      lead := [];
    }
  }

  lemma {:induction false} TrimEndParts(s: string) returns (trail: string)
    ensures s == TrimEnd(s) + trail && White(trail)
    ensures TrimEnd(s) != [] ==> !IsWhite(TrimEnd(s)[|TrimEnd(s)| - 1])
  {
    if s != [] && IsWhite(s[|s| - 1]) {
      trail := TrimEndParts(s[..|s| - 1]);
      trail := trail + [s[|s| - 1]];
    } else {
      trail := [];
    }
  }

  lemma {:induction false} TrimEndCrParts(s: string) returns (crs: string)
    ensures s == TrimEndCr(s) + crs && White(crs) && (crs != [] ==> crs[0] == '\r')
  {
    if s != [] && s[|s| - 1] == '\r' {
      crs := TrimEndCrParts(s[..|s| - 1]);
      crs := crs + ['\r'];
    } else {
      crs := [];
    }
  }

  lemma {:induction false} TrimEndAppendWhite(s: string, w: string)
    requires White(w)
    ensures TrimEnd(s + w) == TrimEnd(s)
  {
    if w == [] {
      assert s + w == s;
    } else {
      TrimEndAppendWhite(s, w[..|w| - 1]);
      assert (s + w)[..|s + w| - 1] == s + w[..|w| - 1];
    }
  }

  lemma TrimAppendWhite(s: string, w: string)
    requires White(w)
    ensures Trim(s + w) == Trim(s)
  {
    TrimEndAppendWhite(s, w);
    TrimCommutes(s + w);
    TrimCommutes(s);
  }

  lemma TrimAround(a: string, body: string, b: string)
    requires White(a) && White(b) && body != [] && !IsWhite(body[0]) && !IsWhite(body[|body| - 1])
    ensures Trim(a + body + b) == body
  {
    TrimAppendWhite(a + body, b);
    TrimStartConcat(a, body);
  }

  // ----- folding white lines

  /** A white line joins the line before it, if it is indented, or stands alone. */
  lemma FoldWhite(pre: seq<string>, c: string, w: seq<string>, x: string) returns (ws: string, w': seq<string>)
    requires White(x) && WhiteLines(w)
    ensures FoldLine(pre + [c] + w, x) == pre + [c + ws] + w'
    ensures White(ws) && WhiteLines(w') && (w' == [] <==> w == [] && Indented(x))
  {
    var acc := pre + [c] + w;
    var crs := TrimEndCrParts(x);
    var t := TrimEndCr(x);
    assert x[..|t|] == t;
    assert White(t) && (Indented(x) <==> Indented(t));
    if !Indented(t) {
      ws, w' := [], w + [t];
      assert c + [] == c;
      assert acc + [t] == pre + [c] + w';
    } else {
      TrimStartWhite(t);
      if w == [] {
        ws, w' := " ", [];
        assert acc == pre + [c];
        assert acc[..|acc| - 1] == pre && acc[|acc| - 1] == c;
        assert c + " " + [] == c + " ";
      } else {
        var n := |w| - 1;
        ws, w' := [], w[..n] + [w[n] + " "];
        assert c + [] == c && w[n] + " " + [] == w[n] + " ";
        assert acc[..|acc| - 1] == pre + [c] + w[..n] && acc[|acc| - 1] == w[n];
      }
    }
  }

  lemma {:induction false} UnfoldWhite(lines: seq<string>, pre: seq<string>, c: string, w: seq<string>)
    returns (ws: string, w': seq<string>)
    requires WhiteLines(lines) && WhiteLines(w)
    ensures Unfold(lines, pre + [c] + w) == pre + [c + ws] + w'
    ensures White(ws) && WhiteLines(w') && (w' == [] <==> w == [] && AllIndented(lines))
    decreases |lines|
  {
    if lines == [] {
      ws, w' := [], w;
      assert c + [] == c;
    } else {
      var ws1, w1 := FoldWhite(pre, c, w, lines[0]);
      var ws2, w2 := UnfoldWhite(lines[1..], pre, c + ws1, w1);
      ws, w' := ws1 + ws2, w2;
      assert c + ws1 + ws2 == c + (ws1 + ws2);
      assert lines == [lines[0]] + lines[1..];
    }
  }

  // ----- reading what the white lines leave

  lemma {:induction false} ScanConcat(a: seq<string>, b: seq<string>, out: Parsed)
    ensures Scan(a + b, out) == Scan(b, Scan(a, out))
    decreases |a|
  {
    if a == [] {
      assert a + b == b;
    } else {
      ScanConcat(a[1..], b, Take(out, a[0]));
      assert (a + b)[1..] == a[1..] + b && (a + b)[0] == a[0];
    }
  }

  lemma ScanOne(l: string, out: Parsed)
    ensures Scan([l], out) == Take(out, l)
  {
    assert [l][1..] == [];
  }

  lemma {:induction false} NoSplit(s: string, c: char)
    requires c !in s
    ensures SplitOnce(s, c).None?
  {
    if s != [] {
      NoSplit(s[1..], c);
    }
  }

  lemma {:induction false} ScanWhite(w: seq<string>, out: Parsed)
    requires WhiteLines(w)
    ensures Scan(w, out) == out
    decreases |w|
  {
    if w != [] {
      assert White(w[0]);
      NoSplit(w[0], ':');
      ScanWhite(w[1..], out);
    }
  }

  lemma {:induction false} SplitAppend(s: string, w: string, c: char)
    requires c !in w
    ensures SplitOnce(s + w, c) ==
            if SplitOnce(s, c).None? then None else Some((SplitOnce(s, c).value.0, SplitOnce(s, c).value.1 + w))
  {
    if s == [] {
      assert s + w == w;
      NoSplit(w, c);
    } else {
      assert (s + w)[1..] == s[1..] + w;
      SplitAppend(s[1..], w, c);
    }
  }

  /** White space after a line changes nothing. */
  lemma TakeThenWhite(out: Parsed, l: string, w: string)
    requires White(w)
    ensures Take(out, l + w) == Take(out, l)
  {
    SplitAppend(l, w, ':');
    if SplitOnce(l, ':').Some? {
      TrimAppendWhite(SplitOnce(l, ':').value.1, w);
    }
  }

  lemma TakeDiagnostic(out: Parsed, x: string)
    ensures Take(out, DIAGNOSTIC + x) == AddDiagnostic(out, Trim(x))
  {
    var crs := TrimEndCrParts(DIAGNOSTIC + x);
    TakeThenWhite(out, TrimEndCr(DIAGNOSTIC + x), crs);
    DiagnosticLine(out, x);
  }

  /** Whatever diagnostic a line yields is shorter than the line. */
  lemma TakeShorter(out: Parsed, z: string)
    requires Trim(z) != []
    ensures Shorter(out.diagnostic, Take(out, z).diagnostic, |Trim(z)|)
  {
    SplitOnceParts(z, ':');
    if SplitOnce(z, ':').Some? {
      var (a, b) := SplitOnce(z, ':').value;
      ValueShorter(a, b);
      AfterTypeShorter(Trim(b));
    }
  }

  /** The diagnostic did not change, or was set to something shorter than `n`. */
  ghost predicate Shorter(before: Option<string>, after: Option<string>, n: nat) {
    after == before || (before.None? && |after.value| < n)
  }

  lemma {:induction false} TrimStartShrinks(s: string)
    ensures |TrimStart(s)| <= |s|
  {
    if s != [] && IsWhite(s[0]) {
      TrimStartShrinks(s[1..]);
    }
  }

  lemma {:induction false} TrimEndShrinks(s: string)
    ensures |TrimEnd(s)| <= |s|
  {
    if s != [] && IsWhite(s[|s| - 1]) {
      TrimEndShrinks(s[..|s| - 1]);
    }
  }

  lemma AfterTypeShorter(v: string)
    ensures |AfterType(v)| <= |v|
  {
    SplitOnceParts(v, ';');
    if SplitOnce(v, ';').Some? {
      var b := SplitOnce(v, ';').value.1;
      TrimStartShrinks(b);
      TrimEndShrinks(TrimStart(b));
    }
  }

  lemma ValueShorter(a: string, b: string)
    ensures |Trim(b)| < |Trim(a + [':'] + b)|
  {
    var ac := a + [':'];
    TrimEndConcat(ac, b);
    TrimCommutes(ac + b);
    TrimStartKeepsTail(ac, TrimEnd(b));
    TrimStartKeepsTail([':'], []);
    var lead := TrimStartParts(ac);
    TrimCommutes(b);
    TrimStartShrinks(TrimEnd(b));
    assert TrimStart(ac) != [];
  }

  // ----- the logical lines of one printed line

  /** What the reader makes of one printed line that may break. */
  function Logical(l: string): seq<string> {
    Unfold(SplitLf(l + "\r"), [])
  }

  /** The raw lines of a printed text. */
  function RawLines(lines: seq<string>): seq<string> {
    if lines == [] then [[]] else SplitLf(lines[0] + "\r") + RawLines(lines[1..])
  }

  lemma {:induction false} SplitIntoRaw(lines: seq<string>)
    ensures SplitLf(Printed(lines)) == RawLines(lines)
  {
    if lines != [] {
      SplitIntoRaw(lines[1..]);
      SplitBreak(lines[0] + "\r", Printed(lines[1..]));
      assert lines[0] + "\r\n" + Printed(lines[1..]) == (lines[0] + "\r") + "\n" + Printed(lines[1..]);
    }
  }

  /** The line is blank or starts with something else than white space, so it is not folded into the one before. */
  predicate Flush(l: string) {
    l == [] || !IsWhite(l[0])
  }

  ghost predicate AllFlush(lines: seq<string>) {
    forall i :: 0 <= i < |lines| ==> Flush(lines[i])
  }

  lemma FoldOnto(acc: seq<string>, more: seq<string>, x: string)
    requires more != [] || !Indented(x)
    ensures FoldLine(acc + more, x) == acc + FoldLine(more, x) && FoldLine(more, x) != []
  {
    var crs := TrimEndCrParts(x);
    var t := TrimEndCr(x);
    assert x[..|t|] == t;
    if !Indented(t) {
      assert acc + more + [t] == acc + (more + [t]);
    } else {
      var all, n := acc + more, |more| - 1;
      assert all[..|all| - 1] == acc + more[..n] && all[|all| - 1] == more[n];
    }
  }

  lemma {:induction false} UnfoldOnto(lines: seq<string>, acc: seq<string>, more: seq<string>)
    requires more != [] || (lines != [] && !Indented(lines[0]))
    ensures Unfold(lines, acc + more) == acc + Unfold(lines, more)
    decreases |lines|
  {
    if lines != [] {
      FoldOnto(acc, more, lines[0]);
      UnfoldOnto(lines[1..], acc, FoldLine(more, lines[0]));
    }
  }

  lemma FlushFirst(l: string)
    requires Flush(l)
    ensures !Indented(SplitLf(l + "\r")[0])
  {
    if l == [] {
      assert l + "\r" == "\r";
      SplitLfOneLine("\r");
    } else if l[0] != '\n' {
      SplitLfFirst(l + "\r");
    }
  }

  /** Logical lines of a list of printed lines, scanned one printed line after the other. */
  function ScanLogical(lines: seq<string>, out: Parsed): Parsed {
    if lines == [] then out else ScanLogical(lines[1..], Scan(Logical(lines[0]), out))
  }

  lemma {:induction false} ScanRawLines(lines: seq<string>, acc: seq<string>, out: Parsed)
    requires AllFlush(lines)
    ensures Scan(Unfold(RawLines(lines), acc), out) == ScanLogical(lines, Scan(acc, out))
    decreases |lines|
  {
    if lines == [] {
      UnfoldOne([], acc);
      assert TrimEndCr([]) == [];
      ScanConcat(acc, [[]], out);
      ScanWhite([[]], Scan(acc, out));
    } else {
      var first := SplitLf(lines[0] + "\r");
      UnfoldConcat(first, RawLines(lines[1..]), acc);
      FlushFirst(lines[0]);
      assert acc + [] == acc;
      UnfoldOnto(first, acc, []);
      ScanRawLines(lines[1..], acc + Logical(lines[0]), out);
      ScanConcat(acc, Logical(lines[0]), out);
    }
  }

  lemma ExtractLogical(lines: seq<string>)
    requires AllFlush(lines)
    ensures Extracted(Printed(lines)) == ScanLogical(lines, NOTHING)
  {
    SplitIntoRaw(lines);
    ScanRawLines(lines, [], NOTHING);
  }

  lemma {:induction false} ScanLogicalConcat(a: seq<string>, b: seq<string>, out: Parsed)
    ensures ScanLogical(a + b, out) == ScanLogical(b, ScanLogical(a, out))
    decreases |a|
  {
    if a == [] {
      assert a + b == b;
    } else {
      ScanLogicalConcat(a[1..], b, Scan(Logical(a[0]), out));
      assert (a + b)[1..] == a[1..] + b && (a + b)[0] == a[0];
    }
  }

  lemma LogicalOne(l: string)
    requires '\n' !in l && Flush(l)
    ensures Logical(l) == [TrimEndCr(l)]
  {
    SplitLfOneLine(l + "\r");
    UnfoldOne(l + "\r", []);
    FoldPrintedLine([], l);
    assert [] + [TrimEndCr(l)] == [TrimEndCr(l)];
  }

  /** Lines that do not break are scanned as before. */
  lemma {:induction false} ScanLogicalRaw(lines: seq<string>, out: Parsed)
    requires OneLiners(lines)
    ensures ScanLogical(lines, out) == ScanRaw(lines, out)
    decreases |lines|
  {
    if lines != [] {
      LogicalOne(lines[0]);
      ScanOne(TrimEndCr(lines[0]), out);
      ScanLogicalRaw(lines[1..], Take(out, TrimEndCr(lines[0])));
    }
  }

  // ----- the diagnostic line

  /** The logical lines of a diagnostic whose first raw line is `first` and whose other raw lines are white. */
  lemma OneContentLine(x: string, rest: seq<string>, out: Parsed)
    requires WhiteLines(rest)
    ensures Scan(Unfold([DIAGNOSTIC + x] + rest, []), out) == AddDiagnostic(out, Trim(x))
  {
    var c := DiagnosticFirst(x, rest);
    var ws, w := UnfoldWhite(rest, [], DIAGNOSTIC + c, []);
    assert [] + [DIAGNOSTIC + c] + [] == [DIAGNOSTIC + c];
    ScanFirstThenWhite([], DIAGNOSTIC + c + ws, w, out);
    TakeThenWhite(out, DIAGNOSTIC + c, ws);
    TakeDiagnostic(out, c);
    TrimAfterCr(x);
  }

  lemma DiagnosticFirst(x: string, rest: seq<string>) returns (c: string)
    ensures c == TrimEndCr(x) && Unfold([DIAGNOSTIC + x] + rest, []) == Unfold(rest, [DIAGNOSTIC + c])
  {
    c := TrimEndCr(x);
    TrimEndCrConcat(DIAGNOSTIC, x);
    UnfoldCons(DIAGNOSTIC + x, rest, []);
    assert FoldLine([], DIAGNOSTIC + x) == [DIAGNOSTIC + c];
  }

  lemma ScanFirstThenWhite(pre: seq<string>, c: string, w: seq<string>, out: Parsed)
    requires WhiteLines(w)
    ensures Scan(pre + [c] + w, out) == Take(Scan(pre, out), c)
  {
    ScanConcat(pre + [c], w, out);
    ScanConcat(pre, [c], out);
    ScanOne(c, Scan(pre, out));
    ScanWhite(w, Take(Scan(pre, out), c));
  }

  ghost predicate Trimmed(body: string) {
    body != [] && !IsWhite(body[0]) && !IsWhite(body[|body| - 1])
  }

  /** The raw line with the content joins `h`, or a white line after it, or stands alone. */
  lemma FoldContent(h: string, w: seq<string>, xk: string, tail: string)
    returns (pre: seq<string>, z: string, a: string)
    requires WhiteLines(w) && White(xk) && tail != [] && !IsWhite(tail[0])
    ensures FoldTrimmed([h] + w, xk + tail) == pre + [z]
    ensures if w == [] && Indented(xk) then pre == [] && z == h + " " + tail
            else pre != [] && pre[0] == h && WhiteLines(pre[1..]) && White(a) && z == a + tail
  {
    var acc := [h] + w;
    var n := |acc| - 1;
    assert Indented(xk + tail) <==> Indented(xk);
    a := [];
    if !Indented(xk) {
      pre, z, a := acc, xk + tail, xk;
    } else {
      AllWhiteTrims(xk, tail);
      pre, z := acc[..n], acc[n] + " " + tail;
      if w != [] {
        a := w[|w| - 1] + " ";
        assert acc[..n] == [h] + w[..|w| - 1];
      }
    }
  }

  lemma ContentTrimmed(xk: string, body: string, y0: string)
    requires Trimmed(body)
    ensures TrimEndCr(xk + body + y0) == xk + (body + TrimEndCr(y0))
  {
    assert xk + body + y0 == xk + (body + y0);
    CrOnlyAfter(xk, body + y0);
    TrimEndCrConcat(body, y0);
  }

  lemma WhiteHead(u: string, white: seq<string>, out: Parsed)
    requires White(u) && WhiteLines(white)
    ensures Scan([DIAGNOSTIC + u] + white, out).diagnostic == out.diagnostic
  {
    assert [] + [DIAGNOSTIC + u] == [DIAGNOSTIC + u];
    ScanFirstThenWhite([], DIAGNOSTIC + u, white, out);
    TakeDiagnostic(out, u);
    TrimStartWhite(u);
  }

  lemma ReadFolded(u: string, body: string, y: string, rest: seq<string>, out: Parsed)
    requires White(u) && White(y) && WhiteLines(rest) && Trimmed(body)
    ensures Scan(Unfold(rest, [DIAGNOSTIC + u + " " + (body + y)]), out) == AddDiagnostic(out, body)
  {
    var z := DIAGNOSTIC + u + " " + (body + y);
    var ws, w := UnfoldWhite(rest, [], z, []);
    assert [] + [z] + [] == [z];
    ScanFirstThenWhite([], z + ws, w, out);
    TakeThenWhite(out, z, ws);
    assert z == DIAGNOSTIC + ((u + " ") + body + y);
    TakeDiagnostic(out, (u + " ") + body + y);
    TrimAround(u + " ", body, y);
  }

  lemma ReadApart(u: string, w: seq<string>, a: string, body: string, y: string, rest: seq<string>, out: Parsed)
    requires White(u) && WhiteLines(w) && White(a) && White(y) && WhiteLines(rest) && Trimmed(body)
    ensures Shorter(out.diagnostic, Scan(Unfold(rest, [DIAGNOSTIC + u] + w + [a + (body + y)]), out).diagnostic, |body|)
  {
    var pre, z := [DIAGNOSTIC + u] + w, a + (body + y);
    var ws, w2 := UnfoldWhite(rest, pre, z, []);
    assert pre + [z] + [] == pre + [z];
    ScanFirstThenWhite(pre, z + ws, w2, out);
    WhiteHead(u, w, out);
    TakeThenWhite(Scan(pre, out), z, ws);
    assert z == a + body + y;
    TrimAround(a, body, y);
    TakeShorter(Scan(pre, out), z);
  }

  /** How the diagnostic is read once the lines before and the line with the content are known. */
  lemma ReadContent(u: string, w: seq<string>, xk: string, body: string, y0: string, rest: seq<string>, out: Parsed)
    requires White(u) && WhiteLines(w) && White(xk) && White(y0) && WhiteLines(rest) && Trimmed(body)
    ensures var out' := Scan(Unfold(rest, FoldLine([DIAGNOSTIC + u] + w, xk + body + y0)), out);
            if w == [] && Indented(xk) then out' == AddDiagnostic(out, body)
            else Shorter(out.diagnostic, out'.diagnostic, |body|)
  {
    var y := TrimEndCr(y0);
    ContentTrimmed(xk, body, y0);
    var crs := TrimEndCrParts(y0);
    assert y0[..|y|] == y && White(y);
    var pre, z, a := FoldContent(DIAGNOSTIC + u, w, xk, body + y);
    if w == [] && Indented(xk) {
      assert pre + [z] == [z];
      ReadFolded(u, body, y, rest, out);
    } else {
      assert pre == [DIAGNOSTIC + u] + pre[1..];
      ReadApart(u, pre[1..], a, body, y, rest, out);
    }
  }

  lemma LaterContentLine(x0: string, mid: seq<string>, xk: string, body: string, y0: string, rest: seq<string>,
                         out: Parsed)
    requires White(x0) && WhiteLines(mid) && White(xk) && White(y0) && WhiteLines(rest) && Trimmed(body)
    ensures var out' := Scan(Unfold([DIAGNOSTIC + x0] + (mid + ([xk + body + y0] + rest)), []), out);
            if AllIndented(mid) && Indented(xk) then out' == AddDiagnostic(out, body)
            else Shorter(out.diagnostic, out'.diagnostic, |body|)
  {
    var content := [xk + body + y0] + rest;
    var c := DiagnosticFirst(x0, mid + content);
    var crs := TrimEndCrParts(x0);
    assert x0[..|c|] == c && White(c);
    UnfoldConcat(mid, content, [DIAGNOSTIC + c]);
    var ws, w := UnfoldWhite(mid, [], DIAGNOSTIC + c, []);
    assert [] + [DIAGNOSTIC + c] + [] == [DIAGNOSTIC + c];
    assert DIAGNOSTIC + c + ws == DIAGNOSTIC + (c + ws);
    assert [] + [DIAGNOSTIC + c + ws] + w == [DIAGNOSTIC + (c + ws)] + w;
    UnfoldCons(xk + body + y0, rest, [DIAGNOSTIC + (c + ws)] + w);
    ReadContent(c + ws, w, xk, body, y0, rest, out);
  }

  // ----- from the response to its lines

  lemma SplitPrefixed(p: string, s: string)
    requires '\n' !in p
    ensures var x := SplitLf(s); SplitLf(p + s) == [p + x[0]] + x[1..]
  {
    SplitLfConcat(p, s);
    SplitLfOneLine(p);
    GlueAtEnd([], p, SplitLf(s));
    assert [] + [p + SplitLf(s)[0]] == [p + SplitLf(s)[0]];
    assert [] + [p] == [p];
  }

  /** A response of leading white space, content and trailing white space, line by line. */
  lemma SplitResponse(lead: string, body: string, trail: string)
    requires '\n' !in body
    ensures var x, y := SplitLf(lead), SplitLf(trail);
            SplitLf(lead + body + trail) == x[..|x| - 1] + ([x[|x| - 1] + body + y[0]] + y[1..])
  {
    var x, y := SplitLf(lead), SplitLf(trail);
    assert SplitLf(lead) == x[..|x| - 1] + [x[|x| - 1]] && SplitLf(trail) == [y[0]] + y[1..];
    PlainLines(lead, body, trail, x[..|x| - 1], x[|x| - 1], y[0], y[1..]);
  }

  lemma NoLfInName()
    ensures '\n' !in DIAGNOSTIC
  {
  }

  lemma BlankResponse(response: string, out: Parsed)
    requires White(response)
    ensures Scan(Logical(DIAGNOSTIC + response), out) == AddDiagnostic(out, [])
  {
    var s := response + "\r";
    SplitWhite(s);
    NoLfInName();
    assert DIAGNOSTIC + response + "\r" == DIAGNOSTIC + s;
    SplitPrefixed(DIAGNOSTIC, s);
    var x := SplitLf(s);
    OneContentLine(x[0], x[1..], out);
    assert White(x[0]);
    TrimStartWhite(x[0]);
  }

  lemma SplitDiagnostic(lead: string, body: string, trail: string)
    requires '\n' !in body
    ensures var x, y := SplitLf(lead), SplitLf(trail + "\r");
            SplitLf(DIAGNOSTIC + (lead + body + trail) + "\r")
            == if |x| == 1 then [DIAGNOSTIC + (x[0] + body + y[0])] + y[1..]
               else [DIAGNOSTIC + x[0]] + (x[1..|x| - 1] + ([x[|x| - 1] + body + y[0]] + y[1..]))
  {
    var t := trail + "\r";
    var x, y := SplitLf(lead), SplitLf(t);
    NoLfInName();
    SplitResponse(lead, body, t);
    SplitPrefixed(DIAGNOSTIC, lead + body + t);
    assert DIAGNOSTIC + (lead + body + trail) + "\r" == DIAGNOSTIC + (lead + body + t);
    PrefixFirst(DIAGNOSTIC, x[..|x| - 1], x[|x| - 1] + body + y[0], y[1..]);
    assert x[..|x| - 1] != [] ==> x[..|x| - 1][1..] == x[1..|x| - 1];
  }

  lemma PrefixFirst(p: string, init: seq<string>, m: string, rest: seq<string>)
    ensures var z := init + ([m] + rest);
            [p + z[0]] + z[1..] == if init == [] then [p + m] + rest else [p + init[0]] + (init[1..] + ([m] + rest))
  {
  }

  lemma LaterLines(lead: string, body: string)
    requires '\n' !in body && Trimmed(body)
    ensures var x := SplitLf(lead);
            AllIndented(SplitLf(lead + body)[1..])
            <==> |x| == 1 || (AllIndented(x[1..|x| - 1]) && Indented(x[|x| - 1]))
  {
    var x := SplitLf(lead);
    var k := |x| - 1;
    SplitLfOneLine([]);
    SplitResponse(lead, body, []);
    assert lead + body + [] == lead + body && x[k] + body + [] == x[k] + body;
    if k == 0 {
      assert SplitLf(lead + body)[1..] == [];
    } else {
      var l, m := SplitLf(lead + body)[1..], x[1..k];
      assert l == m + [x[k] + body];
      assert Indented(x[k] + body) <==> Indented(x[k]);
      assert AllIndented(l) ==> AllIndented(m) && Indented(l[|m|]) by {
        assert forall i :: 0 <= i < |m| ==> l[i] == m[i];
      }
    }
  }

  lemma ContentResponse(lead: string, body: string, trail: string, out: Parsed)
    requires White(lead) && White(trail) && Trimmed(body) && '\n' !in body
    ensures var out' := Scan(Logical(DIAGNOSTIC + (lead + body + trail)), out);
            if AllIndented(SplitLf(lead + body)[1..]) then out' == AddDiagnostic(out, body)
            else Shorter(out.diagnostic, out'.diagnostic, |body|)
  {
    var x, y := SplitLf(lead), SplitLf(trail + "\r");
    SplitWhite(lead);
    SplitWhite(trail + "\r");
    SplitDiagnostic(lead, body, trail);
    LaterLines(lead, body);
    var k := |x| - 1;
    if k == 0 {
      OneContentLine(x[0] + body + y[0], y[1..], out);
      TrimAround(x[0], body, y[0]);
    } else {
      LaterContentLine(x[0], x[1..k], x[k], body, y[0], y[1..], out);
    }
  }

  /** The effect of one diagnostic on the result: all of it, or a diagnostic that is too short. */
  lemma ReadDiagnostic(response: string, out: Parsed)
    requires '\n' !in Trim(response)
    ensures var out' := Scan(Logical(DIAGNOSTIC + response), out);
            if Survives(response) then out' == AddDiagnostic(out, Trim(response))
            else Trim(response) != [] && Shorter(out.diagnostic, out'.diagnostic, |Trim(response)|)
  {
    var trail := TrimEndParts(response);
    var lead := TrimStartParts(TrimEnd(response));
    TrimCommutes(response);
    var body := Trim(response);
    assert response == lead + body + trail;
    if body == [] {
      assert White(response);
      BlankSurvives(response);
      BlankResponse(response, out);
    } else {
      assert TrimEnd(response) == lead + body;
      ContentResponse(lead, body, trail, out);
    }
  }

  lemma BlankSurvives(response: string)
    requires Trim(response) == []
    ensures Survives(response)
  {
    TrimCommutes(response);
    var lead := TrimStartParts(TrimEnd(response));
    var trail := TrimEndParts(response);
    assert TrimEnd(response) == lead;
    assert SplitLf([])[1..] == [];
  }

  lemma WhiteEnds(a: string, b: string, e: string, trail: string)
    requires a + b == e + trail && |b| <= |trail| && White(trail)
    ensures White(b)
  {
    forall i | 0 <= i < |b|
      ensures IsWhite(b[i])
    {
      assert b[i] == (a + b)[|a| + i] == (e + trail)[|a| + i] == trail[|a| + i - |e|];
    }
  }

  lemma WhiteStarts(a: string, b: string, lead: string, rest: string)
    requires a + b == lead + rest && |a| <= |lead| && White(lead)
    ensures White(a)
  {
    forall i | 0 <= i < |a|
      ensures IsWhite(a[i])
    {
      assert a[i] == (a + b)[i] == (lead + rest)[i] == lead[i];
    }
  }

  /** A line break with text that is not blank on both sides does not survive. */
  lemma SeveralLines(first: string, others: string)
    requires Trim(first) != [] && Trim(others) != []
    ensures !Survives(first + "\n" + others)
  {
    var s := first + "\n" + others;
    var e := TrimEnd(s);
    var trail := TrimEndParts(s);
    var lead := TrimStartParts(e);
    TrimCommutes(s);
    if |trail| > |others| {
      WhiteEnds(first + "\n", others, e, trail);
      TrimStartWhite(others);
      assert false;
    }
    if |lead| > |first| {
      assert first + ("\n" + others) == s == lead + (TrimStart(e) + trail);
      WhiteStarts(first, "\n" + others, lead, TrimStart(e) + trail);
      TrimStartWhite(first);
      assert false;
    }
    assert e[|first|] == s[|first|] == '\n';
    assert Trim(s)[|first| - |lead|] == '\n';
  }
}
