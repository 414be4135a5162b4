/** How loosely the fields of a bounce report may be written. */
module DsnNames {
  import opened Basics
  import opened Text
  import opened Dsn
  import opened DsnFolding

  /** A field name: no colon, no line break, no white space at its ends. */
  predicate FieldName(n: string) {
    n != [] && ':' !in n && '\n' !in n && !IsWhite(n[0]) && !IsWhite(n[|n| - 1])
  }

  lemma LowerName(n: string)
    requires FieldName(n)
    ensures FieldName(Lower(n)) && Lower(Lower(n)) == Lower(n)
  {
    assert forall c: char :: IsWhite(LowerChar(c)) <==> IsWhite(c);
  }

  lemma TakeLoose(out: Parsed, n: string, b: string, u: string)
    requires FieldName(n) && White(b)
    ensures Take(out, n + b + ":" + u) == Take(out, Lower(n) + ":" + u)
  {
    LowerName(n);
    TakeField(out, n, b, u);
    TakeField(out, Lower(n), [], u);
    assert Lower(n) + [] == Lower(n);
  }

  lemma TakeField(out: Parsed, n: string, b: string, u: string)
    requires FieldName(n) && White(b)
    ensures Take(out, n + b + ":" + u) == TakeNamed(out, Lower(n), Trim(u))
  {
    NoColon(b);
    SplitOnceIs(n + b, ':', u);
    TrimAround([], n, b);
    assert [] + n + b == n + b;
  }

  lemma NoColon(b: string)
    requires White(b)
    ensures ':' !in b
  {
    assert !IsWhite(':');
  }

  /** Continuations of a first line do not depend on it. */
  lemma {:induction false} UnfoldAfter(lines: seq<string>, x: string, z: string) returns (t: string, m: seq<string>)
    ensures Unfold(lines, [x]) == [x + t] + m && Unfold(lines, [z]) == [z + t] + m
    decreases |lines|
  {
    if lines == [] {
      t, m := [], [];
      assert x + [] == x && z + [] == z;
    } else {
      var l := TrimEndCr(lines[0]);
      if l != [] && (l[0] == ' ' || l[0] == '\t') {
        var s := " " + TrimStart(l);
        var more;
        more, m := UnfoldAfter(lines[1..], x + s, z + s);
        t := s + more;
        Continued(x, l, s, more);
        Continued(z, l, s, more);
      } else {
        t, m := [], Unfold(lines[1..], [l]);
        NextLine(lines, x, l);
        NextLine(lines, z, l);
      }
    }
  }

  lemma Continued(x: string, l: string, s: string, more: string)
    requires l != [] && (l[0] == ' ' || l[0] == '\t') && s == " " + TrimStart(l)
    ensures FoldTrimmed([x], l) == [x + s] && x + s + more == x + (s + more)
  {
    assert x + " " + TrimStart(l) == x + s;
  }

  lemma NextLine(lines: seq<string>, x: string, l: string)
    requires lines != [] && l == TrimEndCr(lines[0]) && (l == [] || !(l[0] == ' ' || l[0] == '\t'))
    ensures Unfold(lines, [x]) == [x + []] + Unfold(lines[1..], [l])
  {
    assert x + [] == x;
    assert FoldLine([x], lines[0]) == [x] + [l];
    UnfoldOnto(lines[1..], [x], [l]);
  }

  /** The lines of a text up to a field and from there on. */
  lemma FieldLines(pre: string, h: string, tail: string)
    requires h != [] && !IsWhite(h[0]) && '\n' !in h
    ensures var y := SplitLf(tail);
            Unfold(SplitLf(pre + "\n" + (h + ":" + tail)), [])
            == Unfold(SplitLf(pre), []) + Unfold(y[1..], [h + ":" + TrimEndCr(y[0])])
  {
    var y, acc, head := SplitLf(tail), Unfold(SplitLf(pre), []), h + ":";
    SplitBreak(pre, head + tail);
    SplitLfOneLine(head);
    SplitLfConcat(head, tail);
    var lines := [head + y[0]] + y[1..];
    assert Glue([head], y) == lines;
    UnfoldConcat(SplitLf(pre), lines, []);
    assert acc + [] == acc;
    UnfoldOnto(lines, acc, []);
    TrimEndCrConcat(head, y[0]);
    assert lines[1..] == y[1..];
    assert FoldLine([], lines[0]) == [head + TrimEndCr(y[0])];
  }

  /**
    Letter case in a field name and white space between it and its colon change nothing that is extracted, wherever
    the field stands in a text and whatever follows it.
  */
  lemma FieldNamesLoose(pre: string, n: string, b: string, tail: string)
    requires FieldName(n) && White(b) && '\n' !in b
    ensures Extracted(pre + "\n" + (n + b + ":" + tail)) == Extracted(pre + "\n" + (Lower(n) + ":" + tail))
  {
    var y, acc := SplitLf(tail), Unfold(SplitLf(pre), []);
    var v := TrimEndCr(y[0]);
    LowerName(n);
    FieldLines(pre, n + b, tail);
    FieldLines(pre, Lower(n), tail);
    var x, z := n + b + ":" + v, Lower(n) + ":" + v;
    var t, m := UnfoldAfter(y[1..], x, z);
    FirstThenRest(acc, x + t, m);
    FirstThenRest(acc, z + t, m);
    assert x + t == n + b + ":" + (v + t) && z + t == Lower(n) + ":" + (v + t);
    TakeLoose(Scan(acc, NOTHING), n, b, v + t);
  }

  lemma FirstThenRest(acc: seq<string>, l: string, m: seq<string>)
    ensures Scan(acc + ([l] + m), NOTHING) == Scan(m, Take(Scan(acc, NOTHING), l))
  {
    ScanConcat(acc, [l] + m, NOTHING);
    ScanConcat([l], m, Scan(acc, NOTHING));
    ScanOne(l, Scan(acc, NOTHING));
  }
}
