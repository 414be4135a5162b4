/** String operations of the standard library that several parsers use. */
module Text {
  import opened Basics

  /** Split at the first occurrence of a character. */
  function SplitOnce(s: string, c: char): Option<(string, string)> {
    if s == [] then None
    else if s[0] == c then Some(([], s[1..]))
    else
      var r := SplitOnce(s[1..], c);
      if r.None? then None else Some(([s[0]] + r.value.0, r.value.1))
  }

  lemma {:induction false} SplitOnceIs(a: string, c: char, b: string)
    requires c !in a
    ensures SplitOnce(a + [c] + b, c) == Some((a, b))
  {
    var s := a + [c] + b;
    if a == [] {
      assert s[1..] == b;
    } else {
      SplitOnceIs(a[1..], c, b);
      assert s[1..] == a[1..] + [c] + b;
      assert [a[0]] + a[1..] == a;
    }
  }

  lemma {:induction false} SplitOnceParts(s: string, c: char)
    ensures SplitOnce(s, c).Some? ==> var (a, b) := SplitOnce(s, c).value; s == a + [c] + b && c !in a
  {
    if s != [] && s[0] != c {
      SplitOnceParts(s[1..], c);
    }
  }

  /** `trim_start` */
  function TrimStart(s: string): string {
    if s != [] && IsWhite(s[0]) then TrimStart(s[1..]) else s
  }

  /** `trim_end` */
  function TrimEnd(s: string): string {
    if s != [] && IsWhite(s[|s| - 1]) then TrimEnd(s[..|s| - 1]) else s
  }

  /** `trim` */
  function Trim(s: string): string {
    TrimEnd(TrimStart(s))
  }

  lemma {:induction false} TrimEndConcat(a: string, b: string)
    requires a != [] && !IsWhite(a[|a| - 1])
    ensures TrimEnd(a + b) == a + TrimEnd(b)
  {
    if b == [] {
      assert a + b == a;
    } else if IsWhite(b[|b| - 1]) {
      TrimEndConcat(a, b[..|b| - 1]);
      assert (a + b)[..|a + b| - 1] == a + b[..|b| - 1];
    }
  }

  lemma {:induction false} TrimStartConcat(w: string, a: string)
    requires forall i :: 0 <= i < |w| ==> IsWhite(w[i])
    ensures TrimStart(w + a) == TrimStart(a)
  {
    if w == [] {
      assert w + a == a;
    } else {
      TrimStartConcat(w[1..], a);
      assert (w + a)[1..] == w[1..] + a;
    }
  }

  lemma {:induction false} TrimEndIdempotent(s: string)
    ensures TrimEnd(TrimEnd(s)) == TrimEnd(s)
  {
    if s != [] && IsWhite(s[|s| - 1]) {
      TrimEndIdempotent(s[..|s| - 1]);
    }
  }

  /** Trimming the two ends commutes. */
  lemma {:induction false} TrimCommutes(s: string)
    ensures TrimStart(TrimEnd(s)) == TrimEnd(TrimStart(s))
  {
    if s != [] && IsWhite(s[0]) {
      TrimCommutes(s[1..]);
      TrimEndOfCons(s[0], s[1..]);
      assert s == [s[0]] + s[1..];
    } else if s != [] {
      TrimEndConcat([s[0]], s[1..]);
      assert s == [s[0]] + s[1..];
    }
  }

  lemma {:induction false} TrimEndOfCons(c: char, s: string)
    requires IsWhite(c)
    ensures TrimStart(TrimEnd([c] + s)) == TrimStart(TrimEnd(s))
  {
    var cs := [c] + s;
    if s == [] {
      assert cs[..0] == [];
      assert TrimEnd(cs) == [];
    } else if IsWhite(s[|s| - 1]) {
      TrimEndOfCons(c, s[..|s| - 1]);
      assert cs[..|cs| - 1] == [c] + s[..|s| - 1];
    } else {
      assert TrimEnd(cs) == cs && cs[1..] == s;
    }
  }

  lemma TrimAfterTrimEnd(s: string)
    ensures Trim(TrimEnd(s)) == Trim(s)
  {
    TrimCommutes(s);
    TrimEndIdempotent(TrimStart(s));
  }

  lemma TrimAfterWhite(c: char, s: string)
    requires IsWhite(c)
    ensures Trim([c] + s) == Trim(s)
  {
    assert ([c] + s)[1..] == s;
  }

  /** `trim_end_matches('\r')` */
  function TrimEndCr(s: string): string {
    if s != [] && s[|s| - 1] == '\r' then TrimEndCr(s[..|s| - 1]) else s
  }

  lemma {:induction false} TrimEndCrConcat(a: string, b: string)
    requires a != [] && a[|a| - 1] != '\r'
    ensures TrimEndCr(a + b) == a + TrimEndCr(b)
  {
    if b == [] {
      assert a + b == a;
    } else if b[|b| - 1] == '\r' {
      TrimEndCrConcat(a, b[..|b| - 1]);
      assert (a + b)[..|a + b| - 1] == a + b[..|b| - 1];
    }
  }

  lemma {:induction false} TrimEndAfterCr(s: string)
    ensures TrimEnd(TrimEndCr(s)) == TrimEnd(s)
  {
    if s != [] && s[|s| - 1] == '\r' {
      TrimEndAfterCr(s[..|s| - 1]);
    }
  }

  lemma TrimAfterCr(s: string)
    ensures Trim(TrimEndCr(s)) == Trim(s)
  {
    TrimCommutes(TrimEndCr(s));
    TrimEndAfterCr(s);
    TrimCommutes(s);
  }

  /** Trimming keeps a part of the text, so it adds no character. */
  lemma {:induction false} TrimIsPart(s: string, c: char)
    requires c !in s
    ensures c !in TrimStart(s) && c !in TrimEnd(s) && c !in TrimEndCr(s) && c !in Trim(s)
  {
    TrimStartPart(s, c);
    TrimEndPart(s, c);
    TrimEndPart(TrimStart(s), c);
  }

  lemma {:induction false} TrimStartPart(s: string, c: char)
    requires c !in s
    ensures c !in TrimStart(s)
  {
    if s != [] && IsWhite(s[0]) {
      TrimStartPart(s[1..], c);
    }
  }

  lemma {:induction false} TrimEndPart(s: string, c: char)
    requires c !in s
    ensures c !in TrimEnd(s) && c !in TrimEndCr(s)
  {
    if s != [] {
      TrimEndPart(s[..|s| - 1], c);
    }
  }
}
