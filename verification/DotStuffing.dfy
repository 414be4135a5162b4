/** Message bodies on the wire: `dot_stuff` in crates/sentio-smtp-client/src/connection.rs. */
module DotStuffing {
  import opened Basics

  const CR: byte := 13
  const LF: byte := 10
  const DOT: byte := 46
  const CRLF: seq<byte> := [CR, LF]
  const END_OF_DATA: seq<byte> := [CR, LF, DOT, CR, LF]

  /** Double every dot that stands at the start of a line, a line being what follows an LF. */
  function Stuff(d: seq<byte>, atStart: bool): seq<byte> {
    if d == [] then [] else Piece(d[0], atStart) + Stuff(d[1..], d[0] == LF)
  }

  function Piece(b: byte, atStart: bool): seq<byte> {
    if atStart && b == DOT then [DOT, DOT] else [b]
  }

  predicate EndsCrlf(d: seq<byte>) {
    |d| >= 2 && d[|d| - 2] == CR && d[|d| - 1] == LF
  }

  /** The message with its last line ended: a bare final LF becomes CRLF, a missing one is added. */
  function Ended(d: seq<byte>): seq<byte> {
    if EndsCrlf(d) then d
    else if d != [] && d[|d| - 1] == LF then d[..|d| - 1] + CRLF
    else d + CRLF
  }

  lemma {:induction false} StuffConcat(a: seq<byte>, b: seq<byte>, atStart: bool)
    ensures Stuff(a + b, atStart) == Stuff(a, atStart) + Stuff(b, if a == [] then atStart else a[|a| - 1] == LF)
  {
    if a == [] {
      assert a + b == b;
    } else {
      StuffConcat(a[1..], b, a[0] == LF);
      assert (a + b)[1..] == a[1..] + b;
      Assoc(Piece(a[0], atStart), Stuff(a[1..], a[0] == LF), Stuff(b, a[|a| - 1] == LF));
    }
  }

  lemma {:induction false} StuffLast(d: seq<byte>, atStart: bool)
    requires d != []
    ensures var r := Stuff(d, atStart); r != [] && r[|r| - 1] == d[|d| - 1]
  {
    if |d| > 1 {
      StuffLast(d[1..], d[0] == LF);
    } else {
      assert Stuff(d[1..], d[0] == LF) == [];
    }
  }

  lemma StuffSnocLf(a: seq<byte>, atStart: bool)
    ensures Stuff(a + [LF], atStart) == Stuff(a, atStart) + [LF]
    ensures Stuff(a + CRLF, atStart) == Stuff(a, atStart) + CRLF
  {
    StuffConcat(a, [LF], atStart);
    StuffConcat(a, CRLF, atStart);
    assert [LF][1..] == [] && CRLF[1..] == [LF];
    assert Stuff([LF], false) == [LF] && Stuff([LF], true) == [LF];
    assert Stuff(CRLF, false) == CRLF && Stuff(CRLF, true) == CRLF;
  }

  lemma EndedAfterLf(a: seq<byte>)
    ensures Ended(a + [LF]) == if a != [] && a[|a| - 1] == CR then a + [LF] else a + CRLF
  {
    var d := a + [LF];
    assert d[..|d| - 1] == a;
  }

  lemma EndedStuffAfterLf(a: seq<byte>)
    ensures Ended(Stuff(a + [LF], true)) == Stuff(Ended(a + [LF]), true)
  {
    EndedAfterLf(a);
    StuffSnocLf(a, true);
    if a != [] {
      StuffLast(a, true);
    }
    EndedAfterLf(Stuff(a, true));
  }

  /** Stuffing and ending the last line commute. */
  lemma EndedStuff(d: seq<byte>)
    ensures Ended(Stuff(d, true)) == Stuff(Ended(d), true)
  {
    if d != [] && d[|d| - 1] == LF {
      assert d == d[..|d| - 1] + [LF];
      EndedStuffAfterLf(d[..|d| - 1]);
    } else {
      if d != [] {
        StuffLast(d, true);
      }
      StuffSnocLf(d, true);
    }
  }

  /** The loop of `dot_stuff`. */
  method StuffLoop(data: seq<byte>) returns (out: seq<byte>)
    ensures out == Stuff(data, true)
  {
    out := [];
    var atLineStart := true;
    for i := 0 to |data|
      invariant out + Stuff(data[i..], atLineStart) == Stuff(data, true)
    {
      assert data[i..][1..] == data[i + 1..];
      Assoc(out, Piece(data[i], atLineStart), Stuff(data[i + 1..], data[i] == LF));
      if atLineStart && data[i] == DOT {
        out := out + [DOT, DOT];
      } else {
        out := out + [data[i]];
      }
      atLineStart := data[i] == LF;
    }
  }

  /** `dot_stuff`. */
  method DotStuff(data: seq<byte>) returns (out: seq<byte>)
    ensures out == Stuff(Ended(data), true) + [DOT] + CRLF
  {
    out := StuffLoop(data);
    EndedStuff(data);
    if !EndsCrlf(out) {
      if out != [] && out[|out| - 1] == LF {
        out := out[|out| - 1 := CR];
        out := out + [LF];
      } else {
        out := out + CRLF;
      }
    }
    assert out == Stuff(Ended(data), true);
    out := out + [DOT] + CRLF;
  }

  // ----- the end-of-data sequence

  /** In stuffed text a dot after an LF, or at a line start, is followed by a dot. */
  lemma {:induction false} DotsAreDoubled(d: seq<byte>, atStart: bool, i: nat)
    requires i < |Stuff(d, atStart)| && Stuff(d, atStart)[i] == DOT
    requires if i == 0 then atStart else Stuff(d, atStart)[i - 1] == LF
    ensures i + 1 < |Stuff(d, atStart)| && Stuff(d, atStart)[i + 1] == DOT
  {
    var head := Piece(d[0], atStart);
    var rest := Stuff(d[1..], d[0] == LF);
    assert Stuff(d, atStart) == head + rest;
    if i >= |head| {
      DotsAreDoubled(d[1..], d[0] == LF, i - |head|);
    }
  }

  /** For every byte string the end-of-data sequence occurs at the very end of the output and nowhere else. */
  lemma EndOfDataOnlyAtEnd(data: seq<byte>, i: nat)
    requires i + 5 <= |Stuff(Ended(data), true) + [DOT] + CRLF|
    ensures var out := Stuff(Ended(data), true) + [DOT] + CRLF;
            out[i..i + 5] == END_OF_DATA <==> i + 5 == |out|
  {
    var s := Stuff(Ended(data), true);
    var out := s + [DOT] + CRLF;
    StuffedEndsCrlf(data);
    if i + 5 == |out| {
      AtEnd(s, out, i);
    } else {
      NotBefore(Ended(data), s, out, i);
    }
  }

  lemma StuffedEndsCrlf(data: seq<byte>)
    ensures EndsCrlf(Stuff(Ended(data), true))
  {
    EndedStuff(data);
    EndedEndsCrlf(Stuff(data, true));
  }

  lemma EndedEndsCrlf(d: seq<byte>)
    ensures EndsCrlf(Ended(d))
  {
  }

  lemma AtEnd(s: seq<byte>, out: seq<byte>, i: nat)
    requires EndsCrlf(s) && out == s + [DOT] + CRLF && i + 5 == |out|
    ensures out[i..i + 5] == END_OF_DATA
  {
  }

  lemma NotBefore(d: seq<byte>, s: seq<byte>, out: seq<byte>, i: nat)
    requires s == Stuff(d, true) && out == s + [DOT] + CRLF && i + 5 < |out|
    ensures out[i..i + 5] != END_OF_DATA
  {
    var part := out[i..i + 5];
    assert part[1] == s[i + 1] && part[2] == out[i + 2] && part[3] == out[i + 3];
    if part[1] == LF && part[2] == DOT && i + 2 < |s| {
      DotsAreDoubled(d, true, i + 2);
      assert part[3] == DOT;
    }
  }

  // ----- a receiver following section 4.5.2 of RFC 5321

  /** Where the first CRLF starts. */
  function LineEnd(s: seq<byte>): (r: Option<nat>)
    ensures r.Some? ==> r.value + 2 <= |s| && s[r.value] == CR && s[r.value + 1] == LF
  {
    if |s| < 2 then None
    else if s[0] == CR && s[1] == LF then Some(0)
    else
      var r := LineEnd(s[1..]);
      if r.Some? then Some(r.value + 1) else None
  }

  datatype Received = Complete(message: seq<byte>, rest: seq<byte>) | Incomplete

  function Unstuff(line: seq<byte>): seq<byte> {
    if line != [] && line[0] == DOT then line[1..] else line
  }

  /** Read lines up to the one that is a single dot, dropping a leading dot from the others. */
  function Receive(s: seq<byte>): Received
    decreases |s|
  {
    var n := LineEnd(s);
    if n.None? then Incomplete
    else
      var line, rest := s[..n.value], s[n.value + 2..];
      if line == [DOT] then Complete([], rest)
      else
        var more := Receive(rest);
        if more.Incomplete? then Incomplete else Complete(Unstuff(line) + CRLF + more.message, more.rest)
  }

  ghost predicate NoCrlf(s: seq<byte>) {
    forall i :: 0 <= i < |s| - 1 ==> !(s[i] == CR && s[i + 1] == LF)
  }

  lemma {:induction false} LineEndIsFirst(s: seq<byte>)
    ensures LineEnd(s).Some? ==> NoCrlf(s[..LineEnd(s).value])
    ensures LineEnd(s).None? ==> NoCrlf(s)
  {
    if |s| >= 2 && !(s[0] == CR && s[1] == LF) {
      LineEndIsFirst(s[1..]);
      var r := LineEnd(s[1..]);
      if r.Some? {
        var line := s[..r.value + 1];
        assert line[1..] == s[1..][..r.value];
        forall i | 0 <= i < |line| - 1
          ensures !(line[i] == CR && line[i + 1] == LF)
        {
          if i > 0 {
            assert line[i] == line[1..][i - 1] && line[i + 1] == line[1..][i];
          }
        }
      } else {
        forall i | 0 <= i < |s| - 1
          ensures !(s[i] == CR && s[i + 1] == LF)
        {
          if i > 0 {
            assert s[i] == s[1..][i - 1] && s[i + 1] == s[1..][i];
          }
        }
      }
    }
  }

  lemma {:induction false} LineEndAfter(a: seq<byte>, x: seq<byte>)
    requires NoCrlf(a)
    ensures LineEnd(a + CRLF + x) == Some(|a|)
  {
    var s := a + CRLF + x;
    if a == [] {
      assert s[0] == CR && s[1] == LF;
    } else {
      assert s[1..] == a[1..] + CRLF + x;
      assert NoCrlf(a[1..]) by {
        forall i | 0 <= i < |a[1..]| - 1
          ensures !(a[1..][i] == CR && a[1..][i + 1] == LF)
        {
          assert a[1..][i] == a[i + 1] && a[1..][i + 1] == a[i + 2];
        }
      }
      LineEndAfter(a[1..], x);
      assert |a| == 1 ==> s[1] == CR;
      assert |a| > 1 ==> s[0] == a[0] && s[1] == a[1];
    }
  }

  lemma {:induction false} StuffNoCrlf(d: seq<byte>, atStart: bool)
    requires NoCrlf(d)
    ensures NoCrlf(Stuff(d, atStart))
  {
    if d != [] {
      var head := Piece(d[0], atStart);
      var rest := Stuff(d[1..], d[0] == LF);
      var s := Stuff(d, atStart);
      assert s == head + rest;
      forall i | 0 <= i < |d[1..]| - 1
        ensures !(d[1..][i] == CR && d[1..][i + 1] == LF)
      {
        assert d[1..][i] == d[i + 1] && d[1..][i + 1] == d[i + 2];
      }
      StuffNoCrlf(d[1..], d[0] == LF);
      forall i | 0 <= i < |s| - 1
        ensures !(s[i] == CR && s[i + 1] == LF)
      {
        if i >= |head| {
          assert s[i] == rest[i - |head|] && s[i + 1] == rest[i + 1 - |head|];
        } else if i == |head| - 1 && s[i] == CR {
          StuffFirst(d[1..], d[0] == LF);
        }
      }
    }
  }

  lemma StuffFirst(d: seq<byte>, atStart: bool)
    ensures Stuff(d, atStart) != [] ==> d != [] && Stuff(d, atStart)[0] == d[0]
  {
  }

  /** At the start of a line stuffing puts at most one dot in front. */
  lemma StuffStart(t: seq<byte>, atStart: bool)
    requires t != []
    ensures Stuff(t, false) != [] && Stuff(t, false)[0] == t[0]
    ensures Stuff(t, atStart) == if atStart && t[0] == DOT then [DOT] + Stuff(t, false) else Stuff(t, false)
  {
  }

  lemma UnstuffStuff(l: seq<byte>)
    ensures Unstuff(Stuff(l, true)) == Stuff(l, false) && Stuff(l, true) != [DOT]
  {
    if l != [] {
      StuffStart(l, true);
      Undotted(Stuff(l, false));
    }
  }

  lemma Undotted(s: seq<byte>)
    requires s != []
    ensures Unstuff([DOT] + s) == s && [DOT] + s != [DOT]
  {
    assert ([DOT] + s)[1..] == s;
    assert |[DOT] + s| > 1;
  }

  /** What the receiver makes of a text of complete lines. */
  function Kept(d: seq<byte>): seq<byte>
    decreases |d|
  {
    var n := LineEnd(d);
    if n.None? then [] else Stuff(d[..n.value], false) + CRLF + Kept(d[n.value + 2..])
  }

  ghost predicate CompleteLines(d: seq<byte>) {
    d == [] || EndsCrlf(d)
  }

  lemma SplitFirstLine(d: seq<byte>) returns (l: seq<byte>, rest: seq<byte>)
    requires EndsCrlf(d)
    ensures d == l + CRLF + rest && NoCrlf(l) && CompleteLines(rest)
    ensures LineEnd(d) == Some(|l|) && d[..|l|] == l && d[|l| + 2..] == rest
  {
    LineEndIsFirst(d);
    if LineEnd(d).None? {
      assert false;
    }
    var n := LineEnd(d).value;
    l, rest := d[..n], d[n + 2..];
    assert d[n + 1] == LF;
  }

  lemma ReceiveLine(line: seq<byte>, tail: seq<byte>)
    requires NoCrlf(line) && line != [DOT] && Receive(tail).Complete?
    ensures Receive(line + CRLF + tail) == Complete(Unstuff(line) + CRLF + Receive(tail).message, Receive(tail).rest)
  {
    var s := line + CRLF + tail;
    LineEndAfter(line, tail);
    assert s[..|line|] == line && s[|line| + 2..] == tail;
  }

  lemma StuffedLine(l: seq<byte>, rest: seq<byte>)
    ensures Stuff(l + CRLF + rest, true) == Stuff(l, true) + CRLF + Stuff(rest, true)
  {
    StuffConcat(l + CRLF, rest, true);
    StuffSnocLf(l, true);
  }

  lemma ReceiveFirst(l: seq<byte>, rest: seq<byte>)
    requires NoCrlf(l) && Receive(Stuff(rest, true) + [DOT] + CRLF) == Complete(Kept(rest), [])
    ensures Receive(Stuff(l + CRLF + rest, true) + [DOT] + CRLF) == Complete(Stuff(l, false) + CRLF + Kept(rest), [])
  {
    var tail := Stuff(rest, true) + [DOT] + CRLF;
    StuffedLine(l, rest);
    assert Stuff(l, true) + CRLF + Stuff(rest, true) + [DOT] + CRLF == Stuff(l, true) + CRLF + tail;
    StuffNoCrlf(l, true);
    UnstuffStuff(l);
    ReceiveLine(Stuff(l, true), tail);
  }

  lemma ReceiveEnd()
    ensures Receive([DOT] + CRLF) == Complete([], [])
  {
    var s := [DOT] + CRLF;
    assert s == [DOT] + CRLF + [];
    LineEndAfter([DOT], []);
    assert s[..1] == [DOT] && s[3..] == [];
  }

  /** The receiver stops exactly at the end of the stream and has `Kept` the message. */
  lemma {:induction false} ReceiveStuffed(d: seq<byte>)
    requires CompleteLines(d)
    ensures Receive(Stuff(d, true) + [DOT] + CRLF) == Complete(Kept(d), [])
    decreases |d|
  {
    if d == [] {
      ReceiveEnd();
      assert Stuff(d, true) + [DOT] + CRLF == [DOT] + CRLF;
    } else {
      var l, rest := SplitFirstLine(d);
      ReceiveStuffed(rest);
      ReceiveFirst(l, rest);
    }
  }

  // ----- when the message is recovered exactly

  /** An LF without a CR before it and with a dot after it. */
  ghost predicate BareLfDotAt(d: seq<byte>, i: int) {
    0 <= i < |d| - 1 && d[i] == LF && d[i + 1] == DOT && (i == 0 || d[i - 1] != CR)
  }

  ghost predicate HasBareLfDot(d: seq<byte>) {
    exists i :: BareLfDotAt(d, i)
  }

  ghost predicate HasLfDot(l: seq<byte>) {
    exists i :: 0 <= i < |l| - 1 && l[i] == LF && l[i + 1] == DOT
  }

  lemma LfDotTail(l: seq<byte>)
    requires |l| >= 2
    ensures HasLfDot(l) <==> (l[0] == LF && l[1] == DOT) || HasLfDot(l[1..])
  {
    var t := l[1..];
    if HasLfDot(l) {
      var i :| 0 <= i < |l| - 1 && l[i] == LF && l[i + 1] == DOT;
      if i > 0 {
        assert t[i - 1] == LF && t[i] == DOT;
      }
    }
    if HasLfDot(t) {
      var i :| 0 <= i < |t| - 1 && t[i] == LF && t[i + 1] == DOT;
      assert l[i + 1] == LF && l[i + 1 + 1] == DOT;
    }
  }

  /** Inside a line stuffing is the identity exactly when no LF is followed by a dot. */
  lemma {:induction false} StuffLine(l: seq<byte>)
    ensures if HasLfDot(l) then |Stuff(l, false)| > |l| else Stuff(l, false) == l
  {
    if |l| == 1 {
      assert Stuff(l[1..], l[0] == LF) == [];
    } else if |l| >= 2 {
      var t := l[1..];
      StuffLine(t);
      LfDotTail(l);
      assert l == [l[0]] + t && Stuff(l, false) == [l[0]] + Stuff(t, l[0] == LF);
      StuffStart(t, l[0] == LF);
    }
  }

  lemma {:induction false} KeptExactly(d: seq<byte>)
    requires CompleteLines(d)
    ensures |Kept(d)| >= |d| && (Kept(d) == d || |Kept(d)| > |d|)
    ensures Kept(d) == d <==> !HasBareLfDot(d)
    decreases |d|
  {
    if d != [] {
      var l, rest := SplitFirstLine(d);
      KeptExactly(rest);
      StuffLine(l);
      assert Kept(d) == Stuff(l, false) + CRLF + Kept(rest);
      LineOrRest(d, l, rest);
    }
  }

  lemma LineOrRest(d: seq<byte>, l: seq<byte>, rest: seq<byte>)
    requires d == l + CRLF + rest && NoCrlf(l) && CompleteLines(rest)
    ensures HasBareLfDot(d) <==>
            HasLfDot(l) || HasBareLfDot(rest)
  {
    if HasLfDot(l) {
      var i :| 0 <= i < |l| - 1 && l[i] == LF && l[i + 1] == DOT;
      assert i > 0 ==> l[i - 1] != CR;
      assert BareLfDotAt(d, i) by { assert d[i] == l[i] && d[i + 1] == l[i + 1] && (i > 0 ==> d[i - 1] == l[i - 1]); }
    }
    if HasBareLfDot(rest) {
      var i :| BareLfDotAt(rest, i);
      var k := |l| + 2 + i;
      assert d[k] == rest[i] && d[k + 1] == rest[i + 1];
      assert i > 0 ==> d[k - 1] == rest[i - 1];
      assert i == 0 ==> d[k - 1] == LF;
      assert BareLfDotAt(d, k);
    }
    if HasBareLfDot(d) {
      var i :| BareLfDotAt(d, i);
      if i < |l| {
        assert d[i] == l[i];
        assert d[|l|] == CR;
        assert l[i] == LF && l[i + 1] == DOT;
      } else {
        var k := i - (|l| + 2);
        assert i != |l| && i != |l| + 1 by { assert d[|l|] == CR && d[|l| + 1] == LF; }
        assert rest[k] == d[i] && rest[k + 1] == d[i + 1];
        assert k > 0 ==> rest[k - 1] == d[i - 1];
        assert BareLfDotAt(rest, k);
      }
    }
  }

  lemma EndedKeepsBareLfDots(data: seq<byte>)
    ensures HasBareLfDot(Ended(data)) <==> HasBareLfDot(data)
  {
    var e := Ended(data);
    if HasBareLfDot(data) {
      var i :| BareLfDotAt(data, i);
      assert BareLfDotAt(e, i);
    }
    if HasBareLfDot(e) {
      var i :| BareLfDotAt(e, i);
      assert BareLfDotAt(data, i);
    }
  }

  /**
    A receiver recovers the message, with its last line ended, if and only if no bare LF is followed by a dot;
    and it always recognises the end of the message at the end of the output.
  */
  lemma RecoveredExactly(data: seq<byte>)
    ensures var out := Stuff(Ended(data), true) + [DOT] + CRLF;
            && Receive(out).Complete? && Receive(out).rest == []
            && (Receive(out).message == Ended(data) <==> !HasBareLfDot(data))
  {
    ReceiveStuffed(Ended(data));
    KeptExactly(Ended(data));
    EndedKeepsBareLfDots(data);
  }

  /** In particular messages whose every LF follows a CR are recovered exactly. */
  lemma CrlfMessagesRecovered(data: seq<byte>)
    requires forall i :: 0 <= i < |data| && data[i] == LF ==> i > 0 && data[i - 1] == CR
    ensures Receive(Stuff(Ended(data), true) + [DOT] + CRLF)
            == Complete(if EndsCrlf(data) then data else data + CRLF, [])
  {
    RecoveredExactly(data);
    assert !HasBareLfDot(data);
  }
}
