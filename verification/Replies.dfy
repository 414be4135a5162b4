/** Reading SMTP replies: `read_line` and `read_response` in crates/sentio-smtp-client/src/connection.rs. */
module Replies {
  import opened Basics

  const CR: byte := 13
  const LF: byte := 10
  const DASH: byte := 45
  const PERIOD: byte := 46
  const PLUS: byte := 43
  const SPACE: byte := 32

  datatype Reply = Reply(code: nat, enhanced: Option<seq<byte>>, lines: seq<seq<byte>>)

  datatype Outcome = Good(reply: Reply) | Malformed | Closed

  predicate IsDigit(b: byte) {
    48 <= b <= 57
  }

  function Digit(b: byte): nat
    requires IsDigit(b)
  {
    b as int - 48
  }

  /** `line[..3].parse::<u16>()`, which also takes a leading plus sign. */
  function ParseCode(s: seq<byte>): Option<nat>
    requires |s| == 3
  {
    if IsDigit(s[0]) && IsDigit(s[1]) && IsDigit(s[2]) then Some(Digit(s[0]) * 100 + Digit(s[1]) * 10 + Digit(s[2]))
    else if s[0] == PLUS && IsDigit(s[1]) && IsDigit(s[2]) then Some(Digit(s[1]) * 10 + Digit(s[2]))
    else None
  }

  /** Position of the first LF; the length if there is none. */
  function FirstLf(s: seq<byte>): (n: nat)
    ensures n <= |s| && LF !in s[..n] && (n < |s| ==> s[n] == LF)
  {
    if s == [] || s[0] == LF then 0
    else
      var n := FirstLf(s[1..]);
      assert s[..n + 1] == [s[0]] + s[1..][..n];
      n + 1
  }

  predicate WellFormed(line: seq<byte>) {
    |line| >= 3 && ParseCode(line[..3]).Some?
  }

  predicate Continues(line: seq<byte>) {
    |line| > 3 && line[3] == DASH
  }

  function Text(line: seq<byte>): seq<byte> {
    if |line| > 4 then line[4..] else []
  }

  /** The first word of a text. */
  function FirstWord(t: seq<byte>): seq<byte> {
    if t == [] || t[0] == SPACE then [] else [t[0]] + FirstWord(t[1..])
  }

  function Enhanced(before: Option<seq<byte>>, text: seq<byte>): Option<seq<byte>> {
    var w := FirstWord(text);
    if before.None? && text != [] && |w| >= 5 && w[1] == PERIOD then Some(w) else before
  }

  /** The reply at the front of a byte stream, given the lines already read, and what is left of the stream. */
  function ReplyFrom(s: seq<byte>, lines: seq<seq<byte>>, enhanced: Option<seq<byte>>): (Outcome, seq<byte>)
    decreases |s|
  {
    var n := FirstLf(s);
    if n == |s| then (Closed, s)
    else
      var line, rest := s[..n], s[n + 1..];
      if !WellFormed(line) then (Malformed, rest)
      else
        var e := Enhanced(enhanced, Text(line));
        var more := lines + [Text(line)];
        if Continues(line) then ReplyFrom(rest, more, e)
        else (Good(Reply(ParseCode(line[..3]).value, e, more)), rest)
  }

  // ----- the reader

  function Flat(chunks: seq<seq<byte>>): seq<byte> {
    if chunks == [] then [] else chunks[0] + Flat(chunks[1..])
  }

  class Reader {
    var readBuf: seq<byte>
    var incoming: seq<seq<byte>>       // what successive reads of the socket will return

    constructor (incoming: seq<seq<byte>>)
      ensures readBuf == [] && this.incoming == incoming
    {
      readBuf, this.incoming := [], incoming;
    }

    /** Everything not yet consumed. */
    ghost function Stream(): seq<byte>
      reads this
    {
      readBuf + Flat(incoming)
    }

    /** No read returns zero bytes before the connection is closed. */
    ghost predicate Valid()
      reads this
    {
      forall i :: 0 <= i < |incoming| ==> incoming[i] != []
    }

    /** `into_parts` and `from_upgraded`: the TLS stream replaces the plain one, the buffer is carried over. */
    method Upgrade(tls: seq<seq<byte>>)
      modifies this
      ensures readBuf == old(readBuf) && incoming == tls && Stream() == old(readBuf) + Flat(tls)
    {
      incoming := tls;
    }

    /** `read_line`: the line with its LF, or nothing when the connection closes first. */
    method ReadLine() returns (line: Option<seq<byte>>)
      requires Valid()
      modifies this
      ensures Valid()
      ensures var s := old(Stream());
              var n := FirstLf(s);
              if n == |s| then line == None && Stream() == s
              else line == Some(s[..n + 1]) && Stream() == s[n + 1..]
    {
      ghost var s := Stream();
      while true
        invariant Valid() && Stream() == s
        decreases |incoming|
      {
        var pos := FirstLf(readBuf);
        if pos < |readBuf| {
          LfInPrefix(readBuf, Flat(incoming));
          assert s[..pos + 1] == readBuf[..pos + 1];
          line := Some(readBuf[..pos + 1]);
          readBuf := readBuf[pos + 1..];
          assert Stream() == s[pos + 1..];
          return;
        }
        if incoming == [] {
          assert Stream() == readBuf;
          return None;
        }
        assert readBuf + Flat(incoming) == readBuf + incoming[0] + Flat(incoming[1..]);
        readBuf := readBuf + incoming[0];
        incoming := incoming[1..];
      }
    }

    /**
      `read_response`: whatever the sizes of the reads, the reply and what stays unread are those of the
      byte stream as a whole.
    */
    method ReadResponse() returns (r: Outcome)
      requires Valid()
      modifies this
      ensures Valid()
      ensures (r, Stream()) == ReplyFrom(old(Stream()), [], None)
    {
      var lines: seq<seq<byte>>, enhanced: Option<seq<byte>> := [], None;
      while true
        invariant Valid()
        invariant ReplyFrom(Stream(), lines, enhanced) == ReplyFrom(old(Stream()), [], None)
        decreases |Stream()|
      {
        ghost var s := Stream();
        var raw := ReadLine();
        if raw.None? { return Closed; }
        var line := raw.value[..|raw.value| - 1];
        assert line == s[..FirstLf(s)];
        if |line| < 3 { return Malformed; }
        var code := ParseCode(line[..3]);
        if code.None? { return Malformed; }
        var text := if |line| > 4 then line[4..] else [];
        enhanced := Enhanced(enhanced, text);
        lines := lines + [text];
        if !(|line| > 3 && line[3] == DASH) {
          return Good(Reply(code.value, enhanced, lines));
        }
      }
    }
  }

  lemma {:induction false} LfInPrefix(a: seq<byte>, b: seq<byte>)
    requires FirstLf(a) < |a|
    ensures FirstLf(a + b) == FirstLf(a)
  {
    if a[0] != LF {
      LfInPrefix(a[1..], b);
      assert (a + b)[1..] == a[1..] + b;
    }
  }

  // ----- what a server writes

  function Digits(code: nat): seq<byte>
    requires code < 1000
  {
    [code / 100 + 48, code / 10 % 10 + 48, code % 10 + 48]
  }

  /** One reply line: code, separator, text, CRLF. */
  function Line(code: nat, last: bool, text: seq<byte>): seq<byte>
    requires code < 1000
  {
    Digits(code) + [if last then SPACE else DASH] + text + [CR, LF]
  }

  function Rendered(code: nat, texts: seq<seq<byte>>): seq<byte>
    requires code < 1000 && texts != []
  {
    Line(code, |texts| == 1, texts[0]) + if |texts| == 1 then [] else Rendered(code, texts[1..])
  }

  /** The lines as the reader returns them: the CR stays, because the line end is trimmed in the wrong order. */
  function WithCr(texts: seq<seq<byte>>): seq<seq<byte>> {
    if texts == [] then [] else [texts[0] + [CR]] + WithCr(texts[1..])
  }

  function EnhancedOf(before: Option<seq<byte>>, texts: seq<seq<byte>>): Option<seq<byte>>
    decreases |texts|
  {
    if texts == [] then before else EnhancedOf(Enhanced(before, texts[0] + [CR]), texts[1..])
  }

  lemma {:induction false} FirstLfAt(a: seq<byte>, b: seq<byte>)
    requires LF !in a
    ensures FirstLf(a + [LF] + b) == |a|
  {
    if a != [] {
      FirstLfAt(a[1..], b);
      assert (a + [LF] + b)[1..] == a[1..] + [LF] + b;
    }
  }

  /** One well-formed line at the front of the stream. */
  lemma ReadFirst(line: seq<byte>, rest: seq<byte>, lines: seq<seq<byte>>, e: Option<seq<byte>>)
    requires LF !in line && WellFormed(line)
    ensures var e' := Enhanced(e, Text(line));
            ReplyFrom(line + [LF] + rest, lines, e) ==
            if Continues(line) then ReplyFrom(rest, lines + [Text(line)], e')
            else (Good(Reply(ParseCode(line[..3]).value, e', lines + [Text(line)])), rest)
  {
    var s := line + [LF] + rest;
    FirstLfAt(line, rest);
    assert s[..|line|] == line && s[|line| + 1..] == rest;
  }

  lemma LineParts(code: nat, last: bool, text: seq<byte>, line: seq<byte>)
    requires code < 1000 && line == Digits(code) + [if last then SPACE else DASH] + text + [CR]
    ensures WellFormed(line) && ParseCode(line[..3]).value == code
    ensures Continues(line) == !last && Text(line) == text + [CR]
  {
    assert line[..3] == Digits(code) && line[4..] == text + [CR];
    assert ParseCode(Digits(code)) == Some(code);
  }

  lemma ReadOneLine(code: nat, last: bool, text: seq<byte>, rest: seq<byte>, lines: seq<seq<byte>>,
                    e: Option<seq<byte>>)
    requires code < 1000 && LF !in text
    ensures var e' := Enhanced(e, text + [CR]);
            ReplyFrom(Line(code, last, text) + rest, lines, e) ==
            if last then (Good(Reply(code, e', lines + [text + [CR]])), rest)
            else ReplyFrom(rest, lines + [text + [CR]], e')
  {
    var line := Digits(code) + [if last then SPACE else DASH] + text + [CR];
    assert Line(code, last, text) + rest == line + [LF] + rest;
    LineParts(code, last, text, line);
    ReadFirst(line, rest, lines, e);
  }

  /**
    Round trip: a reply rendered by a server is read back with its code and all its texts, each still carrying
    its CR, and nothing that follows is consumed.
  */
  lemma {:induction false} ReadRendered(code: nat, texts: seq<seq<byte>>, rest: seq<byte>, lines: seq<seq<byte>>,
                                        e: Option<seq<byte>>)
    requires code < 1000 && texts != [] && forall i :: 0 <= i < |texts| ==> LF !in texts[i]
    ensures ReplyFrom(Rendered(code, texts) + rest, lines, e)
            == (Good(Reply(code, EnhancedOf(e, texts), lines + WithCr(texts))), rest)
    decreases |texts|
  {
    var text := texts[0];
    var e' := Enhanced(e, text + [CR]);
    if |texts| == 1 {
      ReadOneLine(code, true, text, rest, lines, e);
      OneText(code, texts, e);
    } else {
      var tail := Rendered(code, texts[1..]);
      ReadOneLine(code, false, text, tail + rest, lines, e);
      Assoc(Line(code, false, text), tail, rest);
      ReadRendered(code, texts[1..], rest, lines + [text + [CR]], e');
      Assoc(lines, [text + [CR]], WithCr(texts[1..]));
    }
  }

  lemma OneText(code: nat, texts: seq<seq<byte>>, e: Option<seq<byte>>)
    requires code < 1000 && |texts| == 1
    ensures Rendered(code, texts) == Line(code, true, texts[0])
    ensures WithCr(texts) == [texts[0] + [CR]] && EnhancedOf(e, texts) == Enhanced(e, texts[0] + [CR])
  {
    assert texts[1..] == [];
    assert WithCr([]) == [];
  }

  /** The text starts with this word, and the word looks like an enhanced status code. */
  ghost predicate StatusWord(text: seq<byte>, w: seq<byte>) {
    && w <= text && SPACE !in w && (|w| < |text| ==> text[|w|] == SPACE)
    && |w| >= 5 && w[1] == PERIOD
  }

  lemma {:induction false} FirstWordIs(t: seq<byte>)
    ensures var w := FirstWord(t); w <= t && SPACE !in w && (|w| < |t| ==> t[|w|] == SPACE)
  {
    if t != [] && t[0] != SPACE {
      FirstWordIs(t[1..]);
    }
  }

  lemma OnlyFirstWord(t: seq<byte>, w: seq<byte>)
    requires w <= t && SPACE !in w && (|w| < |t| ==> t[|w|] == SPACE)
    ensures w == FirstWord(t)
  {
    var f := FirstWord(t);
    FirstWordIs(t);
  }

  /** The enhanced status of a reply is the first of its texts' first words that looks like one, if there is any. */
  lemma {:induction false} EnhancedExactly(texts: seq<seq<byte>>)
    ensures match EnhancedOf(None, texts)
            case Some(w) =>
              exists i :: 0 <= i < |texts| && StatusWord(texts[i] + [CR], w)
                && forall j, v :: 0 <= j < i ==> !StatusWord(texts[j] + [CR], v)
            case None => forall j, v :: 0 <= j < |texts| ==> !StatusWord(texts[j] + [CR], v)
  {
    if texts != [] {
      var t := texts[0] + [CR];
      FirstWordIs(t);
      forall v | StatusWord(t, v)
        ensures v == FirstWord(t)
      {
        OnlyFirstWord(t, v);
      }
      if Enhanced(None, t).Some? {
        EnhancedStays(FirstWord(t), texts[1..]);
        assert StatusWord(texts[0] + [CR], FirstWord(t));
      } else {
        var e := EnhancedOf(None, texts[1..]);
        EnhancedExactly(texts[1..]);
        if e.Some? {
          var i :| 0 <= i < |texts[1..]| && StatusWord(texts[1..][i] + [CR], e.value)
                   && forall j, v :: 0 <= j < i ==> !StatusWord(texts[1..][j] + [CR], v);
          assert StatusWord(texts[i + 1] + [CR], e.value);
        }
      }
    }
  }

  lemma {:induction false} EnhancedStays(w: seq<byte>, texts: seq<seq<byte>>)
    ensures EnhancedOf(Some(w), texts) == Some(w)
  {
    if texts != [] {
      EnhancedStays(w, texts[1..]);
    }
  }

  /** The line starts with a code as the reader takes it: three digits, or a plus sign and two. */
  predicate StartsWithCode(line: seq<byte>) {
    |line| >= 3 && (IsDigit(line[0]) || line[0] == PLUS) && IsDigit(line[1]) && IsDigit(line[2])
  }

  /**
    What one line is taken for: without a code in front it is malformed, and with one it is a whole reply unless a
    dash follows; a plus sign counts as a zero, so that such a code is below 100.
  */
  lemma LineTakenExactly(line: seq<byte>, rest: seq<byte>)
    requires LF !in line
    ensures var r := ReplyFrom(line + [LF] + rest, [], None);
            && (!StartsWithCode(line) ==> r == (Malformed, rest))
            && (StartsWithCode(line) && (|line| == 3 || line[3] != DASH) ==>
                  && r.0.Good? && r.1 == rest
                  && r.0.reply.code == (if line[0] == PLUS then 0 else 100 * Digit(line[0]))
                                       + 10 * Digit(line[1]) + Digit(line[2]))
  {
    var s := line + [LF] + rest;
    FirstLfAt(line, rest);
    assert s[..|line|] == line && s[|line| + 1..] == rest;
  }

  // ----- after the upgrade to TLS

  lemma {:induction false} LinesGrow(s: seq<byte>, lines: seq<seq<byte>>, e: Option<seq<byte>>)
    ensures var r := ReplyFrom(s, lines, e).0; r.Good? ==> |r.reply.lines| > |lines|
    decreases |s|
  {
    var n := FirstLf(s);
    if n < |s| && WellFormed(s[..n]) && Continues(s[..n]) {
      LinesGrow(s[n + 1..], lines + [Text(s[..n])], Enhanced(e, Text(s[..n])));
    }
  }

  lemma FirstLineOf(s: seq<byte>) returns (line: seq<byte>, rest: seq<byte>)
    requires ReplyFrom(s, [], None).0.Good?
    ensures s == line + [LF] + rest && LF !in line && WellFormed(line)
  {
    var n := FirstLf(s);
    line, rest := s[..n], s[n + 1..];
  }

  /** A reply with one empty text and nothing after it is a stream of at most four bytes and an LF. */
  lemma OneShortLine(s: seq<byte>)
    requires ReplyFrom(s, [], None).0.Good? && ReplyFrom(s, [], None).0.reply.lines == [[]]
    requires ReplyFrom(s, [], None).1 == []
    ensures |s| <= 5
  {
    var line, rest := FirstLineOf(s);
    ReadFirst(line, rest, [], None);
    assert [] + [Text(line)] == [Text(line)];
    LinesGrow(rest, [Text(line)], Enhanced(None, Text(line)));
  }

  const FINAL: seq<byte> := [50, 53, 48, SPACE]

  const FINAL_LINE: seq<byte> := FINAL + [LF]

  lemma FinalLineRead()
    ensures ReplyFrom(FINAL_LINE, [], None) == (Good(Reply(250, None, [[]])), [])
  {
    assert FINAL[..3] == [50, 53, 48];
    ReadFirst(FINAL, [], [], None);
    assert FINAL + [LF] + [] == FINAL_LINE;
    assert [] + [Text(FINAL)] == [[]];
  }

  /** The next reply, and what is left of the stream, are those of the encrypted stream alone. */
  predicate FromTlsAlone(buffer: seq<byte>, tls: seq<byte>) {
    ReplyFrom(buffer + tls, [], None) == ReplyFrom(tls, [], None)
  }

  /**
    Whatever the server sends inside TLS, the reply acted on after the upgrade is the one it sent there, if and only if
    the buffer carried over is empty.
  */
  lemma CarriedBufferMatters(buffer: seq<byte>)
    ensures (forall tls :: FromTlsAlone(buffer, tls)) <==> buffer == []
  {
    if buffer == [] {
      forall tls: seq<byte>
        ensures FromTlsAlone(buffer, tls)
      {
        assert buffer + tls == tls;
      }
    } else {
      FinalLineRead();
      if FromTlsAlone(buffer, FINAL_LINE) {
        OneShortLine(buffer + FINAL_LINE);
        assert false;
      }
    }
  }
}
