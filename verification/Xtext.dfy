/** DSN parameters on the wire: `xtext_encode` in crates/sentio-smtp-client/src/connection.rs, section 4 of RFC 3461. */
module Xtext {
  import opened Basics

  const PLUS: byte := 43
  const EQUALS: byte := 61

  predicate MustEscape(b: byte) {
    b == PLUS || b == EQUALS || b <= 32 || b >= 127
  }

  function HexDigit(n: nat): byte
    requires n < 16
  {
    if n < 10 then n + 48 else n + 55
  }

  function HexValue(b: byte): Option<nat> {
    if 48 <= b <= 57 then Some(b - 48) else if 65 <= b <= 70 then Some(b - 55) else None
  }

  function EncodeByte(b: byte): seq<byte> {
    if MustEscape(b) then [PLUS, HexDigit(b / 16), HexDigit(b % 16)] else [b]
  }

  function Encoded(s: seq<byte>): seq<byte> {
    if s == [] then [] else EncodeByte(s[0]) + Encoded(s[1..])
  }

  lemma EncodedFrom(out: seq<byte>, input: seq<byte>, i: nat)
    requires i < |input|
    ensures out + Encoded(input[i..]) == out + EncodeByte(input[i]) + Encoded(input[i + 1..])
  {
    assert input[i..][1..] == input[i + 1..];
    Assoc(out, EncodeByte(input[i]), Encoded(input[i + 1..]));
  }

  method XtextEncode(input: seq<byte>) returns (out: seq<byte>)
    ensures out == Encoded(input)
  {
    out := [];
    for i := 0 to |input|
      invariant out + Encoded(input[i..]) == Encoded(input)
    {
      EncodedFrom(out, input, i);
      if input[i] == PLUS || input[i] == EQUALS || input[i] <= 32 || input[i] >= 127 {
        out := out + [PLUS, HexDigit(input[i] / 16), HexDigit(input[i] % 16)];
      } else {
        out := out + [input[i]];
      }
    }
  }

  /** What a server does with an xtext: plus signs introduce two upper-case hex digits. */
  function Decoded(s: seq<byte>): Option<seq<byte>>
    decreases |s|
  {
    if s == [] then Some([])
    else if s[0] == PLUS then
      if |s| < 3 || HexValue(s[1]).None? || HexValue(s[2]).None? then None
      else
        var more := Decoded(s[3..]);
        if more.None? then None else Some([HexValue(s[1]).value * 16 + HexValue(s[2]).value] + more.value)
    else if MustEscape(s[0]) then None
    else
      var more := Decoded(s[1..]);
      if more.None? then None else Some([s[0]] + more.value)
  }

  /** Decoding inverts encoding for every byte string, and the encoding holds only printable characters. */
  lemma {:induction false} RoundTrip(s: seq<byte>)
    ensures Decoded(Encoded(s)) == Some(s)
    ensures forall i :: 0 <= i < |Encoded(s)| ==> 33 <= Encoded(s)[i] <= 126 && Encoded(s)[i] != EQUALS
  {
    if s != [] {
      RoundTrip(s[1..]);
      var e := Encoded(s);
      if MustEscape(s[0]) {
        assert e[3..] == Encoded(s[1..]);
        assert s[0] / 16 * 16 + s[0] % 16 == s[0];
      } else {
        assert e[1..] == Encoded(s[1..]);
      }
      assert s == [s[0]] + s[1..];
    }
  }
}
