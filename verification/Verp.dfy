/** Bounce return-path tokens: crates/sentio-core/src/verp.rs. The keyed hash is an arbitrary function. */
module Verp {
  import opened Basics
  import opened Text
  import Delivery

  const PREFIX: string := "bounce+"
  const TAG_HEX_LEN: nat := 10
  const ID_BOUND: nat := 0x1_0000_0000_0000_0000_0000_0000_0000_0000

  /** Ten hex digits; all that matters of them is that none is an at sign. */
  type Tag = t: string | |t| == 10 && '@' !in t witness "0000000000"

  function HexChar(n: nat): char
    requires n < 16
  {
    "0123456789abcdef"[n]
  }

  /** Value of a hex digit; parsing accepts both cases. */
  function HexDigit(c: char): Option<nat> {
    if '0' <= c <= '9' then Some(c as int - '0' as int)
    else if 'a' <= c <= 'f' then Some(c as int - 'a' as int + 10)
    else if 'A' <= c <= 'F' then Some(c as int - 'A' as int + 10)
    else None
  }

  /** The last `len` hex digits of a number. */
  function Hex(n: nat, len: nat): (s: string)
    ensures |s| == len
  {
    if len == 0 then [] else Hex(n / 16, len - 1) + [HexChar(n % 16)]
  }

  /** The number a hex string denotes. */
  function Unhex(s: string): Option<nat> {
    if s == [] then Some(0)
    else
      var high, low := Unhex(s[..|s| - 1]), HexDigit(s[|s| - 1]);
      if high.None? || low.None? then None else Some(high.value * 16 + low.value)
  }

  function Pow16(n: nat): nat {
    if n == 0 then 1 else 16 * Pow16(n - 1)
  }

  lemma {:induction false} UnhexHex(n: nat, len: nat)
    requires n < Pow16(len)
    ensures Unhex(Hex(n, len)) == Some(n)
  {
    if len > 0 {
      UnhexHex(n / 16, len - 1);
      UnhexSnoc(Hex(n / 16, len - 1), n / 16, n % 16);
    }
  }

  lemma UnhexSnoc(s: string, high: nat, low: nat)
    requires Unhex(s) == Some(high) && low < 16
    ensures Unhex(s + [HexChar(low)]) == Some(high * 16 + low)
  {
    var all := s + [HexChar(low)];
    assert all[..|all| - 1] == s;
    assert HexDigit(HexChar(low)) == Some(low);
  }

  lemma {:induction false} UnhexMeansHex(s: string)
    ensures Unhex(s).Some? ==> '.' !in s && Unhex(s).value < Pow16(|s|)
    ensures Unhex(s).Some? <==> forall i :: 0 <= i < |s| ==> HexDigit(s[i]).Some?
  {
    if s != [] {
      UnhexMeansHex(s[..|s| - 1]);
      assert s == s[..|s| - 1] + [s[|s| - 1]];
    }
  }

  lemma {:induction false} Pow16Of32()
    ensures Pow16(32) == ID_BOUND
  {
    assert Pow16(4) == 0x1_0000;
    Pow16Sum(4, 4);
    Pow16Sum(8, 8);
    Pow16Sum(16, 16);
  }

  lemma {:induction false} Pow16Sum(m: nat, n: nat)
    ensures Pow16(m + n) == Pow16(m) * Pow16(n)
  {
    if m > 0 {
      Pow16Sum(m - 1, n);
      assert Pow16(m - 1 + n) == Pow16(m - 1) * Pow16(n);
    }
  }

  // ----- the codec

  function EncodeLocalPart(tag: string -> Tag, id: nat): string {
    var h := Hex(id, 32);
    PREFIX + h + "." + tag(h)
  }

  function DecodeLocalPart(tag: string -> Tag, s: string): Option<nat> {
    if !(PREFIX <= s) then None
    else
      var parts := SplitOnce(s[|PREFIX|..], '.');
      if parts.None? || |parts.value.0| != 32 || |parts.value.1| != TAG_HEX_LEN then None
      else
        var id := Unhex(parts.value.0);
        if id.None? || tag(parts.value.0) != parts.value.1 then None else id
  }

  /** Decoding inverts encoding for every id and every tag function. */
  lemma RoundTrip(tag: string -> Tag, id: nat)
    requires id < ID_BOUND
    ensures DecodeLocalPart(tag, EncodeLocalPart(tag, id)) == Some(id)
  {
    Pow16Of32();
    UnhexHex(id, 32);
    DecodesWhatDenotes(tag, EncodeLocalPart(tag, id), Hex(id, 32), id);
  }

  /** Two ids never share a local part. */
  lemma EncodingInjective(tag: string -> Tag, a: nat, b: nat)
    requires a < ID_BOUND && b < ID_BOUND && EncodeLocalPart(tag, a) == EncodeLocalPart(tag, b)
    ensures a == b
  {
    RoundTrip(tag, a);
    RoundTrip(tag, b);
  }

  ghost predicate Denotes(tag: string -> Tag, s: string, h: string, id: nat) {
    |h| == 32 && Unhex(h) == Some(id) && s == PREFIX + h + "." + tag(h)
  }

  lemma DecodesWhatDenotes(tag: string -> Tag, s: string, h: string, id: nat)
    requires Denotes(tag, s, h, id)
    ensures DecodeLocalPart(tag, s) == Some(id)
  {
    UnhexMeansHex(h);
    var t: string := tag(h);
    assert s[|PREFIX|..] == h + "." + t;
    SplitOnceIs(h, '.', t);
  }

  /** Decoding succeeds exactly on prefix, 32 hex digits, dot and the tag of those digits, and returns their value. */
  lemma AcceptsExactly(tag: string -> Tag, s: string, id: nat)
    ensures DecodeLocalPart(tag, s) == Some(id) <==> exists h: string :: Denotes(tag, s, h, id)
  {
    if DecodeLocalPart(tag, s) == Some(id) {
      SplitOnceParts(s[|PREFIX|..], '.');
      var h := SplitOnce(s[|PREFIX|..], '.').value.0;
      assert s == PREFIX + s[|PREFIX|..];
      assert Denotes(tag, s, h, id);
    }
    if h: string :| Denotes(tag, s, h, id) {
      DecodesWhatDenotes(tag, s, h, id);
    }
  }

  /** An accepted local part denotes a 128-bit id. */
  lemma DecodedIsId(tag: string -> Tag, s: string)
    ensures DecodeLocalPart(tag, s).Some? ==> DecodeLocalPart(tag, s).value < ID_BOUND
  {
    if DecodeLocalPart(tag, s).Some? {
      UnhexMeansHex(SplitOnce(s[|PREFIX|..], '.').value.0);
      Pow16Of32();
    }
  }

  // ----- the return path of a message

  /** `verp_rewrite`: the domain is the sender's, or our own host name if the sender has none. */
  function MailFrom(tag: string -> Tag, enabled: bool, id: nat, sender: string, hostname: string): string {
    if sender == "" then ""
    else if enabled then
      EncodeLocalPart(tag, id) + "@bounce." + if '@' in sender then Delivery.AfterLastAt(sender) else hostname
    else sender
  }

  lemma {:induction false} HexHasNoAt(n: nat, len: nat)
    ensures '@' !in Hex(n, len)
  {
    if len > 0 {
      HexHasNoAt(n / 16, len - 1);
    }
  }

  lemma LocalPartHasNoAt(tag: string -> Tag, id: nat)
    ensures '@' !in EncodeLocalPart(tag, id)
  {
    HexHasNoAt(id, 32);
    PartsHaveNoAt(Hex(id, 32), tag(Hex(id, 32)));
  }

  lemma PartsHaveNoAt(h: string, t: string)
    requires '@' !in h && '@' !in t
    ensures '@' !in PREFIX + h + "." + t
  {
  }

  /** What stands before the first at sign of an address made from a local part decodes to the id. */
  lemma AddressDecodes(tag: string -> Tag, id: nat, rest: string)
    requires id < ID_BOUND
    ensures var path := EncodeLocalPart(tag, id) + ['@'] + rest;
            SplitOnce(path, '@').Some? && DecodeLocalPart(tag, SplitOnce(path, '@').value.0) == Some(id)
  {
    LocalPartHasNoAt(tag, id);
    SplitOnceIs(EncodeLocalPart(tag, id), '@', rest);
    RoundTrip(tag, id);
  }

  lemma Regroup(local: string, domain: string)
    ensures local + "@bounce." + domain == local + ['@'] + ("bounce." + domain)
  {
  }

  /**
    The null sender, and only it, stays null, so a bounce of a bounce has no return path; and a rewritten return path
    leads back to the message: what stands before its first at sign decodes to the id.
  */
  lemma ReturnPathLeadsBack(tag: string -> Tag, enabled: bool, id: nat, sender: string, hostname: string)
    requires id < ID_BOUND
    ensures var path := MailFrom(tag, enabled, id, sender, hostname);
            && (path == "" <==> sender == "")
            && (enabled && sender != "" ==>
                  SplitOnce(path, '@').Some? && DecodeLocalPart(tag, SplitOnce(path, '@').value.0) == Some(id))
  {
    var domain := if '@' in sender then Delivery.AfterLastAt(sender) else hostname;
    Regroup(EncodeLocalPart(tag, id), domain);
    AddressDecodes(tag, id, "bounce." + domain);
  }
}
