/** The minimal DER reader used for DANE: crates/sentio-smtp-client/src/tls.rs. */
module Spki {
  import opened Basics

  const SEQUENCE: byte := 0x30
  const VERSION: byte := 0xA0

  /** An element read from the front of the data: how many bytes it takes, and where its content starts. */
  datatype Element = Element(total: nat, header: nat)

  /** Big-endian value of length bytes. */
  function BigEndian(s: seq<byte>): nat {
    if s == [] then 0 else BigEndian(s[..|s| - 1]) * 256 + s[|s| - 1]
  }

  /** `read_asn1_element` as a relation between the bytes and the result. */
  function ElementAt(d: seq<byte>): (r: Option<Element>)
    ensures r.Some? ==> 2 <= r.value.header <= r.value.total <= |d|
  {
    if |d| < 2 then None
    else if d[1] < 128 then
      if |d| < 2 + d[1] then None else Some(Element(2 + d[1], 2))
    else
      var k := d[1] - 128;
      if k == 0 || k > 4 || |d| < 2 + k then None
      else
        var len := BigEndian(d[2..2 + k]);
        if |d| < 2 + k + len then None else Some(Element(2 + k + len, 2 + k))
  }

  method ReadElement(d: seq<byte>) returns (r: Option<Element>)
    ensures r == ElementAt(d)
  {
    if |d| < 2 { return None; }
    var headerLen: nat, contentLen: nat := 2, 0;
    if d[1] < 128 {
      contentLen := d[1];
    } else {
      var k := d[1] - 128;
      if k == 0 || k > 4 || |d| < 2 + k { return None; }
      var len: nat := 0;
      for i := 0 to k
        invariant len == BigEndian(d[2..2 + i])
      {
        assert d[2..2 + i + 1][..i] == d[2..2 + i];
        len := len * 256 + d[2 + i] as int;
      }
      headerLen, contentLen := 2 + k, len;
    }
    var total: nat := headerLen + contentLen;
    if |d| < total { return None; }
    return Some(Element(total, headerLen));
  }

  /** Content of a SEQUENCE at the front of the data. */
  function SequenceContent(d: seq<byte>): Option<seq<byte>> {
    if d == [] || d[0] != SEQUENCE || ElementAt(d).None? then None
    else Some(d[ElementAt(d).value.header..ElementAt(d).value.total])
  }

  /** Skip `n` elements. */
  function Skip(d: seq<byte>, n: nat): Option<seq<byte>> {
    if n == 0 then Some(d)
    else if ElementAt(d).None? then None
    else Skip(d[ElementAt(d).value.total..], n - 1)
  }

  function FirstElement(d: seq<byte>): Option<seq<byte>> {
    if ElementAt(d).None? then None else Some(d[..ElementAt(d).value.total])
  }

  /** The sixth field of the to-be-signed part, not counting an explicit version. */
  function SpkiIn(tbs: seq<byte>): Option<seq<byte>> {
    var skip := if tbs != [] && tbs[0] == VERSION then 6 else 5;
    var rest := Skip(tbs, skip);
    if rest.None? then None else FirstElement(rest.value)
  }

  function Extracted(der: seq<byte>): Option<seq<byte>> {
    var cert := SequenceContent(der);
    if cert.None? then None
    else
      var tbs := SequenceContent(cert.value);
      if tbs.None? then None else SpkiIn(tbs.value)
  }

  lemma {:induction false} SkipOneMore(d: seq<byte>, n: nat)
    ensures Skip(d, n + 1) ==
            if Skip(d, n).None? || ElementAt(Skip(d, n).value).None? then None
            else Some(Skip(d, n).value[ElementAt(Skip(d, n).value).value.total..])
  {
    if n > 0 && ElementAt(d).Some? {
      SkipOneMore(d[ElementAt(d).value.total..], n - 1);
    }
  }

  /** `extract_spki_from_der`: step over the fields with a moving position. */
  method ExtractSpki(der: seq<byte>) returns (r: Option<seq<byte>>)
    ensures r == Extracted(der)
  {
    if der == [] || der[0] != SEQUENCE { return None; }
    var outer := ReadElement(der);
    if outer.None? { return None; }
    var cert := der[outer.value.header..outer.value.total];
    if cert == [] || cert[0] != SEQUENCE { return None; }
    var inner := ReadElement(cert);
    if inner.None? { return None; }
    var tbs := cert[inner.value.header..inner.value.total];

    var pos := SkipAll(tbs, if tbs != [] && tbs[0] == VERSION then 6 else 5);
    if pos.None? { return None; }
    var e := ReadElement(tbs[pos.value..]);
    if e.None? { return None; }
    assert tbs[pos.value..][..e.value.total] == tbs[pos.value..pos.value + e.value.total];
    return Some(tbs[pos.value..pos.value + e.value.total]);
  }

  method SkipAll(tbs: seq<byte>, fields: nat) returns (r: Option<nat>)
    ensures if r.Some? then r.value <= |tbs| && Skip(tbs, fields) == Some(tbs[r.value..]) else Skip(tbs, fields) == None
  {
    var pos: nat := 0;
    for i := 0 to fields
      invariant pos <= |tbs| && Skip(tbs, i) == Some(tbs[pos..])
    {
      SkipOneMore(tbs, i);
      var e := ReadElement(tbs[pos..]);
      if e.None? {
        SkipNone(tbs, i + 1, fields);
        return None;
      }
      assert tbs[pos..][e.value.total..] == tbs[pos + e.value.total..];
      pos := pos + e.value.total;
    }
    return Some(pos);
  }

  lemma {:induction false} SkipNone(d: seq<byte>, m: nat, n: nat)
    requires m <= n && Skip(d, m).None?
    ensures Skip(d, n).None?
    decreases n
  {
    if m < n {
      SkipNone(d, m, n - 1);
      SkipOneMore(d, n - 1);
    }
  }

  // ----- arbitrary bytes

  ghost predicate Within(part: seq<byte>, whole: seq<byte>) {
    exists p :: LiesAt(part, whole, p)
  }

  ghost predicate LiesAt(part: seq<byte>, whole: seq<byte>, p: int) {
    0 <= p <= |whole| - |part| && whole[p..p + |part|] == part
  }

  lemma WithinTrans(a: seq<byte>, b: seq<byte>, c: seq<byte>)
    requires Within(a, b) && Within(b, c)
    ensures Within(a, c)
  {
    var p :| LiesAt(a, b, p);
    var q :| LiesAt(b, c, q);
    var x := c[q + p..q + p + |a|];
    forall k | 0 <= k < |a|
      ensures x[k] == a[k]
    {
      assert b[p..p + |a|][k] == b[p + k];
      assert c[q..q + |b|][p + k] == c[q + p + k];
    }
    assert x == a;
    assert LiesAt(a, c, q + p);
  }

  lemma SliceWithin(s: seq<byte>, i: nat, j: nat)
    requires i <= j <= |s|
    ensures Within(s[i..j], s)
  {
    assert LiesAt(s[i..j], s, i);
  }

  lemma {:induction false} SkipWithin(d: seq<byte>, n: nat)
    requires Skip(d, n).Some?
    ensures Within(Skip(d, n).value, d)
  {
    if n == 0 {
      assert LiesAt(d, d, 0);
    } else {
      var t := ElementAt(d).value.total;
      SkipWithin(d[t..], n - 1);
      SliceWithin(d, t, |d|);
      assert d[t..|d|] == d[t..];
      WithinTrans(Skip(d, n).value, d[t..], d);
    }
  }

  lemma FirstElementIsWhole(d: seq<byte>)
    requires FirstElement(d).Some?
    ensures var r := FirstElement(d).value;
            ElementAt(r) == Some(Element(|r|, ElementAt(d).value.header)) && Within(r, d)
  {
    var e := ElementAt(d).value;
    var r := d[..e.total];
    SliceWithin(d, 0, e.total);
    assert d[1] >= 128 ==> r[2..e.header] == d[2..e.header];
  }

  /** On arbitrary bytes the result, if any, is one complete element lying inside the input. */
  lemma ExtractionIsContained(der: seq<byte>)
    requires Extracted(der).Some?
    ensures var r := Extracted(der).value;
            Within(r, der) && ElementAt(r).Some? && ElementAt(r).value.total == |r|
  {
    var cert := SequenceContent(der).value;
    var tbs := SequenceContent(cert).value;
    SliceWithin(der, ElementAt(der).value.header, ElementAt(der).value.total);
    SliceWithin(cert, ElementAt(cert).value.header, ElementAt(cert).value.total);
    var skip := if tbs != [] && tbs[0] == VERSION then 6 else 5;
    SkipWithin(tbs, skip);
    var rest := Skip(tbs, skip).value;
    FirstElementIsWhole(rest);
    WithinTrans(Extracted(der).value, rest, tbs);
    WithinTrans(Extracted(der).value, tbs, cert);
    WithinTrans(Extracted(der).value, cert, der);
  }

  // ----- certificates

  /** Minimal big-endian length bytes. */
  function LengthBytes(n: nat): (r: seq<byte>)
    ensures BigEndian(r) == n
  {
    if n == 0 then []
    else
      var r := LengthBytes(n / 256) + [n % 256];
      assert r[..|r| - 1] == LengthBytes(n / 256);
      r
  }

  lemma {:induction false} LengthBytesShort(n: nat, k: nat, bound: nat)
    requires n < bound && bound == Pow256(k)
    ensures |LengthBytes(n)| <= k
  {
    if n > 0 {
      assert k > 0;
      LengthBytesShort(n / 256, k - 1, Pow256(k - 1));
    }
  }

  function Pow256(k: nat): nat {
    if k == 0 then 1 else 256 * Pow256(k - 1)
  }

  /** DER encoding of one element with definite length, section 10.1 of X.690. */
  function Tlv(tag: byte, content: seq<byte>): seq<byte>
    requires |content| < 0x1_0000_0000
  {
    if |content| < 128 then [tag, |content|] + content
    else
      LongForm(|content|);
      [tag, 128 + |LengthBytes(|content|)|] + LengthBytes(|content|) + content
  }

  lemma ReadShort(tag: byte, content: seq<byte>, rest: seq<byte>)
    requires |content| < 128
    ensures var t: seq<byte> := [tag, |content|] + content;
            ElementAt(t + rest) == Some(Element(|t|, 2)) && (t + rest)[2..|t|] == content
  {
    var d: seq<byte> := [tag, |content|] + content + rest;
    assert d[1] == |content|;
  }

  lemma ReadLong(tag: byte, len: seq<byte>, content: seq<byte>, rest: seq<byte>)
    requires 1 <= |len| <= 4 && BigEndian(len) == |content|
    ensures var t: seq<byte> := [tag, 128 + |len|] + len + content;
            ElementAt(t + rest) == Some(Element(|t|, 2 + |len|)) && (t + rest)[2 + |len|..|t|] == content
  {
    var d: seq<byte> := [tag, 128 + |len|] + len + content + rest;
    assert d[1] == 128 + |len|;
    assert d[2..2 + |len|] == len;
  }

  /** The reader takes one encoded element off the front, whatever follows. */
  lemma ReadTlv(tag: byte, content: seq<byte>, rest: seq<byte>)
    requires |content| < 0x1_0000_0000
    ensures var t := Tlv(tag, content);
            && t != [] && t[0] == tag
            && ElementAt(t + rest).Some?
            && ElementAt(t + rest).value.total == |t|
            && (t + rest)[ElementAt(t + rest).value.header..|t|] == content
  {
    if |content| < 128 {
      ReadShort(tag, content, rest);
    } else {
      LongForm(|content|);
      ReadLong(tag, LengthBytes(|content|), content, rest);
    }
  }

  lemma LongForm(n: nat)
    requires 128 <= n < 0x1_0000_0000
    ensures 1 <= |LengthBytes(n)| <= 4
  {
    assert Pow256(4) == 0x1_0000_0000;
    LengthBytesShort(n, 4, Pow256(4));
  }

  /** A field: a tag and its content. */
  datatype Field = Field(tag: byte, content: seq<byte>)

  predicate Small(f: Field) {
    |f.content| < 0x1_0000_0000
  }

  function Encode(f: Field): seq<byte>
    requires Small(f)
  {
    Tlv(f.tag, f.content)
  }

  function EncodeAll(fs: seq<Field>): seq<byte>
    requires forall i :: 0 <= i < |fs| ==> Small(fs[i])
  {
    if fs == [] then [] else Encode(fs[0]) + EncodeAll(fs[1..])
  }

  lemma SkipOneField(f: Field, tail: seq<byte>, n: nat)
    requires Small(f) && n > 0
    ensures Skip(Encode(f) + tail, n) == Skip(tail, n - 1)
  {
    ReadTlv(f.tag, f.content, tail);
    assert (Encode(f) + tail)[|Encode(f)|..] == tail;
  }

  lemma {:induction false} SkipFields(fs: seq<Field>, n: nat, rest: seq<byte>)
    requires n <= |fs| && forall i :: 0 <= i < |fs| ==> Small(fs[i])
    ensures Skip(EncodeAll(fs) + rest, n) == Some(EncodeAll(fs[n..]) + rest)
  {
    if n == 0 {
      assert fs[0..] == fs;
    } else {
      var tail := EncodeAll(fs[1..]) + rest;
      SkipOneField(fs[0], tail, n);
      assert EncodeAll(fs) + rest == Encode(fs[0]) + tail;
      SkipFields(fs[1..], n - 1, rest);
      assert fs[1..][n - 1..] == fs[n..];
    }
  }

  /**
    The to-be-signed part: an optional version with tag [0], then serial number, signature, issuer, validity,
    subject, the public key info, and anything more (section 4.1 of RFC 5280).
  */
  datatype Tbs = Tbs(version: Option<seq<byte>>, fields: seq<Field>, spki: Field, more: seq<byte>)

  ghost predicate Proper(t: Tbs) {
    && (t.version.Some? ==> |t.version.value| < 0x1_0000_0000)
    && |t.fields| == 5 && (forall i :: 0 <= i < 5 ==> Small(t.fields[i])) && Small(t.spki)
    && (t.version.None? ==> t.fields[0].tag != VERSION)
  }

  ghost function TbsBytes(t: Tbs): seq<byte>
    requires Proper(t)
  {
    (if t.version.Some? then Tlv(VERSION, t.version.value) else []) + (EncodeAll(t.fields) + (Encode(t.spki) + t.more))
  }

  /** SPKI extraction returns exactly the encoded public key info of every such certificate. */
  lemma ExtractsSpki(t: Tbs, signature: seq<byte>, trailing: seq<byte>)
    requires Proper(t) && |TbsBytes(t)| < 0x1_0000_0000
    requires |Tlv(SEQUENCE, TbsBytes(t)) + signature| < 0x1_0000_0000
    ensures Extracted(Tlv(SEQUENCE, Tlv(SEQUENCE, TbsBytes(t)) + signature) + trailing) == Some(Encode(t.spki))
  {
    var tbs := TbsBytes(t);
    var cert := Tlv(SEQUENCE, tbs) + signature;
    ReadTlv(SEQUENCE, cert, trailing);
    ReadTlv(SEQUENCE, tbs, signature);
    var body := EncodeAll(t.fields) + (Encode(t.spki) + t.more);
    SpkiInBody(t, body);
  }

  lemma SpkiInBody(t: Tbs, body: seq<byte>)
    requires Proper(t) && body == EncodeAll(t.fields) + (Encode(t.spki) + t.more)
    ensures SpkiIn(TbsBytes(t)) == Some(Encode(t.spki))
  {
    FifthIsSpki(t, body);
    if t.version.Some? {
      SkipVersion(t.version.value, body);
    } else {
      assert [] + body == body;
      FirstTag(t.fields, Encode(t.spki) + t.more);
    }
  }

  lemma FifthIsSpki(t: Tbs, body: seq<byte>)
    requires Proper(t) && body == EncodeAll(t.fields) + (Encode(t.spki) + t.more)
    ensures Skip(body, 5).Some? && FirstElement(Skip(body, 5).value) == Some(Encode(t.spki))
  {
    var tail := Encode(t.spki) + t.more;
    SkipFields(t.fields, 5, tail);
    assert t.fields[5..] == [];
    assert [] + tail == tail;
    ReadTlv(t.spki.tag, t.spki.content, t.more);
    assert tail[..|Encode(t.spki)|] == Encode(t.spki);
  }

  lemma SkipVersion(v: seq<byte>, body: seq<byte>)
    requires |v| < 0x1_0000_0000
    ensures var tbs := Tlv(VERSION, v) + body;
            tbs != [] && tbs[0] == VERSION && Skip(tbs, 6) == Skip(body, 5)
  {
    var tbs := Tlv(VERSION, v) + body;
    ReadTlv(VERSION, v, body);
    assert tbs[|Tlv(VERSION, v)|..] == body;
  }

  lemma FirstTag(fs: seq<Field>, tail: seq<byte>)
    requires fs != [] && forall i :: 0 <= i < |fs| ==> Small(fs[i])
    ensures EncodeAll(fs) + tail != [] && (EncodeAll(fs) + tail)[0] == fs[0].tag
  {
    ReadTlv(fs[0].tag, fs[0].content, []);
  }
}
