/**
  Click tracking in HTML bodies: `rewrite_links` in crates/sentio-smtp-client/src/tracking.rs. The regular
  expression for href attributes is matched by hand; tokens come from any generator whose results hold no quote,
  as base64 does not.
*/
module Tracking {
  import opened Basics

  type Token = t: string | '"' !in t witness ""

  const MARK: string := "/track/click/"

  /** The first position from `i` on that is not white space; the length if there is none. */
  function SkipWhite(s: string, i: nat): (j: nat)
    requires i <= |s|
    ensures i <= j <= |s| && (forall k :: i <= k < j ==> IsWhite(s[k])) && (j < |s| ==> !IsWhite(s[j]))
    decreases |s| - i
  {
    if i < |s| && IsWhite(s[i]) then SkipWhite(s, i + 1) else i
  }

  /** The first quote from `i` on; the length if there is none. */
  function NextQuote(s: string, i: nat): (j: nat)
    requires i <= |s|
    ensures i <= j <= |s| && (forall k :: i <= k < j ==> s[k] != '"') && (j < |s| ==> s[j] == '"')
    decreases |s| - i
  {
    if i < |s| && s[i] != '"' then NextQuote(s, i + 1) else i
  }

  predicate StartsHref(s: string) {
    |s| >= 4 && s[0] == 'h' && s[1] == 'r' && s[2] == 'e' && s[3] == 'f'
  }

  /** Length of the part up to the opening quote of an href attribute at the front of the text, or nothing. */
  function Opening(s: string): (r: Option<nat>)
    ensures r.Some? ==> 6 <= r.value <= |s| && s[r.value - 1] == '"'
  {
    if !StartsHref(s) then None
    else
      var a := SkipWhite(s, 4);
      if a == |s| || s[a] != '=' then None
      else
        var b := SkipWhite(s, a + 1);
        if b == |s| || s[b] != '"' then None else Some(b + 1)
  }

  /** The link at the front of the text: where its URL starts and ends. */
  function LinkAt(s: string): (r: Option<(nat, nat)>)
    ensures r.Some? ==> 6 <= r.value.0 < r.value.1 < |s| && s[r.value.1] == '"'
  {
    var o := Opening(s);
    if o.None? then None
    else
      var q := NextQuote(s, o.value);
      if q == o.value || q == |s| then None else Some((o.value, q))
  }

  // ----- a text as pieces

  datatype Piece = Plain(c: char) | Link(opening: string, url: string)

  function Render(p: Piece): string {
    match p
    case Plain(c) => [c]
    case Link(o, u) => o + u + "\""
  }

  function RenderAll(ps: seq<Piece>): string {
    if ps == [] then [] else Render(ps[0]) + RenderAll(ps[1..])
  }

  function FirstPiece(s: string): Piece
    requires s != []
  {
    match LinkAt(s)
    case None => Plain(s[0])
    case Some((o, q)) => Link(s[..o], s[o..q])
  }

  function FirstPieceEnd(s: string): (n: nat)
    requires s != []
    ensures 1 <= n <= |s|
  {
    match LinkAt(s)
    case None => 1
    case Some((_, q)) => q + 1
  }

  /** What the regex engine sees: leftmost links, not overlapping, and the characters between them. */
  function Pieces(s: string): seq<Piece>
    decreases |s|
  {
    if s == [] then [] else [FirstPiece(s)] + Pieces(s[FirstPieceEnd(s)..])
  }

  lemma PiecesPlain(s: string)
    requires s != [] && LinkAt(s).None?
    ensures Pieces(s) == [Plain(s[0])] + Pieces(s[1..])
  {
  }

  lemma PiecesLink(s: string, o: nat, q: nat)
    requires LinkAt(s) == Some((o, q))
    ensures Pieces(s) == [Link(s[..o], s[o..q])] + Pieces(s[q + 1..])
  {
    FirstPieceLink(s, o, q);
    PiecesFrom(s, q + 1);
  }

  lemma FirstPieceLink(s: string, o: nat, q: nat)
    requires LinkAt(s) == Some((o, q))
    ensures FirstPiece(s) == Link(s[..o], s[o..q]) && FirstPieceEnd(s) == q + 1
  {
  }

  lemma PiecesFrom(s: string, n: nat)
    requires s != [] && n == FirstPieceEnd(s)
    ensures Pieces(s) == [FirstPiece(s)] + Pieces(s[n..])
  {
  }

  lemma RenderCons(p: Piece, ps: seq<Piece>)
    ensures RenderAll([p] + ps) == Render(p) + RenderAll(ps)
  {
    assert ([p] + ps)[1..] == ps;
  }

  lemma {:induction false} RenderPieces(s: string)
    ensures RenderAll(Pieces(s)) == s
    decreases |s|
  {
    if s != [] {
      if LinkAt(s).None? {
        RenderPieces(s[1..]);
        PiecesPlain(s);
        RenderCons(Plain(s[0]), Pieces(s[1..]));
      } else {
        var (o, q) := LinkAt(s).value;
        RenderPieces(s[q + 1..]);
        PiecesLink(s, o, q);
        RenderCons(Link(s[..o], s[o..q]), Pieces(s[q + 1..]));
        LinkSplits(s, o, q);
      }
    }
  }

  lemma LinkSplits(s: string, o: nat, q: nat)
    requires o <= q < |s| && s[q] == '"'
    ensures Render(Link(s[..o], s[o..q])) + s[q + 1..] == s
  {
  }

  // ----- rewriting

  predicate Contains(s: string, sub: string) {
    exists i :: 0 <= i <= |s| - |sub| && sub <= s[i..]
  }

  predicate StartsWith(s: string, p: string) {
    p <= s
  }

  /** Links left alone: mailto:, tel:, fragments and links already tracked. */
  predicate Skipped(url: string) {
    var u := Lower(url);
    StartsWith(u, "mailto:") || StartsWith(u, "tel:") || StartsWith(u, "#") || Contains(u, MARK)
  }

  function Tracked(base: string, token: string -> Token, url: string): string {
    base + MARK + token(url)
  }

  function NewPiece(base: string, token: string -> Token, p: Piece): Piece {
    if p.Plain? || Skipped(p.url) then p else Link("href=\"", Tracked(base, token, p.url))
  }

  function NewPieces(base: string, token: string -> Token, ps: seq<Piece>): seq<Piece> {
    if ps == [] then [] else [NewPiece(base, token, ps[0])] + NewPieces(base, token, ps[1..])
  }

  /** `rewrite_links`. */
  function RewriteLinks(base: string, token: string -> Token, html: string): string {
    RenderAll(NewPieces(base, token, Pieces(html)))
  }

  // ----- what the rewritten text looks like to the regex

  /** The texts agree up to position `n`. */
  ghost predicate Agree(s: string, t: string, n: nat) {
    n <= |s| && n <= |t| && forall i :: 0 <= i < n ==> s[i] == t[i]
  }

  lemma {:induction false} SkipWhiteAgrees(s: string, t: string, i: nat)
    requires i <= |s| && SkipWhite(s, i) < |s| && Agree(s, t, SkipWhite(s, i) + 1)
    ensures SkipWhite(t, i) == SkipWhite(s, i)
    decreases |s| - i
  {
    if IsWhite(s[i]) {
      SkipWhiteAgrees(s, t, i + 1);
    }
  }

  lemma {:induction false} NextQuoteAgrees(s: string, t: string, i: nat)
    requires i <= |s| && NextQuote(s, i) < |s| && Agree(s, t, NextQuote(s, i) + 1)
    ensures NextQuote(t, i) == NextQuote(s, i)
    decreases |s| - i
  {
    if s[i] != '"' {
      NextQuoteAgrees(s, t, i + 1);
    }
  }

  /** An opening only looks at its own characters. */
  lemma OpeningAgrees(s: string, t: string, k: nat)
    requires Opening(s) == Some(k) && Agree(s, t, k)
    ensures Opening(t) == Some(k)
  {
    var a := SkipWhite(s, 4);
    SkipWhiteAgrees(s, t, 4);
    SkipWhiteAgrees(s, t, a + 1);
  }

  ghost predicate IsOpening(o: string) {
    Opening(o) == Some(|o|)
  }

  lemma {:induction false} NextQuoteIs(s: string, i: nat, j: nat)
    requires i <= j < |s| && s[j] == '"' && forall k :: i <= k < j ==> s[k] != '"'
    ensures NextQuote(s, i) == j
    decreases j - i
  {
    if i < j {
      NextQuoteIs(s, i + 1, j);
    }
  }

  /** A link is recognised again in any text that repeats its opening, some URL and a quote. */
  lemma LinkRecognised(o: string, u: string, rest: string)
    requires IsOpening(o) && u != [] && '"' !in u
    ensures LinkAt(Render(Link(o, u)) + rest) == Some((|o|, |o| + |u|))
  {
    var s := Render(Link(o, u)) + rest;
    assert Agree(o, s, |o|);
    OpeningAgrees(o, s, |o|);
    forall k | |o| <= k < |o| + |u|
      ensures s[k] != '"'
    {
      assert s[k] == u[k - |o|];
    }
    NextQuoteIs(s, |o|, |o| + |u|);
  }

  lemma RecognisedPieces(o: string, u: string, rest: string)
    requires IsOpening(o) && u != [] && '"' !in u
    ensures Pieces(Render(Link(o, u)) + rest) == [Link(o, u)] + Pieces(rest)
  {
    var s := Render(Link(o, u)) + rest;
    LinkRecognised(o, u, rest);
    PiecesLink(s, |o|, |o| + |u|);
    RenderSlices(o, u, rest);
  }

  lemma RenderSlices(o: string, u: string, rest: string)
    ensures var s := Render(Link(o, u)) + rest;
            |s| >= |o| + |u| + 1 && s[..|o|] == o && s[|o|..|o| + |u|] == u && s[|o| + |u| + 1..] == rest
  {
  }

  /** The opening and URL of a link that was found are an opening and a URL. */
  lemma FoundLink(s: string)
    requires LinkAt(s).Some?
    ensures var (o, q) := LinkAt(s).value; IsOpening(s[..o]) && s[o..q] != [] && '"' !in s[o..q]
  {
    var (o, q) := LinkAt(s).value;
    assert Agree(s, s[..o], o);
    OpeningAgrees(s, s[..o], o);
  }

  lemma TrackedOpening()
    ensures IsOpening("href=\"")
  {
    var o := "href=\"";
    assert SkipWhite(o, 4) == 4 && SkipWhite(o, 5) == 5;
  }

  // ----- no link appears where none was

  /** The first position at which a link starts; the length if there is none. */
  function FirstLink(s: string): (m: nat)
    ensures m <= |s|
    decreases |s|
  {
    if s == [] || LinkAt(s).Some? then 0 else FirstLink(s[1..]) + 1
  }

  lemma {:induction false} FirstLinkIsOne(s: string)
    ensures FirstLink(s) < |s| ==> LinkAt(s[FirstLink(s)..]).Some?
    decreases |s|
  {
    if s != [] {
      if LinkAt(s).Some? {
        assert s[0..] == s;
      } else {
        FirstLinkIsOne(s[1..]);
        assert s[1..][FirstLink(s[1..])..] == s[FirstLink(s)..];
      }
    }
  }

  lemma RewriteCons(base: string, token: string -> Token, p: Piece, ps: seq<Piece>)
    ensures RenderAll(NewPieces(base, token, [p] + ps))
            == Render(NewPiece(base, token, p)) + RenderAll(NewPieces(base, token, ps))
  {
    NewPiecesCons(base, token, p, ps);
    RenderCons(NewPiece(base, token, p), NewPieces(base, token, ps));
  }

  lemma RewritePlain(base: string, token: string -> Token, s: string)
    requires s != [] && LinkAt(s).None?
    ensures RewriteLinks(base, token, s) == [s[0]] + RewriteLinks(base, token, s[1..])
  {
    PiecesPlain(s);
    RewriteCons(base, token, Plain(s[0]), Pieces(s[1..]));
  }

  lemma RewriteLink(base: string, token: string -> Token, s: string, o: nat, q: nat)
    requires LinkAt(s) == Some((o, q))
    ensures RewriteLinks(base, token, s)
            == Render(NewPiece(base, token, Link(s[..o], s[o..q]))) + RewriteLinks(base, token, s[q + 1..])
  {
    PiecesLink(s, o, q);
    RewriteCons(base, token, Link(s[..o], s[o..q]), Pieces(s[q + 1..]));
  }

  ghost predicate SameUpTo(s: string, t: string, m: nat) {
    && Agree(s, t, m)
    && (m == |s| ==> t == s)
    && (m < |s| ==> m + 4 <= |t| && StartsHref(t[m..]))
  }

  lemma SameUpToCons(c: char, s: string, t: string, m: nat)
    requires SameUpTo(s, t, m)
    ensures SameUpTo([c] + s, [c] + t, m + 1)
  {
    if m < |s| {
      assert ([c] + t)[m + 1..] == t[m..];
    }
  }

  lemma RenderedStartsHref(p: Piece, rest: string)
    requires p.Link? && StartsHref(p.opening)
    ensures var t := Render(p) + rest; |t| >= 4 && StartsHref(t[0..])
  {
    assert forall i :: 0 <= i < 4 ==> (Render(p) + rest)[i] == p.opening[i];
  }

  /** Up to the first link rewriting changes nothing; there it still starts with href. */
  lemma {:induction false} SameBeforeFirstLink(base: string, token: string -> Token, s: string)
    ensures SameUpTo(s, RewriteLinks(base, token, s), FirstLink(s))
    decreases |s|
  {
    if s != [] {
      if LinkAt(s).None? {
        SameBeforeFirstLink(base, token, s[1..]);
        RewritePlain(base, token, s);
        SameUpToCons(s[0], s[1..], RewriteLinks(base, token, s[1..]), FirstLink(s[1..]));
        assert [s[0]] + s[1..] == s;
      } else {
        LinkStartsHref(base, token, s);
      }
    }
  }

  lemma LinkStartsHref(base: string, token: string -> Token, s: string)
    requires LinkAt(s).Some?
    ensures SameUpTo(s, RewriteLinks(base, token, s), 0)
  {
    var (o, q) := LinkAt(s).value;
    RewriteLink(base, token, s, o, q);
    FoundLink(s);
    TrackedOpening();
    var p := NewPiece(base, token, Link(s[..o], s[o..q]));
    assert StartsHref(p.opening);
    RenderedStartsHref(p, RewriteLinks(base, token, s[q + 1..]));
  }

  /** The opening of a text that continues with href at `m` ends before `m`. */
  lemma OpeningBefore(t: string, k: nat, m: nat)
    requires Opening(t) == Some(k) && 1 <= m && m + 4 <= |t| && StartsHref(t[m..])
    ensures k <= m
  {
    assert t[m] == t[m..][0] == 'h' && !IsWhite('h');
    var a := SkipWhite(t, 4);
    assert m >= 4;
    assert a < m;
  }

  lemma QuoteInLink(s: string, m: nat, k: nat)
    requires k <= m < |s| && LinkAt(s[m..]).Some?
    ensures NextQuote(s, k) < |s|
  {
    var o := Opening(s[m..]).value;
    assert s[m..][o - 1] == s[m + o - 1];
  }

  /** Rewriting makes no link at a position where the text has none. */
  lemma NoNewLink(base: string, token: string -> Token, s: string)
    requires s != [] && LinkAt(s).None?
    ensures LinkAt(RewriteLinks(base, token, s)).None?
  {
    SameBeforeFirstLink(base, token, s);
    if LinkAt(RewriteLinks(base, token, s)).Some? {
      LinkWasThere(s, RewriteLinks(base, token, s));
    }
  }

  /** Two texts that agree up to the first link of the one: a link at the front of the other is one of both. */
  lemma LinkWasThere(s: string, t: string)
    requires s != [] && SameUpTo(s, t, FirstLink(s)) && LinkAt(t).Some?
    ensures LinkAt(s).Some?
  {
    var m := FirstLink(s);
    FirstLinkIsOne(s);
    if 0 < m < |s| {
      var (k, q) := LinkAt(t).value;
      OpeningBefore(t, k, m);
      OpeningAgrees(t, s, k);
      QuoteInLink(s, m, k);
      if q < m {
        NextQuoteAgrees(t, s, k);
      }
    }
  }

  // ----- the theorems

  /**
    The rewritten text has the same pieces as the original, each link replaced: nothing outside the links
    changes, no link appears or disappears.
  */
  lemma {:induction false} PiecesOfRewritten(base: string, token: string -> Token, s: string)
    requires '"' !in base
    ensures Pieces(RewriteLinks(base, token, s)) == NewPieces(base, token, Pieces(s))
    decreases |s|
  {
    if s != [] {
      if LinkAt(s).None? {
        PiecesOfRewritten(base, token, s[1..]);
        RewrittenPlain(base, token, s);
      } else {
        var (o, q) := LinkAt(s).value;
        PiecesOfRewritten(base, token, s[q + 1..]);
        RewrittenLink(base, token, s, o, q);
      }
    }
  }

  lemma RewrittenPlain(base: string, token: string -> Token, s: string)
    requires s != [] && LinkAt(s).None?
    requires Pieces(RewriteLinks(base, token, s[1..])) == NewPieces(base, token, Pieces(s[1..]))
    ensures Pieces(RewriteLinks(base, token, s)) == NewPieces(base, token, Pieces(s))
  {
    PiecesPlain(s);
    NoNewLink(base, token, s);
    RewritePlain(base, token, s);
    var t := RewriteLinks(base, token, s);
    assert t[1..] == RewriteLinks(base, token, s[1..]);
    PiecesPlain(t);
    NewPiecesCons(base, token, Plain(s[0]), Pieces(s[1..]));
  }

  lemma RewrittenLink(base: string, token: string -> Token, s: string, o: nat, q: nat)
    requires '"' !in base && LinkAt(s) == Some((o, q))
    requires Pieces(RewriteLinks(base, token, s[q + 1..])) == NewPieces(base, token, Pieces(s[q + 1..]))
    ensures Pieces(RewriteLinks(base, token, s)) == NewPieces(base, token, Pieces(s))
  {
    var p := Link(s[..o], s[o..q]);
    PiecesLink(s, o, q);
    RewriteLink(base, token, s, o, q);
    FoundLink(s);
    NewPieceRecognised(base, token, p, RewriteLinks(base, token, s[q + 1..]));
    NewPiecesCons(base, token, p, Pieces(s[q + 1..]));
  }

  lemma NewPieceRecognised(base: string, token: string -> Token, p: Piece, rest: string)
    requires '"' !in base && p.Link? && IsOpening(p.opening) && p.url != [] && '"' !in p.url
    ensures Pieces(Render(NewPiece(base, token, p)) + rest) == [NewPiece(base, token, p)] + Pieces(rest)
  {
    TrackedOpening();
    var n := NewPiece(base, token, p);
    RecognisedPieces(n.opening, n.url, rest);
  }

  lemma NewPiecesCons(base: string, token: string -> Token, p: Piece, ps: seq<Piece>)
    ensures NewPieces(base, token, [p] + ps) == [NewPiece(base, token, p)] + NewPieces(base, token, ps)
  {
    assert ([p] + ps)[1..] == ps;
  }

  lemma TrackedIsSkipped(base: string, token: string -> Token, url: string)
    ensures Skipped(Tracked(base, token, url))
  {
    var u := Lower(Tracked(base, token, url));
    var i := |base|;
    assert |u| - |MARK| >= i;
    forall k | 0 <= k < |MARK|
      ensures u[i..][k] == MARK[k]
    {
      assert Tracked(base, token, url)[i + k] == MARK[k];
      assert LowerChar(MARK[k]) == MARK[k];
    }
    assert MARK <= u[i..];
  }

  lemma {:induction false} NewPiecesTwice(base: string, token: string -> Token, ps: seq<Piece>)
    ensures NewPieces(base, token, NewPieces(base, token, ps)) == NewPieces(base, token, ps)
  {
    if ps != [] {
      NewPiecesTwice(base, token, ps[1..]);
      var n := NewPiece(base, token, ps[0]);
      if ps[0].Link? {
        TrackedIsSkipped(base, token, ps[0].url);
      }
      NewPiecesCons(base, token, n, NewPieces(base, token, ps[1..]));
    }
  }

  /** Rewriting is idempotent on every text when the base URL holds no quote. */
  lemma Idempotent(base: string, token: string -> Token, s: string)
    requires '"' !in base
    ensures RewriteLinks(base, token, RewriteLinks(base, token, s)) == RewriteLinks(base, token, s)
  {
    PiecesOfRewritten(base, token, s);
    NewPiecesTwice(base, token, Pieces(s));
  }

  lemma {:induction false} NewPiecesAt(base: string, token: string -> Token, ps: seq<Piece>, i: nat)
    requires i < |ps|
    ensures |NewPieces(base, token, ps)| == |ps| && NewPieces(base, token, ps)[i] == NewPiece(base, token, ps[i])
  {
    if i > 0 {
      NewPiecesAt(base, token, ps[1..], i - 1);
    } else if |ps| > 1 {
      NewPiecesAt(base, token, ps[1..], 0);
    }
  }

  /**
    Piece by piece: text and skipped links are unchanged, and from every rewritten link a decoder of tokens
    gets back the original target.
  */
  lemma TargetsRecoverable(base: string, token: string -> Token, decode: string -> string, s: string, i: nat)
    requires '"' !in base && i < |Pieces(s)| && forall u: string :: decode(token(u)) == u
    ensures var p, t := Pieces(s)[i], Pieces(RewriteLinks(base, token, s));
            && |t| == |Pieces(s)|
            && (p.Plain? || Skipped(p.url) ==> t[i] == p)
            && (p.Link? && !Skipped(p.url) ==>
                  t[i].Link? && base + MARK <= t[i].url && decode(t[i].url[|base + MARK|..]) == p.url)
  {
    PiecesOfRewritten(base, token, s);
    NewPiecesAt(base, token, Pieces(s), i);
    var p := Pieces(s)[i];
    if p.Link? && !Skipped(p.url) {
      assert Tracked(base, token, p.url)[|base + MARK|..] == token(p.url);
    }
  }

  /** A link is left as it is if and only if it is a mailto:, tel: or fragment link of any case, or tracked already. */
  lemma LinkKeptExactly(base: string, token: string -> Token, s: string, i: nat)
    requires '"' !in base && i < |Pieces(s)| && Pieces(s)[i].Link?
    ensures var t, u := Pieces(RewriteLinks(base, token, s)), Lower(Pieces(s)[i].url);
            && |t| == |Pieces(s)|
            && (t[i] == Pieces(s)[i] <==> "mailto:" <= u || "tel:" <= u || "#" <= u || Contains(u, "/track/click/"))
  {
    PiecesOfRewritten(base, token, s);
    NewPiecesAt(base, token, Pieces(s), i);
    TrackedIsSkipped(base, token, Pieces(s)[i].url);
  }

  /** The link leads to a web page and does not carry the tracking mark yet. */
  predicate WebLink(url: string) {
    (StartsWith(Lower(url), "http://") || StartsWith(Lower(url), "https://")) && !Contains(Lower(url), MARK)
  }

  /** Every web link without the mark is rewritten, in place, to the tracking address of its own target. */
  lemma WebLinksRewritten(base: string, token: string -> Token, s: string, i: nat)
    requires '"' !in base && i < |Pieces(s)| && Pieces(s)[i].Link? && WebLink(Pieces(s)[i].url)
    ensures var t := Pieces(RewriteLinks(base, token, s));
            i < |t| && t[i] == Link("href=\"", base + MARK + token(Pieces(s)[i].url))
  {
    var p := Pieces(s)[i];
    NotSkipped(p.url);
    PiecesOfRewritten(base, token, s);
    NewPiecesAt(base, token, Pieces(s), i);
    assert NewPiece(base, token, p) == Link("href=\"", Tracked(base, token, p.url));
  }

  lemma NotSkipped(url: string)
    requires WebLink(url)
    ensures !Skipped(url)
  {
    assert Lower(url)[0] == 'h';
  }

  // ----- the same, read off the text

  predicate AllWhite(s: string) {
    forall i :: 0 <= i < |s| ==> IsWhite(s[i])
  }

  lemma {:induction false} SkipWhiteIs(s: string, i: nat, j: nat)
    requires i <= j < |s| && !IsWhite(s[j]) && forall k :: i <= k < j ==> IsWhite(s[k])
    ensures SkipWhite(s, i) == j
    decreases j - i
  {
    if i < j {
      SkipWhiteIs(s, i + 1, j);
    }
  }

  /** href, an equals sign and a quote, with any white space around the sign. */
  function HrefEq(w1: string, w2: string): string {
    "href" + w1 + "=" + w2 + "\""
  }

  lemma HrefOpens(w1: string, w2: string)
    requires AllWhite(w1) && AllWhite(w2)
    ensures IsOpening(HrefEq(w1, w2))
  {
    var o, a := HrefEq(w1, w2), 4 + |w1|;
    forall k | 4 <= k < a
      ensures IsWhite(o[k])
    {
      assert o[k] == w1[k - 4];
    }
    SkipWhiteIs(o, 4, a);
    forall k | a + 1 <= k < |o| - 1
      ensures IsWhite(o[k])
    {
      assert o[k] == w2[k - a - 1];
    }
    SkipWhiteIs(o, a + 1, |o| - 1);
  }

  lemma HrefContained(s: string)
    requires StartsHref(s)
    ensures Contains(s, "href")
  {
    assert "href" <= s[0..];
  }

  lemma ContainsLater(s: string, sub: string)
    requires s != [] && Contains(s[1..], sub)
    ensures Contains(s, sub)
  {
    var i :| 0 <= i <= |s| - 1 - |sub| && sub <= s[1..][i..];
    assert s[1..][i..] == s[i + 1..];
  }

  /** Text without href is left alone. */
  lemma {:induction false} NoHrefUnchanged(base: string, token: string -> Token, s: string)
    requires !Contains(s, "href")
    ensures RewriteLinks(base, token, s) == s
  {
    if s != [] {
      if StartsHref(s) {
        HrefContained(s);
      }
      if Contains(s[1..], "href") {
        ContainsLater(s, "href");
      }
      NoHrefUnchanged(base, token, s[1..]);
      RewritePlain(base, token, s);
    }
  }

  /** No link starts in a text without href, even when one follows it. */
  lemma NoneBeforeHref(pre: string, s: string)
    requires pre != [] && !Contains(pre, "href") && StartsHref(s)
    ensures LinkAt(pre + s).None?
  {
    var t := pre + s;
    if StartsHref(t) {
      assert forall k :: |pre| <= k < |t| ==> t[k] == s[k - |pre|];
      if |pre| >= 4 {
        assert forall k :: 0 <= k < 4 ==> t[k] == pre[k];
        HrefContained(pre);
      }
    }
  }

  lemma {:induction false} RewriteAfterText(base: string, token: string -> Token, pre: string, s: string)
    requires !Contains(pre, "href") && StartsHref(s)
    ensures RewriteLinks(base, token, pre + s) == pre + RewriteLinks(base, token, s)
  {
    if pre == [] {
      assert pre + s == s;
    } else {
      if Contains(pre[1..], "href") {
        ContainsLater(pre, "href");
      }
      NoneBeforeHref(pre, s);
      RewriteAfterText(base, token, pre[1..], s);
      FirstCopied(base, token, pre, s);
    }
  }

  lemma FirstCopied(base: string, token: string -> Token, pre: string, s: string)
    requires pre != [] && LinkAt(pre + s).None?
    ensures RewriteLinks(base, token, pre + s) == [pre[0]] + RewriteLinks(base, token, pre[1..] + s)
  {
    RewritePlain(base, token, pre + s);
    assert (pre + s)[1..] == pre[1..] + s;
  }

  /**
    The first link of any text: what stands before it is copied, a web address becomes its tracking address in a
    plain href attribute, an address to be skipped is copied with its attribute, and the rest is rewritten alike.
  */
  lemma HrefRewritten(base: string, token: string -> Token, pre: string, w1: string, w2: string, url: string,
                      rest: string)
    requires !Contains(pre, "href") && AllWhite(w1) && AllWhite(w2) && url != [] && '"' !in url
    ensures var link := HrefEq(w1, w2) + url + "\"";
            RewriteLinks(base, token, pre + (link + rest))
            == pre + ((if Skipped(url) then link else "href=\"" + base + MARK + token(url) + "\"")
                      + RewriteLinks(base, token, rest))
  {
    var o := HrefEq(w1, w2);
    var s := o + url + "\"" + rest;
    HrefOpens(w1, w2);
    LinkRecognised(o, url, rest);
    RenderSlices(o, url, rest);
    RewriteLink(base, token, s, |o|, |o| + |url|);
    assert StartsHref(s);
    RewriteAfterText(base, token, pre, s);
    assert Render(Link("href=\"", Tracked(base, token, url))) == "href=\"" + base + MARK + token(url) + "\"" by {
      TrackedText(base, token(url));
    }
  }

  lemma TrackedText(base: string, t: string)
    ensures "href=\"" + (base + MARK + t) + "\"" == "href=\"" + base + MARK + t + "\""
  {
  }

  // ----- the open pixel

  const BODY_END: string := "</body>"

  predicate BodyEndAt(html: string, k: int) {
    0 <= k <= |html| && BODY_END <= Lower(html)[k..]
  }

  /** The pixel stands at `pos` and nothing else has changed. */
  ghost predicate PixelAt(html: string, pixel: string, r: string, pos: int) {
    0 <= pos <= |html| && r == html[..pos] + pixel + html[pos..]
  }

  /** The start of the last </body>, whatever its case, or the end when there is none. */
  ghost predicate LastBodyEnd(html: string, pos: int) {
    if exists k :: BodyEndAt(html, k) then BodyEndAt(html, pos) && forall k :: BodyEndAt(html, k) ==> k <= pos
    else pos == |html|
  }

  method InjectPixel(html: string, pixel: string) returns (r: string)
    ensures exists pos :: PixelAt(html, pixel, r, pos) && LastBodyEnd(html, pos)
  {
    var at := |html|;
    while at > 0 && !BodyEndAt(html, at)
      invariant 0 <= at <= |html|
      invariant forall k :: at < k ==> !BodyEndAt(html, k)
    {
      at := at - 1;
    }
    if !BodyEndAt(html, at) {
      at := |html|;
    }
    r := html[..at] + pixel + html[at..];
    assert PixelAt(html, pixel, r, at) && LastBodyEnd(html, at);
  }
}
