/** The decaying reputation score: crates/sentio-abuse/src/ip_reputation.rs. Reals stand for f64, time is in seconds. */
module Reputation {
  import opened Basics
  import opened Kv

  datatype Op = Infraction(at: nat, points: real) | Reset(at: nat)

  const REP_TTL_SECS: nat := 86400 * 7

  function Pow(r: real, n: nat): real {
    if n == 0 then 1.0 else r * Pow(r, n - 1)
  }

  /** The infractions that still count: back from `next`, up to a reset or to a gap of seven days. */
  function Live(h: seq<Op>, next: nat): seq<Op> {
    if h == [] then []
    else
      var last := h[|h| - 1];
      if last.Reset? || last.at + REP_TTL_SECS <= next then [] else Live(h[..|h| - 1], last.at) + [last]
  }

  /** What one operation adds to the score of `now`. */
  function Contribution(op: Op, r: real, now: nat): real {
    if op.Infraction? && op.at <= now then op.points * Pow(r, now - op.at) else 0.0
  }

  function Sum(xs: seq<real>): real {
    if xs == [] then 0.0 else Sum(xs[..|xs| - 1]) + xs[|xs| - 1]
  }

  function Terms(ops: seq<Op>, r: real, now: nat): seq<real> {
    seq(|ops|, i requires 0 <= i < |ops| => Contribution(ops[i], r, now))
  }

  /** Sum of points, each decayed by `r` per second since it was recorded. */
  function Decayed(ops: seq<Op>, r: real, now: nat): real {
    Sum(Terms(ops, r, now))
  }

  function TrueScore(h: seq<Op>, r: real, now: nat): real {
    Decayed(Live(h, now), r, now)
  }

  ghost predicate Past(h: seq<Op>, now: nat) {
    forall i :: 0 <= i < |h| ==> h[i].at <= now
  }

  ghost predicate Ordered(h: seq<Op>) {
    forall i, j :: 0 <= i < j < |h| ==> h[i].at <= h[j].at
  }

  // ----- arithmetic of decay

  lemma {:induction false} PowAdd(r: real, m: nat, n: nat)
    ensures Pow(r, m + n) == Pow(r, m) * Pow(r, n)
  {
    if m > 0 {
      PowAdd(r, m - 1, n);
      assert m - 1 + n == m + n - 1;
      ScaledProduct(r, Pow(r, m - 1), Pow(r, n), Pow(r, m + n - 1));
    }
  }

  lemma ScaledProduct(a: real, b: real, c: real, p: real)
    requires p == b * c
    ensures a * p == (a * b) * c
  {
  }

  lemma {:induction false} PowUnit(r: real, n: nat)
    requires 0.0 <= r <= 1.0
    ensures 0.0 <= Pow(r, n) <= 1.0
  {
    if n > 0 {
      PowUnit(r, n - 1);
      UnitProduct(r, Pow(r, n - 1));
    }
  }

  lemma UnitProduct(x: real, y: real)
    requires 0.0 <= x <= 1.0 && 0.0 <= y
    ensures 0.0 <= x * y <= y
  {
    assert (1.0 - x) * y >= 0.0;
  }

  ghost predicate Scaled(xs: seq<real>, ys: seq<real>, factor: real) {
    && |xs| == |ys|
    && (xs == [] || (Scaled(xs[..|xs| - 1], ys[..|ys| - 1], factor) && ys[|ys| - 1] == xs[|xs| - 1] * factor))
  }

  /** Decay composes: waiting scales the whole sum. */
  lemma DecayedLater(ops: seq<Op>, r: real, now: nat, later: nat)
    requires Past(ops, now) && now <= later
    ensures Decayed(ops, r, later) == Decayed(ops, r, now) * Pow(r, later - now)
  {
    TermsScale(ops, r, now, later, Pow(r, later - now));
    SumScales(Terms(ops, r, now), Terms(ops, r, later), Pow(r, later - now));
  }

  lemma {:induction false} TermsScale(ops: seq<Op>, r: real, now: nat, later: nat, factor: real)
    requires Past(ops, now) && now <= later && factor == Pow(r, later - now)
    ensures Scaled(Terms(ops, r, now), Terms(ops, r, later), factor)
  {
    if ops != [] {
      var n := |ops| - 1;
      TermsScale(ops[..n], r, now, later, factor);
      ContributionLater(ops[n], r, now, later);
      assert Terms(ops, r, now)[..n] == Terms(ops[..n], r, now);
      assert Terms(ops, r, later)[..n] == Terms(ops[..n], r, later);
    }
  }

  lemma {:induction false} SumScales(xs: seq<real>, ys: seq<real>, factor: real)
    requires Scaled(xs, ys, factor)
    ensures Sum(ys) == Sum(xs) * factor
  {
    if xs != [] {
      var n := |xs| - 1;
      SumScales(xs[..n], ys[..n], factor);
      Distributes(Sum(xs[..n]), xs[n], Sum(xs), factor, Sum(ys[..n]), ys[n], Sum(ys));
    }
  }

  lemma ContributionLater(op: Op, r: real, now: nat, later: nat)
    requires op.at <= now <= later
    ensures Contribution(op, r, later) == Contribution(op, r, now) * Pow(r, later - now)
  {
    if op.Infraction? {
      PowAdd(r, now - op.at, later - now);
      assert now - op.at + (later - now) == later - op.at;
      ScaledProduct(op.points, Pow(r, now - op.at), Pow(r, later - now), Pow(r, later - op.at));
    }
  }

  lemma Distributes(a: real, b: real, total: real, factor: real, aLater: real, bLater: real, later: real)
    requires total == a + b && later == aLater + bLater && aLater == a * factor && bLater == b * factor
    ensures later == total * factor
  {
    assert (a + b) * factor == a * factor + b * factor;
  }

  lemma {:induction false} LivePast(h: seq<Op>, next: nat, now: nat)
    requires Past(h, now)
    ensures Past(Live(h, next), now)
  {
    if h != [] {
      LivePast(h[..|h| - 1], h[|h| - 1].at, now);
    }
  }

  /** One infraction adds its points to the score of the moment. */
  lemma ScoreAfterInfraction(h: seq<Op>, r: real, at: nat, points: real)
    ensures TrueScore(h + [Infraction(at, points)], r, at) == TrueScore(h, r, at) + points
  {
    var h' := h + [Infraction(at, points)];
    var live := Live(h', at);
    assert h'[..|h|] == h;
    assert live == Live(h, at) + [Infraction(at, points)];
    assert Contribution(Infraction(at, points), r, at) == points;
    assert Terms(live, r, at) == Terms(Live(h, at), r, at) + [points];
    SumSnoc(Terms(Live(h, at), r, at), points);
  }

  lemma SumSnoc(xs: seq<real>, x: real)
    ensures Sum(xs + [x]) == Sum(xs) + x
  {
    assert (xs + [x])[..|xs|] == xs;
  }

  /** Until the next operation the score is the last one decayed, and nothing once seven days have passed. */
  lemma ScoreLater(h: seq<Op>, r: real, now: nat)
    requires h != [] && h[|h| - 1].Infraction? && Past(h, h[|h| - 1].at) && h[|h| - 1].at <= now
    ensures var t := h[|h| - 1].at;
            TrueScore(h, r, now) == if now < t + 7 * 24 * 60 * 60 then TrueScore(h, r, t) * Pow(r, now - t) else 0.0
  {
    var t := h[|h| - 1].at;
    if now < t + REP_TTL_SECS {
      assert Live(h, now) == Live(h, t);
      LivePast(h, t, t);
      DecayedLater(Live(h, t), r, t, now);
    }
  }

  // ----- the graduated action

  datatype Action = Allow | Warn | Greylist | Refuse

  datatype Thresholds = Thresholds(warn: real, greylist: real, reject: real)

  function ActionFor(th: Thresholds, score: real): Action {
    if score > th.reject then Refuse
    else if score > th.greylist then Greylist
    else if score > th.warn then Warn
    else Allow
  }

  /** Each action by the interval of the score, for thresholds in any order. */
  lemma ActionExactly(th: Thresholds, s: real)
    ensures ActionFor(th, s) == Refuse <==> th.reject < s
    ensures ActionFor(th, s) == Greylist <==> th.greylist < s <= th.reject
    ensures ActionFor(th, s) == Warn <==> th.warn < s && s <= th.greylist && s <= th.reject
    ensures ActionFor(th, s) == Allow <==> s <= th.warn && s <= th.greylist && s <= th.reject
  {
  }

  function Severity(a: Action): nat {
    match a
    case Allow => 0
    case Warn => 1
    case Greylist => 2
    case Refuse => 3
  }

  ghost predicate Penalties(h: seq<Op>) {
    forall i :: 0 <= i < |h| && h[i].Infraction? ==> h[i].points >= 0.0
  }

  lemma DecayedNonNegative(ops: seq<Op>, r: real, now: nat)
    requires 0.0 <= r <= 1.0 && Penalties(ops)
    ensures Decayed(ops, r, now) >= 0.0
  {
    forall i | 0 <= i < |ops|
      ensures Contribution(ops[i], r, now) >= 0.0
    {
      if ops[i].Infraction? && ops[i].at <= now {
        PowUnit(r, now - ops[i].at);
        UnitProduct(Pow(r, now - ops[i].at), ops[i].points);
      }
    }
    SumNonNegative(Terms(ops, r, now));
  }

  lemma {:induction false} SumNonNegative(xs: seq<real>)
    requires forall i :: 0 <= i < |xs| ==> xs[i] >= 0.0
    ensures Sum(xs) >= 0.0
  {
    if xs != [] {
      SumNonNegative(xs[..|xs| - 1]);
    }
  }

  lemma {:induction false} LivePenalties(h: seq<Op>, next: nat)
    requires Penalties(h)
    ensures Penalties(Live(h, next))
  {
    if h != [] {
      LivePenalties(h[..|h| - 1], h[|h| - 1].at);
    }
  }

  lemma ScoreNeverGrows(h: seq<Op>, r: real, now: nat, later: nat)
    requires 0.0 <= r <= 1.0 && Penalties(h) && Past(h, now) && now <= later
    ensures TrueScore(h, r, later) <= TrueScore(h, r, now)
  {
    LivePenalties(h, now);
    LivePast(h, now, now);
    DecayedShrinks(Live(h, now), r, now, later);
    DecayedNonNegative(Live(h, now), r, now);
    assert Live(h, later) == Live(h, now) || Live(h, later) == [];
  }

  lemma DecayedShrinks(ops: seq<Op>, r: real, now: nat, later: nat)
    requires 0.0 <= r <= 1.0 && Penalties(ops) && Past(ops, now) && now <= later
    ensures Decayed(ops, r, later) <= Decayed(ops, r, now)
  {
    DecayedNonNegative(ops, r, now);
    DecayedLater(ops, r, now, later);
    PowUnit(r, later - now);
    Shrinks(Decayed(ops, r, later), Decayed(ops, r, now), Pow(r, later - now));
  }

  lemma Shrinks(result: real, total: real, factor: real)
    requires result == total * factor && total >= 0.0 && 0.0 <= factor <= 1.0
    ensures result <= total
  {
    assert total * (1.0 - factor) >= 0.0;
  }

  /** Without a new infraction neither the score nor the graduated action ever worsens. */
  lemma NeverWorsens(h: seq<Op>, r: real, th: Thresholds, now: nat, later: nat)
    requires 0.0 <= r <= 1.0 && Penalties(h) && Past(h, now) && now <= later
    ensures TrueScore(h, r, later) <= TrueScore(h, r, now)
    ensures Severity(ActionFor(th, TrueScore(h, r, later))) <= Severity(ActionFor(th, TrueScore(h, r, now)))
  {
    ScoreNeverGrows(h, r, now, later);
    SeverityMonotone(th, TrueScore(h, r, later), TrueScore(h, r, now));
  }

  lemma SeverityMonotone(th: Thresholds, a: real, b: real)
    requires a <= b
    ensures Severity(ActionFor(th, a)) <= Severity(ActionFor(th, b))
  {
  }

  // ----- the tracker on the store

  /** A history as the clock produces it. */
  ghost predicate Recorded(h: seq<Op>, clock: nat) {
    Past(h, clock) && Ordered(h) && forall i :: 0 <= i < |h| && h[i].Infraction? ==> h[i].at > 0
  }

  /** Both keys of an IP hold, until seven days after the last infraction, its score and time. */
  ghost predicate Tracks(data: map<Key, Slot>, ip: string, h: seq<Op>, r: real, clock: nat) {
    && Recorded(h, clock)
    && forall now: nat :: now >= clock ==>
         if h != [] && h[|h| - 1].Infraction? && now < h[|h| - 1].at + REP_TTL_SECS then
           && Read(data, ScoreKey(ip), now) == Some(Score(TrueScore(h, r, h[|h| - 1].at)))
           && Read(data, StampKey(ip), now) == Some(Whole(h[|h| - 1].at))
         else Read(data, ScoreKey(ip), now) == None && Read(data, StampKey(ip), now) == None
  }

  lemma OrderedPast(h: seq<Op>)
    requires Ordered(h) && h != []
    ensures Past(h, h[|h| - 1].at)
  {
  }

  ghost function HistoryOf(m: map<string, seq<Op>>, ip: string): seq<Op> {
    if ip in m then m[ip] else []
  }

  ghost predicate AllTracked(data: map<Key, Slot>, m: map<string, seq<Op>>, r: real, clock: nat) {
    forall ip :: Tracks(data, ip, HistoryOf(m, ip), r, clock)
  }

  /** An operation on one IP leaves the others tracked. */
  lemma OthersTracked(d0: map<Key, Slot>, d1: map<Key, Slot>, m: map<string, seq<Op>>, ip: string, h: seq<Op>,
                      r: real, clock: nat, now: nat)
    requires AllTracked(d0, m, r, clock) && clock <= now
    requires forall k :: k != ScoreKey(ip) && k != StampKey(ip) ==> SameAt(d0, d1, k)
    requires Tracks(d1, ip, h, r, now)
    ensures AllTracked(d1, m[ip := h], r, now)
  {
    var m' := m[ip := h];
    forall x
      ensures Tracks(d1, x, HistoryOf(m', x), r, now)
    {
      assert Tracks(d0, x, HistoryOf(m, x), r, clock);
      if x != ip {
        OtherTracked(d0, d1, x, HistoryOf(m, x), r, clock, now);
      }
    }
  }

  lemma OtherTracked(d0: map<Key, Slot>, d1: map<Key, Slot>, x: string, h: seq<Op>, r: real, clock: nat, now: nat)
    requires Tracks(d0, x, h, r, clock) && clock <= now
    requires SameAt(d0, d1, ScoreKey(x)) && SameAt(d0, d1, StampKey(x))
    ensures Tracks(d1, x, h, r, now)
  {
    assert forall t: int :: Read(d1, ScoreKey(x), t) == Read(d0, ScoreKey(x), t);
    assert forall t: int :: Read(d1, StampKey(x), t) == Read(d0, StampKey(x), t);
  }

  ghost predicate SameAt(d0: map<Key, Slot>, d1: map<Key, Slot>, k: Key) {
    (k in d0 <==> k in d1) && (k in d0 ==> d0[k] == d1[k])
  }

  /** Reading can only drop expired entries. */
  lemma ReadingTracks(d0: map<Key, Slot>, d1: map<Key, Slot>, m: map<string, seq<Op>>, r: real, clock: nat, now: nat)
    requires AllTracked(d0, m, r, clock) && clock <= now
    requires forall k, t :: t >= now ==> Read(d1, k, t) == Read(d0, k, t)
    ensures AllTracked(d1, m, r, now)
  {
    forall x
      ensures Tracks(d1, x, HistoryOf(m, x), r, now)
    {
      assert Tracks(d0, x, HistoryOf(m, x), r, clock);
    }
  }

  /** What the stored pair stands for at `now`. */
  lemma StoredScore(data: map<Key, Slot>, ip: string, h: seq<Op>, r: real, clock: nat, now: nat)
    requires Tracks(data, ip, h, r, clock) && clock <= now
    ensures var v, w := Read(data, ScoreKey(ip), now), Read(data, StampKey(ip), now);
            if v.Some? then
              && v.value.Score? && w.Some? && w.value.Whole? && 0 < w.value.n <= now
              && TrueScore(h, r, now) == v.value.x * Pow(r, now - w.value.n)
            else TrueScore(h, r, now) == 0.0
  {
    if h != [] && h[|h| - 1].Infraction? {
      OrderedPast(h);
      ScoreLater(h, r, now);
      assert h[|h| - 1].at > 0;
    } else {
      assert Live(h, now) == [];
      assert Decayed([], r, now) == 0.0;
    }
  }

  class Tracker {
    const store: Store
    const th: Thresholds
    const decay: real         // per second: one half to the power 1 / (3600 * decay_hours)
    ghost var history: map<string, seq<Op>>
    ghost var clock: nat

    ghost function Of(ip: string): seq<Op>
      reads this
    {
      HistoryOf(history, ip)
    }

    ghost predicate Valid()
      reads this, store
    {
      AllTracked(store.data, history, decay, clock)
    }

    constructor (th: Thresholds, decay: real)
      ensures Valid() && fresh(store) && this.th == th && this.decay == decay && history == map[] && clock == 0
    {
      store := new Store();
      this.th, this.decay := th, decay;
      history, clock := map[], 0;
    }

    /** `get_score`: lazily decayed, yet equal to the sum over the live infractions. */
    method GetScore(ip: string, now: nat) returns (s: real)
      requires Valid() && now >= clock
      modifies this, store
      ensures Valid() && clock == now && history == old(history)
      ensures s == TrueScore(Of(ip), decay, now)
    {
      ghost var d0, c0 := store.data, clock;
      assert Tracks(d0, ip, Of(ip), decay, c0);
      StoredScore(d0, ip, Of(ip), decay, c0, now);
      var v := store.Get(ScoreKey(ip), now);
      ReadingTracks(d0, store.data, history, decay, c0, now);
      clock := now;
      var stored := if v.Some? && v.value.Score? then v.value.x else 0.0;
      if stored == 0.0 { return 0.0; }
      ghost var d1 := store.data;
      var stamp := store.Get(StampKey(ip), now);
      ReadingTracks(d1, store.data, history, decay, now, now);
      var last := if stamp.Some? && stamp.value.Whole? then stamp.value.n else 0;
      if last == 0 { return stored; }
      if now - last <= 0 { return stored; }
      s := stored * Pow(decay, now - last);
    }

    /** `record_infraction`: decay first, then add. */
    method RecordInfraction(ip: string, points: real, now: nat) returns (s: real)
      requires Valid() && now >= clock && now > 0
      modifies this, store
      ensures Valid() && clock == now
      ensures history == old(history)[ip := old(Of(ip)) + [Infraction(now, points)]]
      ensures s == TrueScore(Of(ip), decay, now)
    {
      var current := GetScore(ip, now);
      s := current + points;
      ghost var d0, h := store.data, Of(ip);
      store.SetEx(ScoreKey(ip), Score(s), now, REP_TTL_SECS);
      store.SetEx(StampKey(ip), Whole(now), now, REP_TTL_SECS);
      InfractionTracked(d0, store.data, history, ip, decay, now, points, s);
      history := history[ip := h + [Infraction(now, points)]];
    }

    /** `reset`. */
    method ResetScore(ip: string, now: nat)
      requires Valid() && now >= clock
      modifies this, store
      ensures Valid() && clock == now
      ensures history == old(history)[ip := old(Of(ip)) + [Reset(now)]]
      ensures TrueScore(Of(ip), decay, now) == 0.0
    {
      ghost var d0, h := store.data, Of(ip);
      assert Tracks(d0, ip, h, decay, clock);
      store.Del(ScoreKey(ip));
      store.Del(StampKey(ip));
      OthersTracked(d0, store.data, history, ip, h + [Reset(now)], decay, clock, now);
      history, clock := history[ip := h + [Reset(now)]], now;
    }

    method Evaluate(ip: string, now: nat) returns (a: Action)
      requires Valid() && now >= clock
      modifies this, store
      ensures Valid() && clock == now && history == old(history)
      ensures a == ActionFor(th, TrueScore(Of(ip), decay, now))
      ensures var s := TrueScore(Of(ip), decay, now);
              match a
              case Refuse => th.reject < s
              case Greylist => th.greylist < s <= th.reject
              case Warn => th.warn < s && s <= th.greylist && s <= th.reject
              case Allow => s <= th.warn && s <= th.greylist && s <= th.reject
    {
      var s := GetScore(ip, now);
      a := if s > th.reject then Refuse else if s > th.greylist then Greylist else if s > th.warn then Warn else Allow;
    }
  }

  lemma InfractionTracks(data: map<Key, Slot>, ip: string, h: seq<Op>, r: real, now: nat, points: real, s: real)
    requires Recorded(h, now) && now > 0 && s == TrueScore(h, r, now) + points
    requires ScoreKey(ip) in data && data[ScoreKey(ip)] == Slot(Score(s), Some(now + REP_TTL_SECS))
    requires StampKey(ip) in data && data[StampKey(ip)] == Slot(Whole(now), Some(now + REP_TTL_SECS))
    ensures Tracks(data, ip, h + [Infraction(now, points)], r, now)
    ensures s == TrueScore(h + [Infraction(now, points)], r, now)
  {
    ScoreAfterInfraction(h, r, now, points);
    RecordedSnoc(h, now, Infraction(now, points));
    LatestTracks(data, ip, h + [Infraction(now, points)], r, now, s);
  }

  lemma RecordedSnoc(h: seq<Op>, now: nat, op: Op)
    requires Recorded(h, now) && op.at == now > 0
    ensures Recorded(h + [op], now)
  {
  }

  lemma InfractionTracked(d0: map<Key, Slot>, d1: map<Key, Slot>, m: map<string, seq<Op>>, ip: string, r: real,
                          now: nat, points: real, s: real)
    requires AllTracked(d0, m, r, now) && now > 0 && s == TrueScore(HistoryOf(m, ip), r, now) + points
    requires d1 == d0[ScoreKey(ip) := Slot(Score(s), Some(now + REP_TTL_SECS))]
                     [StampKey(ip) := Slot(Whole(now), Some(now + REP_TTL_SECS))]
    ensures var h := HistoryOf(m, ip) + [Infraction(now, points)];
            AllTracked(d1, m[ip := h], r, now) && s == TrueScore(h, r, now)
  {
    var h := HistoryOf(m, ip);
    AllRecorded(d0, m, r, now, ip);
    InfractionTracks(d1, ip, h, r, now, points, s);
    OthersTracked(d0, d1, m, ip, h + [Infraction(now, points)], r, now, now);
  }

  lemma AllRecorded(data: map<Key, Slot>, m: map<string, seq<Op>>, r: real, clock: nat, ip: string)
    requires AllTracked(data, m, r, clock)
    ensures Recorded(HistoryOf(m, ip), clock)
  {
    assert Tracks(data, ip, HistoryOf(m, ip), r, clock);
  }

  lemma LatestTracks(data: map<Key, Slot>, ip: string, h: seq<Op>, r: real, now: nat, s: real)
    requires Recorded(h, now)
    requires h != [] && h[|h| - 1].Infraction? && h[|h| - 1].at == now && s == TrueScore(h, r, now)
    requires ScoreKey(ip) in data && data[ScoreKey(ip)] == Slot(Score(s), Some(now + REP_TTL_SECS))
    requires StampKey(ip) in data && data[StampKey(ip)] == Slot(Whole(now), Some(now + REP_TTL_SECS))
    ensures Tracks(data, ip, h, r, now)
  {
  }
}
