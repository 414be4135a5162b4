/** The key-value store with expiry that the abuse guards talk to: crates/sentio-abuse/src/mock.rs. */
module Kv {
  import opened Basics

  /** The keys the guards format, one constructor per format string. */
  datatype Key =
    | RateKey(ip: string, minute: int)
    | ScoreKey(ip: string)
    | StampKey(ip: string)
    | WarmupKey(schedule: nat, day: int)

  /** A stored string, as what it parses as. */
  datatype Value = Whole(n: int) | Score(x: real)

  datatype Slot = Slot(value: Value, expires: Option<int>)

  predicate Live(s: Slot, now: int) {
    s.expires.None? || now < s.expires.value
  }

  /** What a read at `now` sees. */
  function Read(m: map<Key, Slot>, k: Key, now: int): Option<Value> {
    if k in m && Live(m[k], now) then Some(m[k].value) else None
  }

  function ReadWhole(m: map<Key, Slot>, k: Key, now: int): int {
    var v := Read(m, k, now);
    if v.Some? && v.value.Whole? then v.value.n else 0
  }

  class Store {
    var data: map<Key, Slot>

    constructor ()
      ensures data == map[]
    {
      data := map[];
    }

    /** `get_opt`, which also drops an expired entry. */
    method Get(k: Key, now: int) returns (v: Option<Value>)
      modifies this
      ensures v == Read(old(data), k, now)
      ensures forall j, t :: t >= now ==> Read(data, j, t) == Read(old(data), j, t)
      ensures data == if k in old(data) && !Live(old(data)[k], now) then old(data) - {k} else old(data)
    {
      if k in data {
        if Live(data[k], now) {
          return Some(data[k].value);
        }
        data := data - {k};
      }
      return None;
    }

    method SetEx(k: Key, v: Value, now: int, secs: nat)
      modifies this
      ensures data == old(data)[k := Slot(v, Some(now + secs))]
    {
      data := data[k := Slot(v, Some(now + secs))];
    }

    method Del(k: Key)
      modifies this
      ensures data == old(data) - {k}
    {
      data := data - {k};
    }

    /** `incr`: an expired or missing counter restarts at one without expiry; a live one keeps its expiry. */
    method Incr(k: Key, now: int) returns (n: int)
      modifies this
      ensures n == ReadWhole(old(data), k, now) + 1
      ensures var expires := if Read(old(data), k, now).Some? then old(data)[k].expires else None;
              data == old(data)[k := Slot(Whole(n), expires)]
    {
      var v := Get(k, now);
      n := (if v.Some? && v.value.Whole? then v.value.n else 0) + 1;
      var expires := if k in data then data[k].expires else None;
      data := data[k := Slot(Whole(n), expires)];
    }

    method Expire(k: Key, now: int, secs: nat) returns (ok: bool)
      modifies this
      ensures ok == (k in old(data))
      ensures data == if ok then old(data)[k := Slot(old(data)[k].value, Some(now + secs))] else old(data)
    {
      ok := k in data;
      if ok {
        data := data[k := Slot(data[k].value, Some(now + secs))];
      }
    }
  }
}
