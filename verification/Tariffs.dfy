/** The dated rate table: what may be stored in it, and which rate is in force at a minute. */
module Tariffs {
  import opened Wrappers
  import opened Energy

  datatype Tariff = Tariff(effectiveMs: int, microPerKwh: int, currency: string)

  /** One row of the table, keyed by its effective time. */
  datatype Rate = Rate(microPerKwh: int, currency: string)

  datatype TariffError = Unaligned | BadPrice | BadCurrency | TooMany | MixedCurrency | Duplicate

  const MAX_TARIFFS := 4096
  const MAX_RATE := 1_000_000_000_000

  predicate CurrencyCode(c: string) { |c| == 3 && forall i :: 0 <= i < 3 ==> 'A' <= c[i] <= 'Z' }

  /** The rate in force at `at` is the one with the latest effective time not after it. */
  ghost predicate InForceSince(table: map<int, Rate>, at: int, e: int) {
    e in table && e <= at && forall f :: f in table && f <= at ==> f <= e
  }

  ghost function RateAt(table: map<int, Rate>, at: int): Option<Rate> {
    if exists e :: InForceSince(table, at, e) then
      var e :| InForceSince(table, at, e);
      Some(table[e])
    else None
  }

  lemma RateIs(table: map<int, Rate>, at: int, e: int)
    requires InForceSince(table, at, e)
    ensures RateAt(table, at) == Some(table[e])
  {}

  /** What every reachable rate table satisfies; uniqueness by time is the map's own. */
  ghost predicate TableOk(table: map<int, Rate>) {
    && |table| <= MAX_TARIFFS
    && (forall e :: e in table ==>
          e % MINUTE_MS == 0 && 0 <= table[e].microPerKwh <= MAX_RATE && CurrencyCode(table[e].currency))
    && (forall e, f :: e in table && f in table ==> table[e].currency == table[f].currency)
  }

  /** The checks of `set_tariff` in the source's order; `current` is the currency of any one stored row. */
  function Check(table: map<int, Rate>, current: Option<string>, t: Tariff, replace: bool): Option<TariffError> {
    if t.effectiveMs % MINUTE_MS != 0 then Some(Unaligned)
    else if !(0 <= t.microPerKwh <= MAX_RATE) then Some(BadPrice)
    else if !CurrencyCode(t.currency) then Some(BadCurrency)
    else if !(|table| < MAX_TARIFFS || (replace && t.effectiveMs in table)) then Some(TooMany)
    else if current.Some? && current.value != t.currency then Some(MixedCurrency)
    else if !replace && t.effectiveMs in table then Some(Duplicate)
    else None
  }

  ghost predicate AnyCurrency(table: map<int, Rate>, current: Option<string>) {
    match current
    case None => table == map[]
    case Some(c) => exists e :: e in table && table[e].currency == c
  }

  function Stored(table: map<int, Rate>, t: Tariff): map<int, Rate> {
    table[t.effectiveMs := Rate(t.microPerKwh, t.currency)]
  }

  /** An accepted tariff keeps the table aligned, bounded, priced in range and in a single currency. */
  lemma StoredKeepsTableOk(table: map<int, Rate>, current: Option<string>, t: Tariff, replace: bool)
    requires TableOk(table) && AnyCurrency(table, current) && Check(table, current, t, replace).None?
    ensures TableOk(Stored(table, t))
  {
    if t.effectiveMs in table {
      assert Stored(table, t).Keys == table.Keys;
    } else {
      assert Stored(table, t).Keys == table.Keys + {t.effectiveMs};
    }
  }

  /** A whole minute, a price from 0 to a million units, three capitals, the table's currency, and a free place. */
  ghost predicate Storable(table: map<int, Rate>, t: Tariff, replace: bool) {
    && t.effectiveMs % 60_000 == 0 && 0 <= t.microPerKwh <= 1_000_000_000_000
    && |t.currency| == 3 && (forall c :: c in t.currency ==> 'A' <= c <= 'Z')
    && (forall e :: e in table ==> table[e].currency == t.currency)
    && (if t.effectiveMs in table then replace else |table| < 4096)
  }

  /** Exactly the storable tariffs are accepted; one refused for its time alone is a duplicate. */
  lemma AcceptedIffStorable(table: map<int, Rate>, current: Option<string>, t: Tariff, replace: bool)
    requires TableOk(table) && AnyCurrency(table, current)
    ensures Check(table, current, t, replace).None? <==> Storable(table, t, replace)
    ensures !replace && t.effectiveMs in table && |table| < 4096 && Storable(table, t, true) ==>
              Check(table, current, t, replace) == Some(Duplicate)
  {
    assert forall i :: 0 <= i < |t.currency| ==> t.currency[i] in t.currency;
  }

  /** On a reachable table the verdict does not depend on which row the currency was read from. */
  lemma VerdictIsDetermined(table: map<int, Rate>, c1: Option<string>, c2: Option<string>, t: Tariff, replace: bool)
    requires TableOk(table) && AnyCurrency(table, c1) && AnyCurrency(table, c2)
    ensures Check(table, c1, t, replace) == Check(table, c2, t, replace)
  {}

  /** A rate never changes inside a minute row. */
  lemma RateConstantOverMinute(table: map<int, Rate>, minute: int, at: int)
    requires TableOk(table) && minute % MINUTE_MS == 0 && minute <= at < minute + MINUTE_MS
    ensures RateAt(table, at) == RateAt(table, minute)
  {
    forall e | e in table
      ensures e <= at <==> e <= minute
    {
      assert e % MINUTE_MS == 0;
    }
    SameRate(table, minute, table, at);
  }

  lemma SameRate(t1: map<int, Rate>, a1: int, t2: map<int, Rate>, a2: int)
    requires forall e :: InForceSince(t1, a1, e) <==> InForceSince(t2, a2, e)
    requires forall e :: InForceSince(t1, a1, e) ==> e in t2 && t1[e] == t2[e]
    ensures RateAt(t1, a1) == RateAt(t2, a2)
  {
    if e :| InForceSince(t1, a1, e) {
      RateIs(t1, a1, e);
      RateIs(t2, a2, e);
    }
  }

  /** `next` is the first dated rate after e, if there is one. */
  ghost predicate NextRate(table: map<int, Rate>, e: int, next: Option<int>) {
    match next
    case None => forall f :: f in table ==> f <= e
    case Some(n) => n in table && n > e && forall f :: f in table && f > e ==> n <= f
  }

  /** A rate stored at e governs exactly the minutes from e up to the next dated rate, and no other minute changes. */
  lemma StoringIsLocal(table: map<int, Rate>, t: Tariff, next: Option<int>, at: int)
    requires NextRate(table, t.effectiveMs, next)
    ensures if t.effectiveMs <= at && (next.Some? ==> at < next.value)
            then RateAt(Stored(table, t), at) == Some(Rate(t.microPerKwh, t.currency))
            else RateAt(Stored(table, t), at) == RateAt(table, at)
  {
    var after, e := Stored(table, t), t.effectiveMs;
    if e <= at && (next.Some? ==> at < next.value) {
      assert InForceSince(after, at, e);
      RateIs(after, at, e);
    } else {
      forall f
        ensures InForceSince(table, at, f) <==> InForceSince(after, at, f)
        ensures InForceSince(table, at, f) ==> f != e
      {
        assert forall g :: g in after <==> g in table || g == e;
        if e <= at {
          assert next.value in table && e < next.value <= at;
        }
      }
      SameRate(table, at, after, at);
    }
  }

  // ---------------------------------------------------------------- sorted lookup

  ghost predicate Increasing(keys: seq<int>) { forall i, j :: 0 <= i < j < |keys| ==> keys[i] < keys[j] }

  /** keys lists the effective times of the table in order. */
  ghost predicate Lists(keys: seq<int>, table: map<int, Rate>) {
    Increasing(keys) && forall e :: e in keys <==> e in table
  }

  /** Where the sorted effective times stop being at or before `at`. */
  ghost predicate SplitsAt(keys: seq<int>, at: int, i: nat) {
    && i <= |keys|
    && (forall j :: 0 <= j < i ==> keys[j] <= at)
    && (forall j :: i <= j < |keys| ==> at < keys[j])
  }

  /** Binary search over the sorted effective times. */
  method PartitionPoint(keys: seq<int>, at: int) returns (i: nat)
    requires Increasing(keys)
    ensures SplitsAt(keys, at, i)
  {
    var lo, hi := 0, |keys|;
    while lo < hi
      invariant 0 <= lo <= hi <= |keys|
      invariant forall j :: 0 <= j < lo ==> keys[j] <= at
      invariant forall j :: hi <= j < |keys| ==> at < keys[j]
    {
      var mid := (lo + hi) / 2;
      if keys[mid] <= at { lo := mid + 1; } else { hi := mid; }
    }
    i := lo;
  }

  /** The binary search of the sorted table and the linear definition give the same rate. */
  lemma LookupAgrees(keys: seq<int>, table: map<int, Rate>, at: int, i: nat)
    requires Lists(keys, table) && SplitsAt(keys, at, i)
    ensures i > 0 ==> keys[i - 1] in table
    ensures RateAt(table, at) == if i == 0 then None else Some(table[keys[i - 1]])
  {
    if i > 0 {
      assert keys[i - 1] in keys;
      forall f | f in table && f <= at
        ensures f <= keys[i - 1]
      {
        var j :| 0 <= j < |keys| && keys[j] == f;
      }
      RateIs(table, at, keys[i - 1]);
    } else {
      forall e | e in table
        ensures at < e
      {
        var j :| 0 <= j < |keys| && keys[j] == e;
      }
    }
  }
}
