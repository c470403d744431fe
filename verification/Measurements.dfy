/** Load imbalance over the six conductors of one connector. */
module Measurements {
  import opened Wrappers
  import opened Telemetry

  function Sum(s: seq<int>): int { if s == [] then 0 else s[0] + Sum(s[1..]) }

  function Largest(s: seq<int>): int
    requires s != []
  {
    if |s| == 1 then s[0] else Max(s[0], Largest(s[1..]))
  }

  function Smallest(s: seq<int>): int
    requires s != []
  {
    if |s| == 1 then s[0] else Min(s[0], Smallest(s[1..]))
  }

  function Abs(x: int): int { if x < 0 then -x else x }

  datatype Imbalance = Imbalance(spreadMa: int, deviationPercent: nat)

  /** Six times each conductor's distance from the mean. */
  function Distances(c: Conductors, total: int): seq<int> { seq(6, i requires 0 <= i < 6 => Abs(c[i] * 6 - total)) }

  function ImbalanceOf(c: Conductors): Imbalance {
    var total := Sum(c);
    if total <= 0 then Imbalance(0, 0) else
      Imbalance(Largest(c) - Smallest(c), Largest(Distances(c, total)) * 100 / total % 0x1_0000_0000)
  }

  lemma {:induction false} ExtremesBound(s: seq<int>)
    requires s != []
    ensures forall i :: 0 <= i < |s| ==> Smallest(s) <= s[i] <= Largest(s)
    ensures Smallest(s) in s && Largest(s) in s
  {
    if |s| == 1 {
    } else {
      ExtremesBound(s[1..]);
      forall i | 0 <= i < |s|
        ensures Smallest(s) <= s[i] <= Largest(s)
      {
        if i > 0 { assert s[i] == s[1..][i - 1]; }
      }
    }
  }

  lemma SumOfSix(c: Conductors)
    ensures Sum(c) == c[0] + c[1] + c[2] + c[3] + c[4] + c[5]
  {
    assert Sum(c) == c[0] + Sum(c[1..]);
    assert Sum(c[1..]) == c[1] + Sum(c[2..]) by { assert c[1..][1..] == c[2..]; }
    assert Sum(c[2..]) == c[2] + Sum(c[3..]) by { assert c[2..][1..] == c[3..]; }
    assert Sum(c[3..]) == c[3] + Sum(c[4..]) by { assert c[3..][1..] == c[4..]; }
    assert Sum(c[4..]) == c[4] + Sum(c[5..]) by { assert c[4..][1..] == c[5..]; }
    assert Sum(c[5..]) == c[5] by { assert c[5..][1..] == []; }
  }

  /**
   * For currents no wire can report negative, the deviation is at most 500 percent, so the narrowing cast loses
   * nothing and every policy threshold in 1..500 is meaningful; 500 means one conductor carries the whole load,
   * and no spread means no deviation.
   */
  lemma DeviationRange(c: Conductors)
    requires forall i :: 0 <= i < 6 ==> c[i] >= 0
    ensures var r := ImbalanceOf(c);
            && 0 <= r.deviationPercent <= 500
            && (r.deviationPercent == 500 <==> Sum(c) > 0 && Sum(c) in c)
            && (r.spreadMa == 0 ==> r.deviationPercent == 0)
            && 0 <= r.spreadMa <= Max(Sum(c), 0)
  {
    var total := Sum(c);
    ExtremesBound(c);
    PartsOfSum(c);
    if total > 0 {
      WorstDistance(c);
      Percent(Largest(Distances(c, total)), total);
    }
  }

  /** Six times the distance of conductor i from the mean. */
  function SixthsOff(c: Conductors, i: nat): int
    requires i < 6
  {
    Abs(6 * c[i] - Sum(c))
  }

  /**
   * Threshold by threshold: a loaded connector deviates by at least d percent exactly when some conductor is that far
   * from the mean, and its spread reaches s exactly when some two conductors differ by it.
   */
  lemma ReachesThreshold(c: Conductors, d: nat, s: int)
    requires forall i :: 0 <= i < 6 ==> c[i] >= 0
    requires Sum(c) > 0
    ensures ImbalanceOf(c).deviationPercent >= d <==> exists i: nat :: i < 6 && SixthsOff(c, i) * 100 >= d * Sum(c)
    ensures ImbalanceOf(c).spreadMa >= s <==> exists i: nat, j: nat :: i < 6 && j < 6 && c[i] - c[j] >= s
  {
    var total := Sum(c);
    var far := Distances(c, total);
    DeviationRange(c);
    WorstDistance(c);
    Percent(Largest(far), total);
    QuotientReaches(Largest(far) * 100, total, d);
    ExtremesBound(far);
    ExtremesBound(c);
    var i: nat :| i < 6 && far[i] == Largest(far);
    assert SixthsOff(c, i) == far[i];
    if ImbalanceOf(c).deviationPercent >= d { assert SixthsOff(c, i) * 100 >= d * total; }
    forall j: nat | j < 6 && SixthsOff(c, j) * 100 >= d * total
      ensures Largest(far) * 100 >= d * total
    {
      assert SixthsOff(c, j) == far[j];
    }
    var high: nat :| high < 6 && c[high] == Largest(c);
    var low: nat :| low < 6 && c[low] == Smallest(c);
    if ImbalanceOf(c).spreadMa >= s { assert c[high] - c[low] >= s; }
  }

  lemma QuotientReaches(n: int, total: int, d: nat)
    requires total > 0 && n >= 0
    ensures n / total >= d <==> n >= d * total
  {
    var q := n / total;
    assert n == q * total + n % total;
    if q >= d { MulMonotone(total, d, q); } else { MulMonotone(total, q + 1, d); }
  }

  lemma PartsOfSum(c: Conductors)
    requires forall i :: 0 <= i < 6 ==> c[i] >= 0
    ensures forall i :: 0 <= i < 6 ==> c[i] <= Sum(c)
  {
    SumOfSix(c);
  }

  lemma DistanceBounds(c: Conductors, i: nat)
    requires i < 6 && 0 <= c[i] <= Sum(c) && Sum(c) > 0
    ensures var d := Distances(c, Sum(c))[i]; 0 <= d <= 5 * Sum(c) && (d == 5 * Sum(c) <==> c[i] == Sum(c))
  {}

  lemma EvenLoad(c: Conductors)
    requires Largest(c) == Smallest(c)
    ensures forall i :: 0 <= i < 6 ==> Distances(c, Sum(c))[i] == 0
  {
    ExtremesBound(c);
    SumOfSix(c);
    assert forall i :: 0 <= i < 6 ==> c[i] == c[0];
  }

  lemma WorstDistance(c: Conductors)
    requires forall i :: 0 <= i < 6 ==> c[i] >= 0
    requires Sum(c) > 0
    ensures var worst := Largest(Distances(c, Sum(c)));
            && 0 <= worst <= 5 * Sum(c)
            && (worst == 5 * Sum(c) <==> Sum(c) in c)
            && (Largest(c) == Smallest(c) ==> worst == 0)
  {
    var d := Distances(c, Sum(c));
    PartsOfSum(c);
    ExtremesBound(d);
    var i :| 0 <= i < 6 && d[i] == Largest(d);
    DistanceBounds(c, i);
    if Sum(c) in c {
      var j :| 0 <= j < 6 && c[j] == Sum(c);
      DistanceBounds(c, j);
    }
    if Largest(c) == Smallest(c) { EvenLoad(c); }
  }

  lemma Percent(worst: int, total: int)
    requires total > 0 && 0 <= worst <= 5 * total
    ensures 0 <= worst * 100 / total <= 500
    ensures worst * 100 / total == 500 <==> worst == 5 * total
    ensures worst == 0 ==> worst * 100 / total == 0
  {
    QuotientBounds(worst * 100, total, 0, 500 * total + worst);
    var q := worst * 100 / total;
    assert worst * 100 == q * total + worst * 100 % total;
    if q > 500 { MulMonotone(total, 501, q); }
    if q < 500 { MulMonotone(total, q, 499); }
  }
}
