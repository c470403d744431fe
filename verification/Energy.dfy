/** The energy ledger: which pairs of samples are integrated, and how an interval is split over minute rows. */
module Energy {
  import opened Wrappers
  import opened Telemetry

  const MINUTE_MS := 60_000

  function MinuteOf(at: int): int { at / MINUTE_MS * MINUTE_MS }

  // ---------------------------------------------------------------- splitting

  datatype Piece = Piece(start: int, end: int)

  function Duration(p: Piece): int { p.end - p.start }

  function Pieces(a: int, b: int): (r: seq<Piece>)
    decreases b - a
  {
    if a >= b then [] else
      var end := Min(MinuteOf(a) + MINUTE_MS, b);
      [Piece(a, end)] + Pieces(end, b)
  }

  function TotalDuration(ps: seq<Piece>): int {
    if ps == [] then 0 else Duration(ps[0]) + TotalDuration(ps[1..])
  }

  /** The pieces tile [a, b): each is non-empty, lies inside one minute, and starts where the last one ended. */
  ghost predicate Tiles(ps: seq<Piece>, a: int, b: int) {
    && (a >= b ==> ps == [])
    && (a < b ==> ps != [] && ps[0].start == a && ps[|ps| - 1].end == b)
    && (forall i :: 0 <= i < |ps| ==> ps[i].start < ps[i].end <= MinuteOf(ps[i].start) + MINUTE_MS)
    && (forall i :: 0 < i < |ps| ==> ps[i].start == ps[i - 1].end && ps[i].start % MINUTE_MS == 0)
  }

  lemma MinuteBounds(at: int)
    ensures MinuteOf(at) <= at < MinuteOf(at) + MINUTE_MS
    ensures MinuteOf(at) % MINUTE_MS == 0
    ensures at % MINUTE_MS == 0 ==> MinuteOf(at) == at
  {}

  lemma {:induction false} PiecesTile(a: int, b: int)
    ensures Tiles(Pieces(a, b), a, b)
    decreases b - a
  {
    if a >= b {
    } else {
      var p, rest := FirstPiece(a, b);
      PiecesTile(p.end, b);
      TilesCons(p, rest, b);
    }
  }

  lemma FirstPiece(a: int, b: int) returns (p: Piece, rest: seq<Piece>)
    requires a < b
    ensures p.start == a < p.end <= b && p.end <= MinuteOf(a) + MINUTE_MS && (p.end < b ==> p.end % MINUTE_MS == 0)
    ensures rest == Pieces(p.end, b) && Pieces(a, b) == [p] + rest
  {
    MinuteBounds(a);
    p := Piece(a, Min(MinuteOf(a) + MINUTE_MS, b));
    rest := Pieces(p.end, b);
  }

  lemma TilesCons(p: Piece, rest: seq<Piece>, b: int)
    requires p.start < p.end <= b && p.end <= MinuteOf(p.start) + MINUTE_MS
    requires p.end < b ==> p.end % MINUTE_MS == 0
    requires Tiles(rest, p.end, b)
    ensures Tiles([p] + rest, p.start, b)
  {
    var ps := [p] + rest;
    forall i | 0 < i < |ps|
      ensures ps[i].start == ps[i - 1].end && ps[i].start % MINUTE_MS == 0
    {
      assert ps[i] == rest[i - 1];
      if i > 1 { assert ps[i - 1] == rest[i - 2]; }
    }
  }

  lemma {:induction false} DurationsAddUp(a: int, b: int)
    requires a <= b
    ensures TotalDuration(Pieces(a, b)) == b - a
    decreases b - a
  {
    if a >= b {
    } else {
      MinuteBounds(a);
      DurationsAddUp(Min(MinuteOf(a) + MINUTE_MS, b), b);
    }
  }

  // ---------------------------------------------------------------- trapezoids

  /** Nearest integer to n/d, halves away from zero. */
  function Round(n: int, d: int): int
    requires d > 0
  {
    if n >= 0 then (2 * n + d) / (2 * d) else -((-2 * n + d) / (2 * d))
  }

  lemma RoundIsNearest(n: int, d: int)
    requires d > 0
    ensures -d <= 2 * (Round(n, d) * d - n) <= d
  {
    var m := if n >= 0 then n else -n;
    var q := (2 * m + d) / (2 * d);
    assert 2 * m + d == q * (2 * d) + (2 * m + d) % (2 * d);
    assert q * (2 * d) == 2 * (q * d);
  }

  lemma RoundMonotone(n: int, m: int, d: int)
    requires d > 0 && 0 <= n <= m
    ensures 0 <= Round(n, d) <= Round(m, d)
  {
    var a, b := Round(n, d), Round(m, d);
    assert 2 * n + d == a * (2 * d) + (2 * n + d) % (2 * d);
    assert 2 * m + d == b * (2 * d) + (2 * m + d) % (2 * d);
    if b < a { MulMonotone(2 * d, b + 1, a); }
  }

  lemma RoundAtMost(n: int, d: int, q: int)
    requires d > 0 && 0 <= n <= q * d
    ensures Round(n, d) <= q
  {
    var r := Round(n, d);
    assert 2 * n + d == r * (2 * d) + (2 * n + d) % (2 * d);
    if r > q { MulMonotone(2 * d, q + 1, r); }
  }

  /** 2 * wall times the integral from 0 to x of the line through (0, left) and (wall, right). */
  function Area(left: int, right: int, wall: int, x: int): int {
    2 * left * wall * x + (right - left) * x * x
  }

  /** Microjoules of one piece: the trapezoid of the interpolated power, microwatt-milliseconds over 1000. */
  function Integrate(left: int, right: int, origin: int, wall: int, p: Piece): int
    requires wall > 0
  {
    Round((2 * left * wall + (right - left) * ((p.start - origin) + (p.end - origin))) * (p.end - p.start), 2000 * wall)
  }

  lemma PieceArea(left: int, right: int, origin: int, wall: int, p: Piece)
    ensures (2 * left * wall + (right - left) * ((p.start - origin) + (p.end - origin))) * (p.end - p.start)
         == Area(left, right, wall, p.end - origin) - Area(left, right, wall, p.start - origin)
  {
    var x, y, g, k := p.start - origin, p.end - origin, right - left, 2 * left * wall;
    assert p.end - p.start == y - x;
    calc {
      (k + g * (x + y)) * (y - x);
      k * (y - x) + g * (x + y) * (y - x);
      { assert g * (x + y) * (y - x) == g * ((x + y) * (y - x)); assert (x + y) * (y - x) == y * y - x * x; }
      k * (y - x) + g * (y * y - x * x);
      { assert k * (y - x) == k * y - k * x; assert g * (y * y - x * x) == g * (y * y) - g * (x * x); }
      k * y + g * (y * y) - (k * x + g * (x * x));
      { assert g * (y * y) == g * y * y; assert g * (x * x) == g * x * x; }
      Area(left, right, wall, y) - Area(left, right, wall, x);
    }
  }

  function TotalIntegral(left: int, right: int, origin: int, wall: int, ps: seq<Piece>): int
    requires wall > 0
  {
    if ps == [] then 0 else
      Integrate(left, right, origin, wall, ps[0]) + TotalIntegral(left, right, origin, wall, ps[1..])
  }

  lemma {:induction false} PartialTelescope(left: int, right: int, origin: int, wall: int, a: int, b: int)
    requires wall > 0 && a <= b
    ensures var ps := Pieces(a, b);
            var exact := Area(left, right, wall, b - origin) - Area(left, right, wall, a - origin);
            WithinHalfEach(TotalIntegral(left, right, origin, wall, ps), exact, |ps|, 2000 * wall)
    decreases b - a
  {
    if a >= b {
    } else {
      MinuteBounds(a);
      var p := Piece(a, Min(MinuteOf(a) + MINUTE_MS, b));
      var rest := Pieces(p.end, b);
      assert Pieces(a, b) == [p] + rest;
      PartialTelescope(left, right, origin, wall, p.end, b);
      PieceArea(left, right, origin, wall, p);
      ghost var n := Area(left, right, wall, p.end - origin) - Area(left, right, wall, a - origin);
      ghost var m := Area(left, right, wall, b - origin) - Area(left, right, wall, p.end - origin);
      AddRounded(n, 2000 * wall, TotalIntegral(left, right, origin, wall, rest), m, |rest|);
    }
  }

  /** `sum` is within half a unit per term of the exact quotient `exact / d` after k roundings. */
  ghost predicate WithinHalfEach(sum: int, exact: int, k: nat, d: int) {
    -(k * d) <= 2 * (sum * d - exact) <= k * d
  }

  lemma AddRounded(n: int, d: int, sum: int, exact: int, k: nat)
    requires d > 0 && WithinHalfEach(sum, exact, k, d)
    ensures WithinHalfEach(Round(n, d) + sum, n + exact, k + 1, d)
  {
    RoundIsNearest(n, d);
    var r := Round(n, d);
    assert (r + sum) * d == r * d + sum * d;
    assert (k + 1) * d == k * d + d;
  }

  /**
   * The pieces telescope: the stored microjoules of an interval differ from its whole trapezoid,
   * (left + right) * wall / 2000, by at most half a unit per piece.
   */
  lemma TrapezoidsTelescope(left: int, right: int, a: int, b: int)
    requires a < b
    ensures var ps := Pieces(a, b);
            -1000 * |ps| <= 2000 * TotalIntegral(left, right, a, b - a, ps) - (left + right) * (b - a) <= 1000 * |ps|
  {
    var wall, ps := b - a, Pieces(a, b);
    PartialTelescope(left, right, a, wall, a, b);
    WholeArea(left, right, wall);
    HalfUnits(TotalIntegral(left, right, a, wall, ps), (left + right) * wall, |ps|, wall);
  }

  lemma WholeArea(left: int, right: int, wall: int)
    ensures Area(left, right, wall, wall) == (left + right) * wall * wall
    ensures Area(left, right, wall, 0) == 0
  {
    var w := wall * wall;
    assert 2 * left * wall * wall == 2 * left * w;
    assert (right - left) * wall * wall == (right - left) * w;
    assert (left + right) * wall * wall == (left + right) * w;
  }

  lemma HalfUnits(t: int, exact: int, k: nat, wall: int)
    requires wall > 0 && WithinHalfEach(t, exact * wall, k, 2000 * wall)
    ensures -1000 * k <= 2000 * t - exact <= 1000 * k
  {
    var x := 2000 * t - exact;
    assert t * (2000 * wall) == (2000 * t) * wall;
    assert x * wall == (2000 * t) * wall - exact * wall;
    assert k * (2000 * wall) == 2 * ((1000 * k) * wall);
    CancelFactor(x, 1000 * k, wall);
    assert (-x) * wall == -(x * wall);
    CancelFactor(-x, 1000 * k, wall);
  }

  lemma CancelFactor(x: int, y: int, w: int)
    requires w > 0 && x * w <= y * w
    ensures x <= y
  {
    if x > y { MulMonotone(w, y + 1, x); }
  }
}
