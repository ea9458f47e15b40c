/** Difficulty adjustment by linear regression, over exact arithmetic (difficulty.rs). */
module Difficulty {
  import opened Prelude
  import opened BigEndian
  import opened NBits

  datatype HeaderForDifficulty = HeaderForDifficulty(height: u32, timestamp: nat, nBits: u32)

  datatype DifficultyError = TooFewHeaders(count: nat) | DegenerateData | NoHeaders

  const GENESIS_NBITS: u32 := 0x1f00ffff

  type Headers = seq<HeaderForDifficulty>

  function SumX(hs: Headers): int {
    if hs == [] then 0 else SumX(hs[..|hs| - 1]) + hs[|hs| - 1].height
  }

  function SumY(hs: Headers): int {
    if hs == [] then 0 else SumY(hs[..|hs| - 1]) + hs[|hs| - 1].timestamp
  }

  function SumXY(hs: Headers): int {
    if hs == [] then 0 else SumXY(hs[..|hs| - 1]) + hs[|hs| - 1].height * hs[|hs| - 1].timestamp
  }

  function SumX2(hs: Headers): int {
    if hs == [] then 0 else SumX2(hs[..|hs| - 1]) + hs[|hs| - 1].height * hs[|hs| - 1].height
  }

  function Numerator(hs: Headers): int {
    |hs| * SumXY(hs) - SumX(hs) * SumY(hs)
  }

  function Denominator(hs: Headers): int {
    |hs| * SumX2(hs) - SumX(hs) * SumX(hs)
  }

  // ---------------------------------------------------------------- sums over pairs

  /** The products of differences of height and time between `h` and each header. */
  function Column(hs: Headers, h: HeaderForDifficulty): int {
    if hs == [] then 0
    else
      var last := hs[|hs| - 1];
      Column(hs[..|hs| - 1], h) + (last.height - h.height) * (last.timestamp - h.timestamp)
  }

  /** Over all pairs of headers. */
  function PairSum(hs: Headers): int {
    if hs == [] then 0 else PairSum(hs[..|hs| - 1]) + Column(hs[..|hs| - 1], hs[|hs| - 1])
  }

  lemma ProductOfDifferences(a: int, b: int, c: int, d: int)
    ensures (a - c) * (b - d) == a * b - a * d - c * b + c * d
  {
  }

  lemma {:induction false} ColumnExpands(hs: Headers, h: HeaderForDifficulty)
    ensures Column(hs, h) == SumXY(hs) - SumX(hs) * h.timestamp - h.height * SumY(hs) + |hs| * (h.height * h.timestamp)
  {
    if hs != [] {
      var init, last := hs[..|hs| - 1], hs[|hs| - 1];
      ColumnExpands(init, h);
      ColumnStep(SumX(init), SumY(init), |init|, h.height, h.timestamp, last.height, last.timestamp);
    }
  }

  lemma ColumnStep(x: int, y: int, n: int, hx: int, hy: int, lx: int, ly: int)
    ensures (lx - hx) * (ly - hy) - x * hy - hx * y + n * (hx * hy)
         == lx * ly - (x + lx) * hy - hx * (y + ly) + (n + 1) * (hx * hy)
  {
    ProductOfDifferences(lx, ly, hx, hy);
    Distribute(x, lx, hy);
    Distribute(y, ly, hx);
    Distribute(n, 1, hx * hy);
  }

  lemma Distribute(a: int, b: int, c: int)
    ensures (a + b) * c == a * c + b * c
  {
  }

  /** The regression's numerator is the sum of the pairwise products of differences. */
  lemma {:induction false} NumeratorIsPairSum(hs: Headers)
    ensures Numerator(hs) == PairSum(hs)
  {
    if hs != [] {
      var init, h := hs[..|hs| - 1], hs[|hs| - 1];
      NumeratorIsPairSum(init);
      ColumnExpands(init, h);
      NumeratorStep(|init|, SumX(init), SumY(init), SumXY(init), h.height, h.timestamp);
    }
  }

  lemma NumeratorStep(n: int, x: int, y: int, xy: int, hx: int, hy: int)
    ensures (n + 1) * (xy + hx * hy) - (x + hx) * (y + hy)
         == (n * xy - x * y) + (xy - x * hy - hx * y + n * (hx * hy))
  {
    Distribute(n, 1, xy + hx * hy);
    Distribute(xy, hx * hy, n);
    ExpandProduct(x, hx, y, hy);
  }

  lemma ExpandProduct(a: int, b: int, c: int, d: int)
    ensures (a + b) * (c + d) == a * c + a * d + b * c + b * d
  {
  }

  /** The same headers with their height in place of the time. */
  function Diagonal(hs: Headers): Headers {
    if hs == [] then [] else Diagonal(hs[..|hs| - 1]) + [hs[|hs| - 1].(timestamp := hs[|hs| - 1].height)]
  }

  lemma {:induction false} DiagonalSums(hs: Headers)
    ensures |Diagonal(hs)| == |hs| && SumX(Diagonal(hs)) == SumY(Diagonal(hs)) == SumX(hs)
    ensures SumXY(Diagonal(hs)) == SumX2(hs)
    ensures forall i :: 0 <= i < |hs| ==>
      Diagonal(hs)[i].height == Diagonal(hs)[i].timestamp == hs[i].height
  {
    if hs != [] {
      DiagonalSums(hs[..|hs| - 1]);
    }
  }

  /** The denominator is the sum over all pairs of the squared difference of heights. */
  lemma DenominatorIsPairSum(hs: Headers)
    ensures Denominator(hs) == PairSum(Diagonal(hs))
  {
    DiagonalSums(hs);
    NumeratorIsPairSum(Diagonal(hs));
  }

  // ---------------------------------------------------------------- signs

  /** Later blocks are higher: the time strictly increases with the height. */
  ghost predicate TimeRises(hs: Headers) {
    forall i, j :: 0 <= i < |hs| && 0 <= j < |hs| && hs[i].height < hs[j].height ==> hs[i].timestamp < hs[j].timestamp
  }

  ghost predicate SameHeight(hs: Headers) {
    forall i, j :: 0 <= i < |hs| && 0 <= j < |hs| ==> hs[i].height == hs[j].height
  }

  ghost predicate RisesAgainst(hs: Headers, h: HeaderForDifficulty) {
    forall i :: 0 <= i < |hs| ==>
      && (hs[i].height < h.height ==> hs[i].timestamp < h.timestamp)
      && (hs[i].height > h.height ==> hs[i].timestamp > h.timestamp)
  }

  lemma DifferenceSign(a: int, b: int)
    requires (a < 0 ==> b < 0) && (a > 0 ==> b > 0)
    ensures a * b >= 0 && (a * b == 0 <==> a == 0)
  {
    if a < 0 { assert a * b == (-a) * (-b); }
  }

  lemma {:induction false} ColumnSign(hs: Headers, h: HeaderForDifficulty)
    requires RisesAgainst(hs, h)
    ensures Column(hs, h) >= 0 && (Column(hs, h) == 0 <==> forall i :: 0 <= i < |hs| ==> hs[i].height == h.height)
  {
    if hs != [] {
      var init, last := hs[..|hs| - 1], hs[|hs| - 1];
      ColumnSign(init, h);
      DifferenceSign(last.height - h.height, last.timestamp - h.timestamp);
      assert forall i :: 0 <= i < |init| ==> init[i] == hs[i];
    }
  }

  lemma {:induction false} PairSumSign(hs: Headers)
    requires TimeRises(hs)
    ensures PairSum(hs) >= 0 && (PairSum(hs) == 0 <==> SameHeight(hs))
  {
    if hs != [] {
      var init, h := hs[..|hs| - 1], hs[|hs| - 1];
      assert forall i :: 0 <= i < |init| ==> init[i] == hs[i];
      PairSumSign(init);
      ColumnSign(init, h);
      SameHeightNext(hs);
    }
  }

  lemma SameHeightNext(hs: Headers)
    requires hs != []
    ensures var init, h := hs[..|hs| - 1], hs[|hs| - 1];
      SameHeight(hs) <==> SameHeight(init) && forall i :: 0 <= i < |init| ==> init[i].height == h.height
  {
    var init := hs[..|hs| - 1];
    if SameHeight(hs) {
      forall i | 0 <= i < |init| ensures init[i].height == hs[|hs| - 1].height {
        assert hs[i] == init[i];
      }
      forall i, j | 0 <= i < |init| && 0 <= j < |init| ensures init[i].height == init[j].height {
        assert hs[i] == init[i] && hs[j] == init[j];
      }
    }
  }

  /** The guard against degenerate data fires exactly when all heights coincide. */
  lemma DegenerateIff(hs: Headers)
    ensures Denominator(hs) >= 0 && (Denominator(hs) == 0 <==> SameHeight(hs))
  {
    DenominatorIsPairSum(hs);
    DiagonalSums(hs);
    var ds := Diagonal(hs);
    PairSumSign(ds);
    if SameHeight(ds) {
      forall i, j | 0 <= i < |hs| && 0 <= j < |hs| ensures hs[i].height == hs[j].height {
        assert ds[i].height == ds[j].height;
      }
    }
  }

  /** When time strictly increases with height, the slope is positive. */
  lemma SlopePositive(hs: Headers)
    requires TimeRises(hs) && !SameHeight(hs)
    ensures Numerator(hs) > 0 && Denominator(hs) > 0
  {
    NumeratorIsPairSum(hs);
    PairSumSign(hs);
    DegenerateIff(hs);
  }

  // ---------------------------------------------------------------- exactness

  /** All points lie on the line with slope `p / q`. */
  ghost predicate Collinear(hs: Headers, p: int, q: int, c: int) {
    forall i :: 0 <= i < |hs| ==> q * hs[i].timestamp == p * hs[i].height + c
  }

  lemma {:induction false} CollinearColumn(hs: Headers, h: HeaderForDifficulty, p: int, q: int, c: int)
    requires Collinear(hs, p, q, c) && q * h.timestamp == p * h.height + c
    ensures q * Column(hs, h) == p * Column(Diagonal(hs), h.(timestamp := h.height))
  {
    if hs != [] {
      var init, last := hs[..|hs| - 1], hs[|hs| - 1];
      CollinearColumn(init, h, p, q, c);
      assert q * last.timestamp == p * last.height + c;
      ScaledDifference(last.height - h.height, last.timestamp - h.timestamp, p, q, last, h, c);
    }
  }

  lemma ScaledDifference(dx: int, dy: int, p: int, q: int, a: HeaderForDifficulty, b: HeaderForDifficulty, c: int)
    requires dx == a.height - b.height && dy == a.timestamp - b.timestamp
    requires q * a.timestamp == p * a.height + c && q * b.timestamp == p * b.height + c
    ensures q * (dx * dy) == p * (dx * dx)
  {
    assert q * dy == p * dx by {
      assert q * (a.timestamp - b.timestamp) == q * a.timestamp - q * b.timestamp;
      assert p * (a.height - b.height) == p * a.height - p * b.height;
    }
    assert q * (dx * dy) == dx * (q * dy) && p * (dx * dx) == dx * (p * dx);
  }

  lemma DiagonalNext(hs: Headers)
    requires hs != []
    ensures var init, h := hs[..|hs| - 1], hs[|hs| - 1];
      PairSum(Diagonal(hs)) == PairSum(Diagonal(init)) + Column(Diagonal(init), h.(timestamp := h.height))
  {
    var ds := Diagonal(hs);
    DiagonalSums(hs);
    assert ds[..|ds| - 1] == Diagonal(hs[..|hs| - 1]);
  }

  lemma ScaledSum(p: int, q: int, a: int, b: int, c: int, d: int)
    requires q * a == p * c && q * b == p * d
    ensures q * (a + b) == p * (c + d)
  {
  }

  lemma {:induction false} CollinearPairSum(hs: Headers, p: int, q: int, c: int)
    requires Collinear(hs, p, q, c)
    ensures q * PairSum(hs) == p * PairSum(Diagonal(hs))
  {
    if hs != [] {
      var init, h := hs[..|hs| - 1], hs[|hs| - 1];
      CollinearPairSum(init, p, q, c);
      CollinearColumn(init, h, p, q, c);
      DiagonalNext(hs);
      var ds, d := Diagonal(init), h.(timestamp := h.height);
      ScaledSum(p, q, PairSum(init), Column(init, h), PairSum(ds), Column(ds, d));
    }
  }

  /** On points of a line the regression finds that line's slope. */
  lemma ExactOnLines(hs: Headers, p: int, q: int, c: int)
    requires Collinear(hs, p, q, c)
    ensures q * Numerator(hs) == p * Denominator(hs)
  {
    NumeratorIsPairSum(hs);
    DenominatorIsPairSum(hs);
    CollinearPairSum(hs, p, q, c);
  }

  // ---------------------------------------------------------------- the clamped retarget

  /** Target interval over slope, between a half and two; a zero slope divides to infinity. */
  function Adjustment(interval: nat, slope: real): real {
    if slope == 0.0 then 2.0
    else
      var a := interval as real / slope;
      if a < 0.5 then 0.5 else if a > 2.0 then 2.0 else a
  }

  function Retarget(t: nat, clamped: real): nat
    requires 0.5 <= clamped <= 2.0
  {
    if clamped > 1.0 then
      var divisor := (clamped * 1000.0).Floor;
      assert divisor >= 1000;
      FloorDiv(t * 1000, divisor)
    else
      var multiplier := (1000.0 / clamped).Floor;
      assert multiplier >= 0 by { ReciprocalBounds(clamped); }
      FloorDiv(t * multiplier, 1000)
  }

  lemma ReciprocalBounds(c: real)
    requires 0.5 <= c <= 1.0
    ensures 1000.0 <= 1000.0 / c <= 2000.0 && (c == 1.0 ==> 1000.0 / c == 1000.0)
  {
    var r := 1000.0 / c;
    assert r * c == 1000.0;
    if r < 1000.0 { RealTimes(r, 1000.0, c); }
    if r > 2000.0 { RealTimes(2000.0, r, c); }
  }

  lemma RealTimes(a: real, b: real, c: real)
    requires a < b && c > 0.0
    ensures a * c < b * c
  {
  }

  lemma MulLe(a: nat, b: nat, c: nat)
    requires a <= b
    ensures a * c <= b * c && c * a <= c * b
  {
  }

  lemma FloorAtLeast(a: nat, d: nat, q: nat)
    requires d > 0 && q * d <= a
    ensures FloorDiv(a, d) >= q
  {
    var p := a / d;
    assert p * d <= a < p * d + d;
    if p < q { MulLe(p + 1, q, d); }
  }

  lemma FloorAtMost(a: nat, d: nat, q: nat)
    requires d > 0 && a <= q * d
    ensures FloorDiv(a, d) <= q
  {
    var p := a / d;
    assert p * d <= a < p * d + d;
    if p > q { MulLe(q + 1, p, d); }
  }

  lemma ScaledBounds(t: nat, num: nat, den: nat)
    requires 0 < den <= num <= 2 * den
    ensures t <= FloorDiv(t * num, den) <= 2 * t && (num == den ==> FloorDiv(t * num, den) == t)
  {
    MulLe(den, num, t);
    MulLe(num, 2 * den, t);
    assert t * (2 * den) == 2 * t * den;
    FloorAtLeast(t * num, den, t);
    FloorAtMost(t * num, den, 2 * t);
    if num == den { FloorAtMost(t * num, den, t); }
  }

  lemma DividedBounds(t: nat, num: nat, den: nat)
    requires 0 < num <= den <= 2 * num
    ensures t / 2 <= FloorDiv(t * num, den) <= t
  {
    MulLe(num, den, t);
    FloorAtMost(t * num, den, t);
    var h := t / 2;
    MulLe(den, 2 * num, h);
    MulLe(2 * h, t, num);
    assert h * (2 * num) == 2 * h * num;
    FloorAtLeast(t * num, den, h);
  }

  /** The new target lies between half of the old one and twice it, on the side the clamp says. */
  lemma RetargetBounds(t: nat, clamped: real)
    requires 0.5 <= clamped <= 2.0
    ensures t / 2 <= Retarget(t, clamped) <= 2 * t
    ensures clamped > 1.0 ==> Retarget(t, clamped) <= t
    ensures clamped <= 1.0 ==> Retarget(t, clamped) >= t
    ensures clamped == 1.0 ==> Retarget(t, clamped) == t
  {
    if clamped > 1.0 {
      var divisor := (clamped * 1000.0).Floor;
      assert 1000 <= divisor <= 2000;
      DividedBounds(t, 1000, divisor);
    } else {
      ReciprocalBounds(clamped);
      var multiplier := (1000.0 / clamped).Floor;
      assert 1000 <= multiplier <= 2000;
      ScaledBounds(t, multiplier, 1000);
    }
  }

  lemma TimesPositive(a: real, b: real)
    requires b > 0.0
    ensures a > 1.0 <==> a * b > b
    ensures a == 1.0 <==> a * b == b
  {
    assert a * b - b == (a - 1.0) * b;
    if a > 1.0 { assert (a - 1.0) * b > 0.0; }
    if a < 1.0 { assert (a - 1.0) * b < 0.0; }
  }

  lemma QuotientSide(x: real, y: real)
    requires y > 0.0
    ensures (x / y > 1.0 <==> y < x) && (x / y == 1.0 <==> x == y)
  {
    var a := x / y;
    assert a * y == x;
    TimesPositive(a, y);
  }

  lemma AdjustmentDirection(interval: nat, slope: real)
    requires interval > 0 && slope > 0.0
    ensures var c := Adjustment(interval, slope);
      && 0.5 <= c <= 2.0 && (c > 1.0 <==> slope < interval as real) && (c == 1.0 <==> slope == interval as real)
  {
    QuotientSide(interval as real, slope);
  }

  // ---------------------------------------------------------------- how far the target moves

  /** Above 1 the target is divided by the clamp in whole thousandths, up to 1 multiplied by its reciprocal. */
  lemma RetargetValue(t: nat, clamped: real)
    requires 0.5 <= clamped <= 2.0
    ensures var r := Retarget(t, clamped);
      if clamped > 1.0 then
        var k := (clamped * 1000.0).Floor;
        1000 <= k <= 2000 && r * k <= 1000 * t < (r + 1) * k
      else
        var m := (1000.0 / clamped).Floor;
        1000 <= m <= 2000 && 1000 * r <= t * m < 1000 * (r + 1)
  {
    if clamped > 1.0 {
      FloorDivBetween(t * 1000, (clamped * 1000.0).Floor);
    } else {
      ReciprocalBounds(clamped);
      FloorDivBetween(t * (1000.0 / clamped).Floor, 1000);
    }
  }

  lemma RealProduct(a: real, b: real, c: real)
    requires a <= b && c >= 0.0
    ensures a * c <= b * c
    ensures a < b && c > 0.0 ==> a * c < b * c
  {
  }

  /** Fast blocks: between the exact quotient less one and a thousandth part more. */
  lemma FasterMoves(t: real, r: real, k: real, a: real, s: real, i: real)
    requires t >= 0.0 && r >= 0.0 && a > 1.0 && s > 0.0 && a * s == i
    requires k <= 1000.0 * a < k + 1.0 && r * k <= 1000.0 * t < (r + 1.0) * k
    ensures 999.0 * r * i <= 1000.0 * t * s && t * s < (r + 1.0) * i
  {
    RealProduct(999.0 * a, k, r);
    assert 999.0 * a * r <= 1000.0 * t;
    RealProduct(999.0 * a * r, 1000.0 * t, s);
    assert 999.0 * a * r * s == 999.0 * r * (a * s);
    RealProduct(k, 1000.0 * a, r + 1.0);
    assert 1000.0 * t < (r + 1.0) * (1000.0 * a);
    assert (r + 1.0) * (1000.0 * a) == 1000.0 * ((r + 1.0) * a);
    RealProduct(t, (r + 1.0) * a, s);
    assert (r + 1.0) * a * s == (r + 1.0) * (a * s);
  }

  /** Slow blocks: at most the exact product, and less than a thousandth part and one below it. */
  lemma SlowerMoves(t: real, r: real, m: real, q: real, a: real, s: real, i: real)
    requires t >= 0.0 && r >= 0.0 && 0.0 < a && s > 0.0 && a * s == i && q * a == 1000.0
    requires m <= q < m + 1.0 && 1000.0 * r <= t * m < 1000.0 * (r + 1.0)
    ensures r * i <= t * s && 1000.0 * t * s < (1000.0 * (r + 1.0) + t) * i
  {
    RealProduct(m, q, t);
    assert t * m <= t * q;
    RealProduct(1000.0 * r, t * q, a);
    assert t * q * a == t * (q * a);
    RealProduct(r * a, t, s);
    assert r * a * s == r * (a * s);
    var above := 1000.0 * (r + 1.0) + t;
    RealProduct(q - 1.0, m, t);
    assert t * q < above by { assert t * (q - 1.0) == t * q - t && (q - 1.0) * t <= m * t; }
    RealProduct(t * q, above, a);
    assert 1000.0 * t < above * a;
    RealProduct(1000.0 * t, above * a, s);
    assert above * a * s == above * (a * s);
  }

  /**
   * What becomes of the target `t`. Blocks at least twice as fast as the interval halve it, blocks at least
   * twice as slow double it, and so do blocks whose times fall. In between it is `t * slope / interval`, but
   * for one unit and a thousandth part, to the side of the smaller change.
   */
  ghost predicate Retargeted(t: nat, slope: real, interval: nat, next: nat) {
    var i, was, moved := interval as real, t as real, next as real;
    && (0.0 <= 2.0 * slope <= i ==> next == t / 2)
    && (slope < 0.0 || slope >= 2.0 * i ==> next == 2 * t)
    && (i <= 2.0 * slope && slope < i ==>
          was * slope < (moved + 1.0) * i && 999.0 * moved * i <= 1000.0 * was * slope)
    && (i <= slope <= 2.0 * i ==>
          moved * i <= was * slope && 1000.0 * was * slope < (1000.0 * (moved + 1.0) + was) * i)
  }

  /** Where the clamp holds. */
  lemma AdjustmentClamps(interval: nat, slope: real)
    requires interval > 0
    ensures var c, i := Adjustment(interval, slope), interval as real;
      && 0.5 <= c <= 2.0
      && (0.0 <= 2.0 * slope <= i ==> c == 2.0)
      && (slope < 0.0 || slope >= 2.0 * i ==> c == 0.5)
      && (i <= 2.0 * slope && slope <= 2.0 * i ==> c * slope == i && (c > 1.0 <==> slope < i))
  {
    var i := interval as real;
    if slope != 0.0 {
      var a := i / slope;
      assert a * slope == i;
      if slope < 0.0 {
        if a >= 0.0 { RealProduct(0.0, a, -slope); }
      } else {
        QuotientAgainst(a, slope, i, 2.0);
        QuotientAgainst(a, slope, i, 1.0);
        QuotientAgainst(a, slope, i, 0.5);
      }
    }
  }

  lemma QuotientAgainst(a: real, s: real, i: real, b: real)
    requires s > 0.0 && a * s == i
    ensures (a > b <==> i > b * s) && (a < b <==> i < b * s)
  {
    var d := a - b;
    assert d * s == i - b * s;
    if d > 0.0 {
      assert d * s > 0.0;
    } else if d < 0.0 {
      assert d * s < 0.0;
    } else {
      assert d * s == 0.0;
    }
  }

  lemma HalvedAndDoubled(t: nat)
    ensures Retarget(t, 2.0) == t / 2 && Retarget(t, 0.5) == 2 * t
  {
    RetargetValue(t, 2.0);
    RetargetValue(t, 0.5);
    assert 1000.0 / 0.5 == 2000.0;
  }

  /** For every slope the new target is where `Retargeted` says. */
  lemma RetargetMoves(t: nat, interval: nat, slope: real)
    requires interval > 0
    ensures 0.5 <= Adjustment(interval, slope) <= 2.0
    ensures Retargeted(t, slope, interval, Retarget(t, Adjustment(interval, slope)))
  {
    hide Adjustment, Retarget;
    AdjustmentClamps(interval, slope);
    HalvedAndDoubled(t);
    var c, i := Adjustment(interval, slope), interval as real;
    if i <= 2.0 * slope && slope <= 2.0 * i {
      if slope < i { FasterRetarget(t, c, slope, i); } else { SlowerRetarget(t, c, slope, i); }
    }
  }

  lemma FasterRetarget(t: nat, c: real, slope: real, i: real)
    requires 1.0 < c <= 2.0 && slope > 0.0 && c * slope == i
    ensures var r := Retarget(t, c) as real;
      t as real * slope < (r + 1.0) * i && 999.0 * r * i <= 1000.0 * t as real * slope
  {
    RetargetValue(t, c);
    hide Retarget;
    var r, k := Retarget(t, c), (c * 1000.0).Floor;
    InReals(r, k, 1000, t);
    FasterMoves(t as real, r as real, k as real, c, slope, i);
  }

  lemma SlowerRetarget(t: nat, c: real, slope: real, i: real)
    requires 0.5 <= c <= 1.0 && slope > 0.0 && c * slope == i
    ensures var r := Retarget(t, c) as real;
      r * i <= t as real * slope && 1000.0 * t as real * slope < (1000.0 * (r + 1.0) + t as real) * i
  {
    RetargetValue(t, c);
    hide Retarget;
    var r, q := Retarget(t, c), 1000.0 / c;
    assert q * c == 1000.0;
    InReals(r, 1000, t, q.Floor);
    SlowerMoves(t as real, r as real, q.Floor as real, q, c, slope, i);
  }

  lemma InReals(r: nat, k: nat, a: nat, b: nat)
    requires r * k <= a * b < (r + 1) * k
    ensures r as real * k as real <= a as real * b as real < (r as real + 1.0) * k as real
  {
    assert (r * k) as real == r as real * k as real && (a * b) as real == a as real * b as real;
    assert ((r + 1) * k) as real == (r + 1) as real * k as real;
  }

  // ---------------------------------------------------------------- the calculation

  const MILLIS_PER_BLOCK: nat := 120_000
  const EPOCH_LENGTH: u32 := 1024

  function Slope(hs: Headers): real
    requires Denominator(hs) != 0
  {
    Numerator(hs) as real / Denominator(hs) as real
  }

  function NewTarget(hs: Headers, interval: nat): nat
    requires hs != [] && Denominator(hs) != 0
  {
    Retarget(NBitsToTarget(hs[|hs| - 1].nBits), Adjustment(interval, Slope(hs)))
  }

  function Regression(hs: Headers, interval: nat): Result<u32, DifficultyError> {
    if |hs| < 2 then Err(TooFewHeaders(|hs|))
    else if Denominator(hs) == 0 then Err(DegenerateData)
    else
      EncodingFits(NewTarget(hs, interval));
      Ok(TargetToNBits(NewTarget(hs, interval)))
  }

  function NextDifficulty(hs: Headers, nextHeight: u32): Result<u32, DifficultyError> {
    if nextHeight <= EPOCH_LENGTH then Ok(if hs == [] then GENESIS_NBITS else hs[0].nBits)
    else if nextHeight % EPOCH_LENGTH != 0 then (if hs == [] then Err(NoHeaders) else Ok(hs[|hs| - 1].nBits))
    else Regression(hs, MILLIS_PER_BLOCK)
  }

  /** Consecutive headers, each with the difficulty required after the ones before it. */
  ghost predicate Follows(hs: Headers) {
    forall i {:trigger hs[i].nBits} :: 0 < i < |hs| ==>
      hs[i].height == hs[0].height + i && NextDifficulty(hs[..i], hs[i].height) == Ok(hs[i].nBits)
  }

  /** Difficulty changes only at epoch boundaries after the first epoch. */
  lemma {:induction false} ConstantWithinEpoch(hs: Headers, i: nat, j: nat)
    requires Follows(hs) && i <= j < |hs|
    requires forall k :: i < k <= j ==> hs[k].height <= EPOCH_LENGTH || hs[k].height % EPOCH_LENGTH != 0
    ensures hs[j].nBits == hs[i].nBits
    decreases j
  {
    if i < j {
      assert NextDifficulty(hs[..j], hs[j].height) == Ok(hs[j].nBits);
      if hs[j].height <= EPOCH_LENGTH {
        assert hs[j].nBits == hs[0].nBits;
        if i > 0 {
          assert hs[i].nBits == hs[i].nBits && hs[i].height <= hs[j].height;
          assert NextDifficulty(hs[..i], hs[i].height) == Ok(hs[i].nBits);
        }
      } else {
        ConstantWithinEpoch(hs, i, j - 1);
      }
    }
  }

  /**
   * With time rising with height the new target never moves the wrong way: blocks faster than the
   * interval do not raise it, slower ones do not lower it, and it stays between half and twice.
   */
  lemma RetargetFollowsTheSlope(hs: Headers, interval: nat)
    requires TimeRises(hs) && !SameHeight(hs) && interval > 0
    ensures Denominator(hs) > 0 && hs != []
    ensures var t, next, slope := NBitsToTarget(hs[|hs| - 1].nBits), NewTarget(hs, interval), Slope(hs);
      && slope > 0.0 && t / 2 <= next <= 2 * t
      && (slope < interval as real ==> next <= t)
      && (slope > interval as real ==> next >= t)
      && (slope == interval as real ==> next == t)
  {
    SlopePositive(hs);
    PositiveQuotient(Numerator(hs) as real, Denominator(hs) as real);
    AdjustmentDirection(interval, Slope(hs));
    RetargetBounds(NBitsToTarget(hs[|hs| - 1].nBits), Adjustment(interval, Slope(hs)));
  }

  /**
   * The direction survives the compact encoding: what the new word decodes to is not above the old
   * target when blocks were fast, and not below it when they were slow.
   */
  lemma EncodedRetargetFollowsTheSlope(hs: Headers, interval: nat)
    requires TimeRises(hs) && !SameHeight(hs) && interval > 0 && hs != [] && Denominator(hs) != 0
    requires InRange(NewTarget(hs, interval)) && NBitsToTarget(hs[|hs| - 1].nBits) >= 0x1_0000
    ensures var t, r := NBitsToTarget(hs[|hs| - 1].nBits), Regression(hs, interval);
      && r.Ok?
      && (Slope(hs) < interval as real ==> NBitsToTarget(r.value) <= t)
      && (Slope(hs) > interval as real ==> NBitsToTarget(r.value) >= t)
      && (Slope(hs) == interval as real ==> NBitsToTarget(r.value) == t)
  {
    var n := hs[|hs| - 1].nBits;
    var t, next := NBitsToTarget(n), NewTarget(hs, interval);
    assert |hs| >= 2 by { if |hs| == 1 { assert SameHeight(hs); } }
    RetargetFollowsTheSlope(hs, interval);
    DecodedInRange(n);
    DecodedIsExact(n);
    if next <= t { RoundingMonotone(next, t); }
    if next >= t { RoundingMonotone(t, next); }
  }

  lemma PositiveQuotient(a: real, b: real)
    requires a > 0.0 && b > 0.0
    ensures a / b > 0.0
  {
  }

  /**
   * At an epoch boundary after the first epoch the last target is moved by the slope of the given headers
   * against two minutes per block, and encoded.
   */
  lemma EpochRetarget(hs: Headers, nextHeight: u32)
    requires |hs| >= 2 && !SameHeight(hs) && nextHeight > 1024 && nextHeight % 1024 == 0
    ensures Denominator(hs) > 0
    ensures var next := NewTarget(hs, 120_000);
      && TargetToNBits(next) < 0x1_0000_0000
      && NextDifficulty(hs, nextHeight) == Ok(TargetToNBits(next))
      && Retargeted(NBitsToTarget(hs[|hs| - 1].nBits), Slope(hs), 120_000, next)
  {
    DegenerateIff(hs);
    EncodingFits(NewTarget(hs, 120_000));
    RetargetMoves(NBitsToTarget(hs[|hs| - 1].nBits), 120_000, Slope(hs));
  }

  function TwoHeaders(time: nat): Headers {
    [HeaderForDifficulty(1, 0, 0x1d00ffff), HeaderForDifficulty(2, time, 0x1d00ffff)]
  }

  lemma TwoHeadersSlope(time: nat)
    ensures Denominator(TwoHeaders(time)) == 1 && Numerator(TwoHeaders(time)) == time
  {
    var hs := TwoHeaders(time);
    assert hs[..1] == [hs[0]] && hs[..1][..0] == [];
    assert SumX(hs[..1]) == SumX2(hs[..1]) == 1 && SumY(hs[..1]) == SumXY(hs[..1]) == 0;
  }

  lemma HalvedShift(m: nat, n: nat, k: nat)
    requires 2 * m == 256 * n
    ensures Shl(n, k + 1) == 2 * Shl(m, k)
  {
    ShlScale(n, k);
    ShlAdd(m, m, k);
  }

  lemma HalfAndDouble(t: nat)
    requires t == Shl(0xffff, 26)
    ensures t / 2 == Shl(0x7fff80, 25) && 2 * t == Shl(0x1fffe, 26)
  {
    HalvedShift(0x7fff80, 0xffff, 25);
    ShlAdd(0xffff, 0xffff, 26);
    hide Shl;
    assert t == 2 * Shl(0x7fff80, 25);
  }

  lemma KnownWords(t: nat)
    requires t == Shl(0xffff, 26)
    ensures TargetToNBits(Retarget(t, 2.0)) == 0x1c7fff80 && TargetToNBits(Retarget(t, 0.5)) == 0x1d01fffe
  {
    HalvedAndDoubled(t);
    HalfAndDouble(t);
    CanonicalReencoded(28, 0x7fff80);
    CanonicalReencoded(29, 0x1fffe);
    hide Shl, TargetToNBits, Retarget;
  }

  lemma KnownAdjustments()
    ensures Adjustment(120_000, 60_000.0) == 2.0 && Adjustment(120_000, 240_000.0) == 0.5
  {
  }

  lemma FirstWord()
    ensures NextDifficulty([], 1024) == Ok(0x1f00ffff) && NBitsToTarget(0x1d00ffff) == Shl(0xffff, 26)
  {
    hide Regression, Shl;
  }

  /** Blocks of one minute halve the target, blocks of four double it: what that is in compact form. */
  lemma KnownRetargets()
    ensures NextDifficulty(TwoHeaders(60_000), 2048) == Ok(0x1c7fff80)
    ensures NextDifficulty(TwoHeaders(240_000), 2048) == Ok(0x1d01fffe)
    ensures NextDifficulty([], 1024) == Ok(0x1f00ffff)
  {
    hide *;
    KnownAdjustments();
    FirstWord();
    KnownWords(NBitsToTarget(0x1d00ffff));
    KnownRegression(60_000, 2.0);
    KnownRegression(240_000, 0.5);
  }

  lemma KnownRegression(time: nat, clamp: real)
    requires Adjustment(120_000, time as real) == clamp
    ensures 0.5 <= clamp <= 2.0
    ensures var next := Retarget(NBitsToTarget(0x1d00ffff), clamp);
      TargetToNBits(next) < 0x1_0000_0000 && NextDifficulty(TwoHeaders(time), 2048) == Ok(TargetToNBits(next))
  {
    hide NBitsToTarget, Retarget, TargetToNBits;
    TwoHeadersSlope(time);
    EncodingFits(NewTarget(TwoHeaders(time), 120_000));
    assert Slope(TwoHeaders(time)) == time as real;
  }

  method LinearRegression(hs: Headers, interval: nat) returns (r: Result<u32, DifficultyError>)
    ensures r == Regression(hs, interval)
    ensures r.Ok? && interval > 0 ==>
      && Denominator(hs) != 0 && hs != [] && r.value == TargetToNBits(NewTarget(hs, interval))
      && Retargeted(NBitsToTarget(hs[|hs| - 1].nBits), Slope(hs), interval, NewTarget(hs, interval))
  {
    hide Retargeted;
    var n := |hs|;
    if n < 2 {
      return Err(TooFewHeaders(n));
    }
    var sumX, sumY, sumXY, sumX2 := 0, 0, 0, 0;
    for i := 0 to n
      invariant sumX == SumX(hs[..i]) && sumY == SumY(hs[..i]) && sumXY == SumXY(hs[..i]) && sumX2 == SumX2(hs[..i])
    {
      assert hs[..i + 1][..i] == hs[..i];
      var x: int, y: int := hs[i].height, hs[i].timestamp;
      sumX := sumX + x;
      sumY := sumY + y;
      sumXY := sumXY + x * y;
      sumX2 := sumX2 + x * x;
    }
    assert hs[..n] == hs;
    var denominator := n * sumX2 - sumX * sumX;
    if denominator == 0 {
      return Err(DegenerateData);
    }
    var slope := (n * sumXY - sumX * sumY) as real / denominator as real;
    var clamped := Adjustment(interval, slope);
    var target := NBitsToTarget(hs[n - 1].nBits);
    var newTarget := Retarget(target, clamped);
    EncodingFits(newTarget);
    if interval > 0 {
      RetargetMoves(target, interval, slope);
    }
    return Ok(TargetToNBits(newTarget));
  }
}
