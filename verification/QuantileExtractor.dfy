/** The quantile read-out: it inverts the piecewise-linear density that the bins stand for. */
module QuantileExtractor {
  import opened Wrappers
  import opened MathUtils
  import opened Histogram

  datatype QuantileError = OutOfBounds | Thrown(error: MathError)

  /** The height of the density over the bin `k`; it falls to zero one place before the first bin
      and one place after the last. */
  function CountAt(h: seq<Bin>, k: int): real {
    if 0 <= k < |h| then h[k].count else 0.0
  }

  /** The area of the trapezoid between the places `k` and `k + 1`. */
  function Volume(h: seq<Bin>, k: int): real {
    (CountAt(h, k) + CountAt(h, k + 1)) / 2.0
  }

  /** The scan for the trapezoid that holds the required area, and what it requires of it. */
  function Scan(h: seq<Bin>, k: int, required: real): (r: (int, real))
    requires k <= |h|
    ensures k <= r.0 <= |h|
    ensures r.0 < |h| ==> Volume(h, r.0) > r.1
    decreases |h| - k
  {
    if k == |h| || Volume(h, k) > required then (k, required)
    else Scan(h, k + 1, required - Volume(h, k))
  }

  /** The first root in the unit interval. */
  function FindZ(roots: seq<real>): Result<real, MathError> {
    if roots == [] then Err(NoRoot)
    else if 0.0 <= roots[0] <= 1.0 then Ok(roots[0])
    else FindZ(roots[1..])
  }

  function SolveArea(left: real, right: real, required: real, sqrt: real -> real): Result<real, MathError> {
    FindZ(SolveQuadratic(right - left, 2.0 * left, -2.0 * required, sqrt))
  }

  /** The centers at the two ends of the trapezoid `k`; outside the bins they mirror the weighted
      average of the two outermost. */
  function Ends(h: seq<Bin>, k: int): Result<(real, real), MathError>
    requires -1 <= k < |h| && |h| >= 2
  {
    if k == -1 then
      match WeightedAverage(h[0].center, h[0].count, h[1].center, h[1].count)
      case Ok(w) => Ok((2.0 * h[0].center - w, h[0].center))
      case Err(e) => Err(e)
    else if k + 1 < |h| then Ok((h[k].center, h[k + 1].center))
    else
      match WeightedAverage(h[k - 1].center, h[k - 1].count, h[k].center, h[k].count)
      case Ok(w) => Ok((h[k].center, 2.0 * h[k].center - w))
      case Err(e) => Err(e)
  }

  function Between(l: real, r: real, z: real): real { l + (r - l) * z }

  function Portion(total: real, p: real): real { total * p }

  /** The point of the trapezoid `k` that has the required area to its left. */
  function Interpolate(h: seq<Bin>, k: int, required: real, sqrt: real -> real): Result<real, QuantileError>
    requires -1 <= k <= |h| && |h| >= 2
  {
    if k == |h| then Err(OutOfBounds)
    else
      match Ends(h, k)
      case Err(e) => Err(Thrown(e))
      case Ok(ends) =>
        match SolveArea(CountAt(h, k), CountAt(h, k + 1), required, sqrt)
        case Err(e) => Err(Thrown(e))
        case Ok(z) => Ok(Between(ends.0, ends.1, z))
  }

  /** `quantile_extractor::at`. */
  function At(h: seq<Bin>, p: real, sqrt: real -> real): Result<real, QuantileError> {
    if h == [] || Cmp(Mass(h), 0.0) <= 0 then Ok(0.0)
    else if |h| == 1 then Ok(h[0].center)
    else
      var (k, r) := Scan(h, -1, Portion(Mass(h), p));
      Interpolate(h, k, r, sqrt)
  }

  method TotalCount(h: seq<Bin>) returns (total: real)
    ensures total == Mass(h)
  {
    total := 0.0;
    for i := 0 to |h|
      invariant total == Mass(h[..i])
    {
      assert h[..i + 1][..i] == h[..i];
      total := total + h[i].count;
    }
    assert h[..|h|] == h;
  }

  /** The loops of the original. */
  method QuantileAt(h: seq<Bin>, p: real, sqrt: real -> real) returns (r: Result<real, QuantileError>)
    ensures r == At(h, p, sqrt)
  {
    if |h| == 0 {
      return Ok(0.0);
    }
    var movingCount := TotalCount(h);
    if Cmp(movingCount, 0.0) <= 0 {
      return Ok(0.0);
    }
    if |h| == 1 {
      return Ok(h[0].center);
    }
    var required := Portion(movingCount, p);
    ghost var start := required;
    var index := -1;
    while index < |h|
      invariant -1 <= index <= |h|
      invariant Scan(h, -1, start) == Scan(h, index, required)
    {
      var volume := Volume(h, index);
      if Cmp(volume, required) > 0 {
        break;
      }
      required := required - volume;
      index := index + 1;
    }
    assert Scan(h, -1, start) == (index, required);
    r := Interpolate(h, index, required, sqrt);
  }

  // ---- The scan -------------------------------------------------------------------------------

  /** The area to the left of the place `k`. */
  function Before(h: seq<Bin>, k: int): real
    requires -1 <= k <= |h|
    decreases k + 1
  {
    if k == -1 then 0.0 else Before(h, k - 1) + Volume(h, k - 1)
  }

  /** The trapezoids telescope: up to the middle of a bin they add up to the bins before it and half
      of its own count, and all of them to the total. */
  lemma {:induction false} BeforeTelescopes(h: seq<Bin>, k: int)
    requires 0 <= k <= |h|
    ensures Before(h, k) == Mass(h[..k]) + CountAt(h, k) / 2.0
    ensures Before(h, |h|) == Mass(h) || k < |h|
  {
    if k == 0 {
      assert Before(h, -1) == 0.0;
    } else {
      BeforeTelescopes(h, k - 1);
      assert h[..k] == h[..k - 1] + [h[k - 1]];
      SumsSnoc(h[..k - 1], h[k - 1]);
      assert h[..|h|] == h;
    }
  }

  /** A requirement below the total is met by some trapezoid. */
  lemma {:induction false} ScanStops(h: seq<Bin>, k: int, required: real)
    requires -1 <= k <= |h| && NonNegative(h)
    requires 0.0 <= required && Before(h, k) + required < Mass(h)
    ensures var (k', r) := Scan(h, k, required);
            && k <= k' < |h|
            && 0.0 <= r < Volume(h, k')
            && Before(h, k') + r == Before(h, k) + required
    decreases |h| - k
  {
    if k == |h| {
      BeforeTelescopes(h, |h|);
    } else if Volume(h, k) <= required {
      ScanStops(h, k + 1, required - Volume(h, k));
    }
  }

  /** A requirement of the total or more runs off the end. */
  lemma {:induction false} ScanRunsOff(h: seq<Bin>, k: int, required: real)
    requires -1 <= k <= |h| && NonNegative(h)
    requires Mass(h) <= Before(h, k) + required
    ensures Scan(h, k, required).0 == |h|
    decreases |h| - k
  {
    if k < |h| {
      RestOfMass(h, k + 1);
      ScanRunsOff(h, k + 1, required - Volume(h, k));
    }
  }

  lemma {:induction false} RestOfMass(h: seq<Bin>, k: int)
    requires -1 <= k <= |h| && NonNegative(h)
    ensures Before(h, k) <= Mass(h)
    decreases |h| - k
  {
    if k == |h| {
      BeforeTelescopes(h, |h|);
    } else {
      RestOfMass(h, k + 1);
    }
  }

  lemma {:induction false} ScanMonotone(h: seq<Bin>, k: int, r1: real, r2: real)
    requires -1 <= k <= |h| && r1 <= r2
    ensures var (k1, s1) := Scan(h, k, r1);
            var (k2, s2) := Scan(h, k, r2);
            k1 <= k2 && (k1 == k2 ==> s1 <= s2)
    decreases |h| - k
  {
    if k < |h| && Volume(h, k) <= r1 {
      ScanMonotone(h, k + 1, r1 - Volume(h, k), r2 - Volume(h, k));
    }
  }

  // ---- The quadratic --------------------------------------------------------------------------

  /** The area left of the fraction `z` of a trapezoid of unit width. */
  function AreaUpTo(left: real, right: real, z: real): real {
    left * z + (right - left) * z * z / 2.0
  }

  lemma SquareLe(x: real, y: real)
    requires 0.0 <= y && x * x <= y * y
    ensures x <= y
  {
    if x + y > 0.0 {
      assert x * (x + y) <= y * (x + y);
      CancelLe(x, y, x + y);
    }
  }

  lemma SquareLt(x: real, y: real)
    requires 0.0 <= y && 0.0 <= x && x * x < y * y
    ensures x < y
  {
  }

  /** The root with the positive square root solves the equation of the area. */
  lemma UpperRoot(left: real, right: real, required: real, s: real)
    requires left != right
    requires s * s == 4.0 * left * left + 8.0 * (right - left) * required
    ensures AreaUpTo(left, right, (s - 2.0 * left) / 2.0 / (right - left)) == required
  {
    var a := right - left;
    var z := (s - 2.0 * left) / 2.0 / a;
    var y := z * a;
    assert y == (s - 2.0 * left) / 2.0;
    assert (y + left) * (y + left) == left * left + 2.0 * a * required by {
      assert y + left == s / 2.0;
      assert (s / 2.0) * (s / 2.0) == s * s / 4.0;
    }
    assert y * y + 2.0 * left * y == 2.0 * a * required;
    assert a * (z * y + 2.0 * left * z) == a * (2.0 * required);
    assert z * y + 2.0 * left * z == 2.0 * required;
    assert (right - left) * z * z == z * y;
  }

  /** For a growing density: the square root is between the two bounds that put the upper root into
      the unit interval, and the lower root is negative. */
  lemma GrowingRoots(left: real, right: real, required: real, s: real)
    requires 0.0 <= left < right && 0.0 <= required < (left + right) / 2.0 && 0.0 < s
    requires s * s == 4.0 * left * left + 8.0 * (right - left) * required
    ensures 0.0 <= (s - 2.0 * left) / 2.0 / (right - left) <= 1.0
    ensures (-s - 2.0 * left) / 2.0 / (right - left) < 0.0
  {
    var a := right - left;
    assert a * required >= 0.0;
    assert (2.0 * left) * (2.0 * left) <= s * s;
    SquareLe(2.0 * left, s);
    assert a * required <= a * ((left + right) / 2.0);
    assert a * (left + right) == right * right - left * left;
    assert s * s <= (2.0 * right) * (2.0 * right);
    SquareLe(s, 2.0 * right);
    DivideBetween((s - 2.0 * left) / 2.0, a, 0.0, 1.0);
    var z := (-s - 2.0 * left) / 2.0 / a;
    assert z * a < 0.0;
  }

  lemma FallingRange(left: real, right: real, required: real, s: real)
    requires 0.0 <= right < left && 0.0 <= required < (left + right) / 2.0 && 0.0 <= s
    requires s * s == 4.0 * left * left + 8.0 * (right - left) * required
    ensures 2.0 * right < s <= 2.0 * left
  {
    var a := left - right;
    assert a * required >= 0.0;
    assert s * s <= (2.0 * left) * (2.0 * left);
    SquareLe(s, 2.0 * left);
    assert a * required < a * ((left + right) / 2.0);
    assert a * (left + right) == left * left - right * right;
    assert (2.0 * right) * (2.0 * right) < s * s;
    SquareLt(2.0 * right, s);
  }

  /** For a falling density: the lower root in the list is beyond one, the other in the unit
      interval. */
  lemma FallingRoots(left: real, right: real, required: real, s: real)
    requires 0.0 <= right < left && 0.0 <= required < (left + right) / 2.0 && 0.0 <= s
    requires s * s == 4.0 * left * left + 8.0 * (right - left) * required
    ensures 0.0 <= (s - 2.0 * left) / 2.0 / (right - left) <= 1.0
    ensures (-s - 2.0 * left) / 2.0 / (right - left) > 1.0
  {
    var a := left - right;
    FallingRange(left, right, required, s);
    DivideBetween((2.0 * left - s) / 2.0, a, 0.0, 1.0);
    NegDivide((2.0 * left - s) / 2.0, a);
    NegDivide((s + 2.0 * left) / 2.0, a);
    BeyondOne((s + 2.0 * left) / 2.0, a);
  }

  lemma NegDivide(x: real, a: real)
    requires a != 0.0
    ensures -x / -a == x / a
  {
  }

  lemma BeyondOne(x: real, a: real)
    requires 0.0 < a < x
    ensures x / a > 1.0
  {
    assert x / a * a == x;
  }

  /** The equation of the area always has a root in the unit interval, and the root that is found
      leaves exactly the required area on its left. */
  lemma SolveAreaOk(left: real, right: real, required: real, sqrt: real -> real)
    requires IsSqrt(sqrt) && 0.0 <= left && 0.0 <= right && 0.0 <= required < (left + right) / 2.0
    ensures var z := SolveArea(left, right, required, sqrt);
            && z.Ok? && 0.0 <= z.value <= 1.0
            && AreaUpTo(left, right, z.value) == required
  {
    if left == right {
      DivideBetween(required, left, 0.0, 1.0);
      FlatRoot(left, required, sqrt);
    } else {
      SlopedRoots(left, right, required, sqrt);
    }
  }

  lemma FlatRoot(left: real, required: real, sqrt: real -> real)
    requires 0.0 < left && 0.0 <= required / left <= 1.0
    ensures SolveArea(left, left, required, sqrt) == Ok(required / left)
    ensures AreaUpTo(left, left, required / left) == required
  {
    var z := 2.0 * required / (2.0 * left);
    assert z == required / left;
    assert SolveQuadratic(0.0, 2.0 * left, -2.0 * required, sqrt) == [z];
  }

  lemma SqrtPositive(d: real, sqrt: real -> real)
    requires IsSqrt(sqrt) && d > 0.0
    ensures sqrt(d) * sqrt(d) == d && sqrt(d) > 0.0
  {
    assert 0.0 * 0.0 == 0.0;
  }

  lemma NoAreaAtZero(left: real, right: real)
    ensures AreaUpTo(left, right, 0.0) == 0.0
  {
  }

  lemma SlopedRoots(left: real, right: real, required: real, sqrt: real -> real)
    requires IsSqrt(sqrt) && 0.0 <= left && 0.0 <= right && left != right
    requires 0.0 <= required < (left + right) / 2.0
    ensures var z := SolveArea(left, right, required, sqrt);
            && z.Ok? && 0.0 <= z.value <= 1.0
            && AreaUpTo(left, right, z.value) == required
  {
    hide IsSqrt, AreaUpTo;
    var a, b, c := right - left, 2.0 * left, -2.0 * required;
    var d := b * b - 4.0 * a * c;
    Discriminant(left, right, required);
    assert d == 4.0 * left * left + 8.0 * (right - left) * required;
    if d == 0.0 {
      assert required == 0.0;
      assert SolveQuadratic(a, b, c, sqrt) == [0.0];
      NoAreaAtZero(left, right);
    } else {
      var s := sqrt(d);
      SqrtPositive(d, sqrt);
      assert SolveQuadratic(a, b, c, sqrt) == [(-s - b) / 2.0 / a, (s - b) / 2.0 / a];
      TwoRoots(left, right, required, s);
    }
  }

  lemma TwoRoots(left: real, right: real, required: real, s: real)
    requires 0.0 <= left && 0.0 <= right && left != right && 0.0 <= required < (left + right) / 2.0
    requires 0.0 < s && s * s == 4.0 * left * left + 8.0 * (right - left) * required
    ensures var a, b := right - left, 2.0 * left;
            var z := FindZ([(-s - b) / 2.0 / a, (s - b) / 2.0 / a]);
            && z.Ok? && 0.0 <= z.value <= 1.0
            && AreaUpTo(left, right, z.value) == required
  {
    UpperRoot(left, right, required, s);
    if left < right {
      GrowingRoots(left, right, required, s);
    } else {
      FallingRoots(left, right, required, s);
    }
    SecondRoot((-s - 2.0 * left) / 2.0 / (right - left), (s - 2.0 * left) / 2.0 / (right - left));
  }

  lemma SecondRoot(first: real, z: real)
    requires !(0.0 <= first <= 1.0) && 0.0 <= z <= 1.0
    ensures FindZ([first, z]) == Ok(z)
  {
    assert [first, z][1..] == [z];
  }

  /** The discriminant is not negative, and zero only at the foot of a growing density. */
  lemma Discriminant(left: real, right: real, required: real)
    requires 0.0 <= left && 0.0 <= right && left != right
    requires 0.0 <= required < (left + right) / 2.0
    ensures var d := 4.0 * left * left + 8.0 * (right - left) * required;
            d >= 0.0 && (d == 0.0 ==> left == 0.0 && (right - left) * required == 0.0)
  {
    var u, v := left * left, (right - left) * required;
    assert 4.0 * left * left == 4.0 * u;
    assert 8.0 * (right - left) * required == 8.0 * v;
    if left < right {
      ProductSign(left, left);
      ProductSign(right - left, required);
    } else {
      var w := (left - right) * ((left + right) / 2.0);
      assert -v < w;
      assert 2.0 * w == u - right * right;
      ProductSign(right, right);
    }
  }

  lemma ProductSign(x: real, y: real)
    requires x >= 0.0 && y >= 0.0
    ensures x * y >= 0.0
    ensures x * y == 0.0 ==> x == 0.0 || y == 0.0
  {
  }

  // ---- The quantile ---------------------------------------------------------------------------

  /** Where a quantile lies: the fraction `z` of the trapezoid `k`. */
  datatype Place = Place(k: int, z: real)

  /** The area of the density to the left of a place, by adding up trapezoids. */
  function AreaLeftOf(h: seq<Bin>, at: Place): real
    requires -1 <= at.k < |h|
  {
    Before(h, at.k) + AreaUpTo(CountAt(h, at.k), CountAt(h, at.k + 1), at.z)
  }

  function PointAt(h: seq<Bin>, at: Place): real
    requires |h| >= 2 && -1 <= at.k < |h| && Ends(h, at.k).Ok?
  {
    Between(Ends(h, at.k).value.0, Ends(h, at.k).value.1, at.z)
  }

  ghost predicate Readable(h: seq<Bin>) {
    HistogramOk(h) && |h| >= 2 && Mass(h) > 0.0
  }

  /** The mirrored ends exist where the scan stops, and enclose the outermost bins. */
  lemma EndsOk(h: seq<Bin>, k: int)
    requires Readable(h) && -1 <= k < |h| && Volume(h, k) > 0.0
    ensures Ends(h, k).Ok?
    ensures Ends(h, k).value.0 <= Ends(h, k).value.1
    ensures 0 <= k ==> Ends(h, k).value.0 == h[k].center
    ensures k + 1 < |h| ==> Ends(h, k).value.1 == h[k + 1].center
  {
    if k == -1 {
      WeightedAverageBetween(h[0].center, h[0].count, h[1].center, h[1].count);
    } else if k + 1 == |h| {
      WeightedAverageBetween(h[k - 1].center, h[k - 1].count, h[k].center, h[k].count);
    }
  }

  lemma PortionOk(total: real, p: real)
    requires total > 0.0 && 0.0 <= p < 1.0
    ensures 0.0 <= Portion(total, p) < total
  {
  }

  /** The fraction of the trapezoid `k` with the area `r` to its left. */
  lemma FractionIn(h: seq<Bin>, k: int, r: real, sqrt: real -> real) returns (z: real)
    requires Readable(h) && IsSqrt(sqrt) && -1 <= k < |h| && 0.0 <= r < Volume(h, k)
    ensures 0.0 <= z <= 1.0
    ensures SolveArea(CountAt(h, k), CountAt(h, k + 1), r, sqrt) == Ok(z)
    ensures AreaLeftOf(h, Place(k, z)) == Before(h, k) + r
  {
    var left, right := CountAt(h, k), CountAt(h, k + 1);
    SolveAreaOk(left, right, r, sqrt);
    z := SolveArea(left, right, r, sqrt).value;
  }

  lemma InterpolateIs(h: seq<Bin>, k: int, r: real, z: real, sqrt: real -> real)
    requires |h| >= 2 && -1 <= k < |h| && Ends(h, k).Ok?
    requires SolveArea(CountAt(h, k), CountAt(h, k + 1), r, sqrt) == Ok(z)
    ensures Interpolate(h, k, r, sqrt) == Ok(PointAt(h, Place(k, z)))
  {
  }

  /** For every sound histogram with something in it and every probability from zero up to but not
      including one: nothing is thrown, and the quantile is a point with exactly that fraction of
      the whole area to its left. */
  lemma {:induction false} QuantileSplitsArea(h: seq<Bin>, p: real, sqrt: real -> real) returns (at: Place)
    requires Readable(h) && IsSqrt(sqrt) && 0.0 <= p < 1.0
    ensures -1 <= at.k < |h| && 0.0 <= at.z <= 1.0 && Ends(h, at.k).Ok?
    ensures At(h, p, sqrt) == Ok(PointAt(h, at))
    ensures AreaLeftOf(h, at) == Portion(Mass(h), p)
  {
    PortionOk(Mass(h), p);
    ScanFrom(h, Portion(Mass(h), p));
    var (k, r) := Scan(h, -1, Portion(Mass(h), p));
    EndsOk(h, k);
    var z := FractionIn(h, k, r, sqrt);
    InterpolateIs(h, k, r, z, sqrt);
    at := Place(k, z);
  }

  /** Without bins, or with nothing in them, zero is read; from a single bin that holds something, its
      center. */
  lemma {:induction false} FewBins(h: seq<Bin>, p: real, sqrt: real -> real)
    ensures h == [] || Mass(h) <= 0.0 ==> At(h, p, sqrt) == Ok(0.0)
    ensures |h| == 1 && h[0].count > 0.0 ==> At(h, p, sqrt) == Ok(h[0].center)
  {
    if |h| == 1 {
      SumsSnoc([], h[0]);
      assert [] + [h[0]] == h;
    }
  }

  /** `w` is the weighted average of the two bins: its moment is theirs. */
  ghost predicate IsAverageOf(w: real, a: Bin, b: Bin) {
    a.count + b.count > 0.0 && w * (a.count + b.count) == a.center * a.count + b.center * b.count
  }

  /** `l` and `r` are the two ends of the trapezoid `k`: the centers of the bins there. Outside the
      bins, the outermost bin lies midway between such an end and the average `w` of the two
      outermost. */
  ghost predicate AreEnds(h: seq<Bin>, k: int, l: real, r: real, w: real)
    requires |h| >= 2 && -1 <= k < |h|
  {
    && (0 <= k ==> l == h[k].center)
    && (k + 1 < |h| ==> r == h[k + 1].center)
    && (k == -1 ==> IsAverageOf(w, h[0], h[1]) && h[0].center - l == w - h[0].center)
    && (k + 1 == |h| ==> IsAverageOf(w, h[k - 1], h[k]) && r - h[k].center == h[k].center - w)
  }

  lemma EndsAreEnds(h: seq<Bin>, k: int) returns (w: real)
    requires Readable(h) && -1 <= k < |h| && Volume(h, k) > 0.0
    ensures Ends(h, k).Ok? && AreEnds(h, k, Ends(h, k).value.0, Ends(h, k).value.1, w)
  {
    w := 0.0;
    if k == -1 {
      WeightedAverageBetween(h[0].center, h[0].count, h[1].center, h[1].count);
      w := WeightedAverage(h[0].center, h[0].count, h[1].center, h[1].count).value;
    } else if k + 1 == |h| {
      WeightedAverageBetween(h[k - 1].center, h[k - 1].count, h[k].center, h[k].count);
      w := WeightedAverage(h[k - 1].center, h[k - 1].count, h[k].center, h[k].count).value;
    }
  }

  lemma InNumbers(h: seq<Bin>, k: int, z: real, l: real, r: real, p: real)
    requires -1 <= k < |h|
    ensures Between(l, r, z) - l == z * (r - l)
    ensures Portion(Mass(h), p) == p * Mass(h)
    ensures AreaLeftOf(h, Place(k, z))
            == Before(h, k) + (CountAt(h, k) * z + (CountAt(h, k + 1) - CountAt(h, k)) * z * z / 2.0)
  {
    hide Before, CountAt, Mass;
  }

  /** The quantile itself: the point at the fraction `z` of the way from `l` to `r`, where that
      fraction of that trapezoid, with all trapezoids before it, makes up exactly `p` of the whole. */
  lemma {:induction false} QuantileIs(h: seq<Bin>, p: real, sqrt: real -> real)
    returns (k: int, z: real, l: real, r: real, w: real)
    requires Readable(h) && IsSqrt(sqrt) && 0.0 <= p < 1.0
    ensures -1 <= k < |h| && 0.0 <= z <= 1.0 && AreEnds(h, k, l, r, w)
    ensures At(h, p, sqrt).Ok? && At(h, p, sqrt).value - l == z * (r - l)
    ensures Before(h, k) + (CountAt(h, k) * z + (CountAt(h, k + 1) - CountAt(h, k)) * z * z / 2.0) == p * Mass(h)
  {
    hide At, Before, AreEnds, AreaLeftOf, AreaUpTo, Between, Portion, CountAt, Mass, Ends, SolveArea;
    PortionOk(Mass(h), p);
    ScanFrom(h, Portion(Mass(h), p));
    var (k', q) := Scan(h, -1, Portion(Mass(h), p));
    k := k';
    w := EndsAreEnds(h, k);
    z := FractionIn(h, k, q, sqrt);
    InterpolateIs(h, k, q, z, sqrt);
    l, r := Ends(h, k).value.0, Ends(h, k).value.1;
    AtInterpolates(h, p, sqrt);
    InNumbers(h, k, z, l, r, p);
  }

  lemma AtInterpolates(h: seq<Bin>, p: real, sqrt: real -> real)
    requires Readable(h)
    ensures var (k, q) := Scan(h, -1, Portion(Mass(h), p)); At(h, p, sqrt) == Interpolate(h, k, q, sqrt)
  {
  }

  lemma ScanFrom(h: seq<Bin>, required: real)
    requires Readable(h) && 0.0 <= required < Mass(h)
    ensures var (k, r) := Scan(h, -1, required);
            -1 <= k < |h| && 0.0 <= r < Volume(h, k) && Before(h, k) + r == required
  {
    assert Before(h, -1) == 0.0;
    ScanStops(h, -1, required);
  }

  /** From one on, the scan leaves the histogram: the original then reads past its end. */
  lemma AtOneOutOfBounds(h: seq<Bin>, p: real, sqrt: real -> real)
    requires Readable(h) && 1.0 <= p
    ensures At(h, p, sqrt) == Err(OutOfBounds)
  {
    assert Portion(Mass(h), p) >= Mass(h);
    assert Before(h, -1) == 0.0;
    ScanRunsOff(h, -1, Portion(Mass(h), p));
  }

  lemma NegativeHasNoRoot(right: real, required: real, sqrt: real -> real)
    requires 0.0 <= right && required < 0.0
    ensures SolveArea(0.0, right, required, sqrt).Err?
  {
    if right > 0.0 {
      assert right * required < 0.0;
      assert 0.0 - 4.0 * right * (-2.0 * required) == 8.0 * (right * required);
    }
  }

  lemma BelowZeroThrows(h: seq<Bin>, p: real, sqrt: real -> real)
    requires Readable(h) && p < 0.0
    ensures At(h, p, sqrt).Err?
  {
    assert Portion(Mass(h), p) < 0.0;
    NegativeHasNoRoot(CountAt(h, 0), Portion(Mass(h), p), sqrt);
  }

  /** A quantile can be read exactly for the probabilities from zero up to but not including one. */
  lemma QuantileDefinedIff(h: seq<Bin>, p: real, sqrt: real -> real)
    requires Readable(h) && IsSqrt(sqrt)
    ensures At(h, p, sqrt).Ok? <==> 0.0 <= p < 1.0
  {
    if 0.0 <= p < 1.0 {
      var at := QuantileSplitsArea(h, p, sqrt);
    } else if p < 0.0 {
      BelowZeroThrows(h, p, sqrt);
    } else {
      AtOneOutOfBounds(h, p, sqrt);
    }
  }

  // ---- Monotonicity ---------------------------------------------------------------------------

  /** Within one trapezoid more area means a point further right, or the same area. */
  lemma AreaOrder(left: real, right: real, z1: real, z2: real)
    requires 0.0 <= left && 0.0 <= right && 0.0 <= z2 < z1 <= 1.0
    ensures AreaUpTo(left, right, z2) <= AreaUpTo(left, right, z1)
  {
    var m := (z1 + z2) / 2.0;
    var height := left * (1.0 - m) + right * m;
    ProductSign(left, 1.0 - m);
    ProductSign(right, m);
    ProductSign(z1 - z2, height);
    assert AreaUpTo(left, right, z1) - AreaUpTo(left, right, z2) == (z1 - z2) * height by {
      var a := right - left;
      assert height == left + a * m;
      assert (z1 - z2) * (a * m) == a * (z1 * z1 - z2 * z2) / 2.0;
    }
  }

  lemma FractionOrder(h: seq<Bin>, k: int, r1: real, r2: real, z1: real, z2: real, sqrt: real -> real)
    requires Readable(h) && IsSqrt(sqrt) && -1 <= k < |h| && 0.0 <= r1 <= r2 < Volume(h, k)
    requires SolveArea(CountAt(h, k), CountAt(h, k + 1), r1, sqrt) == Ok(z1)
    requires SolveArea(CountAt(h, k), CountAt(h, k + 1), r2, sqrt) == Ok(z2)
    ensures z1 <= z2
  {
    var left, right := CountAt(h, k), CountAt(h, k + 1);
    SolveAreaOk(left, right, r1, sqrt);
    SolveAreaOk(left, right, r2, sqrt);
    if z2 < z1 {
      AreaOrder(left, right, z1, z2);
    }
  }

  lemma BetweenOrder(l: real, r: real, z1: real, z2: real)
    requires l <= r && 0.0 <= z1 <= z2 <= 1.0
    ensures l <= Between(l, r, z1) <= Between(l, r, z2) <= r
  {
    ProductSign(r - l, z1);
    ProductSign(r - l, z2 - z1);
    ProductSign(r - l, 1.0 - z2);
    assert (r - l) * z2 == (r - l) * z1 + (r - l) * (z2 - z1);
    assert r - l == (r - l) * z2 + (r - l) * (1.0 - z2);
  }

  lemma PlacesOrder(h: seq<Bin>, k1: int, z1: real, k2: int, z2: real)
    requires Readable(h) && -1 <= k1 <= k2 < |h| && Volume(h, k1) > 0.0 && Volume(h, k2) > 0.0
    requires 0.0 <= z1 <= 1.0 && 0.0 <= z2 <= 1.0 && (k1 == k2 ==> z1 <= z2)
    ensures Ends(h, k1).Ok? && Ends(h, k2).Ok?
    ensures PointAt(h, Place(k1, z1)) <= PointAt(h, Place(k2, z2))
  {
    EndsOk(h, k1);
    EndsOk(h, k2);
    var (l1, r1) := Ends(h, k1).value;
    var (l2, r2) := Ends(h, k2).value;
    BetweenOrder(l1, r1, z1, z1);
    BetweenOrder(l2, r2, z2, z2);
    if k1 == k2 {
      BetweenOrder(l1, r1, z1, z2);
    }
  }

  lemma PortionOrder(total: real, p: real, q: real)
    requires total > 0.0 && p <= q
    ensures Portion(total, p) <= Portion(total, q)
  {
  }

  /** A greater probability never gives a smaller quantile. */
  lemma {:induction false} QuantileMonotone(h: seq<Bin>, p: real, q: real, sqrt: real -> real)
    requires Readable(h) && IsSqrt(sqrt) && 0.0 <= p <= q < 1.0
    ensures At(h, p, sqrt).Ok? && At(h, q, sqrt).Ok?
    ensures At(h, p, sqrt).value <= At(h, q, sqrt).value
  {
    PortionOk(Mass(h), p);
    PortionOk(Mass(h), q);
    PortionOrder(Mass(h), p, q);
    ScanFrom(h, Portion(Mass(h), p));
    ScanFrom(h, Portion(Mass(h), q));
    ScanMonotone(h, -1, Portion(Mass(h), p), Portion(Mass(h), q));
    var (k1, r1) := Scan(h, -1, Portion(Mass(h), p));
    var (k2, r2) := Scan(h, -1, Portion(Mass(h), q));
    var z1 := FractionIn(h, k1, r1, sqrt);
    var z2 := FractionIn(h, k2, r2, sqrt);
    if k1 == k2 {
      FractionOrder(h, k1, r1, r2, z1, z2, sqrt);
    }
    PlacesOrder(h, k1, z1, k2, z2);
    InterpolateIs(h, k1, r1, z1, sqrt);
    InterpolateIs(h, k2, r2, z2, sqrt);
  }
}
