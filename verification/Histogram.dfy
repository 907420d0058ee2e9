/** The bounded adaptive histogram: decay, insertion, pruning and merging of bins. */
module Histogram {
  import opened Wrappers
  import opened MathUtils

  datatype Bin = Bin(center: real, count: real, timestamp: int)

  // ---- Decay of interval data -----------------------------------------------------------------

  /** `shift_interval_data`: the part of `data`, collected up to `dataTime` and last decayed at
      `now`, that is still inside the window of length `interval` ending at `time`. */
  function Shift(interval: int, now: int, data: real, dataTime: int, time: int): real {
    if time <= now then data
    else
      var stale := dataTime - (time - interval);
      if stale <= 0 then 0.0
      else data * (stale as real) / ((interval - (now - dataTime)) as real)
  }

  /** The factor that `Shift` multiplies by. */
  function Factor(interval: int, now: int, dataTime: int, time: int): real {
    Shift(interval, now, 1.0, dataTime, time)
  }

  lemma ShiftIsFactor(interval: int, now: int, data: real, dataTime: int, time: int)
    ensures 0.0 <= Factor(interval, now, dataTime, time) <= 1.0
    ensures Shift(interval, now, data, dataTime, time) == data * Factor(interval, now, dataTime, time)
  {
    var stale := dataTime - (time - interval);
    if now < time && stale > 0 {
      var s, d := stale as real, (interval - (now - dataTime)) as real;
      DivideBetween(s, d, 0.0, 1.0);
      assert data * s / d == data * (s / d);
    }
  }

  /** Decaying in two steps is decaying in one. */
  lemma ShiftTwice(interval: int, now: int, data: real, dataTime: int, t1: int, t2: int)
    ensures var mid := if t1 <= now then now else t1;
            var last := if t2 <= mid then mid else t2;
            Shift(interval, mid, Shift(interval, now, data, dataTime, t1), dataTime, t2)
              == Shift(interval, now, data, dataTime, last)
  {
    if now < t1 < t2 && dataTime - (t2 - interval) > 0 {
      var s1 := (dataTime - (t1 - interval)) as real;
      var s2 := (dataTime - (t2 - interval)) as real;
      var d := (interval - (now - dataTime)) as real;
      assert (interval - (t1 - dataTime)) as real == s1;
      assert data * s1 / d * s2 / s1 == data * s2 / d by {
        assert data * s1 / d * s2 == data * s2 / d * s1;
      }
    }
  }

  /** The factor grows with the time of the data. */
  lemma FactorMonotone(interval: int, now: int, early: int, late: int, time: int)
    requires early <= late
    ensures Factor(interval, now, early, time) <= Factor(interval, now, late, time)
  {
    ShiftIsFactor(interval, now, 1.0, late, time);
    if now < time && early - (time - interval) > 0 {
      var s1, d1 := (early - (time - interval)) as real, (interval - (now - early)) as real;
      var s2, d2 := (late - (time - interval)) as real, (interval - (now - late)) as real;
      assert s1 * d2 <= s2 * d1 by {
        var k := (late - early) as real;
        assert s2 == s1 + k && d2 == d1 + k && s1 <= d1;
      }
      assert s1 / d1 <= s2 / d2 by {
        DivideBetween(s1, d1, 0.0, 1.0);
        var q := s1 / d1;
        assert q * d2 * d1 == s1 * d2;
        assert q * d2 * d1 <= s2 * d1;
        assert q * d2 <= s2;
        DivideBetween(s2, d2, q, 1.0);
      }
    }
  }

  // ---- Summaries of a histogram ---------------------------------------------------------------

  function Mass(h: seq<Bin>): real {
    if h == [] then 0.0 else Mass(h[..|h| - 1]) + h[|h| - 1].count
  }

  function Moment(h: seq<Bin>): real {
    if h == [] then 0.0 else Moment(h[..|h| - 1]) + h[|h| - 1].center * h[|h| - 1].count
  }

  ghost predicate Sorted(h: seq<Bin>) {
    forall i, j :: 0 <= i <= j < |h| ==> h[i].center <= h[j].center
  }

  ghost predicate NonNegative(h: seq<Bin>) {
    forall i :: 0 <= i < |h| ==> h[i].count >= 0.0
  }

  ghost predicate HistogramOk(h: seq<Bin>) { Sorted(h) && NonNegative(h) }

  ghost predicate Within(h: seq<Bin>, lo: real, hi: real) {
    forall i :: 0 <= i < |h| ==> lo <= h[i].center <= hi
  }

  predicate IsEmptyBin(b: Bin) { Cmp(b.count, 0.0) <= 0 }

  ghost predicate SomeFull(h: seq<Bin>) {
    exists i :: 0 <= i < |h| && !IsEmptyBin(h[i])
  }

  lemma {:induction false} SumsConcat(a: seq<Bin>, b: seq<Bin>)
    ensures Mass(a + b) == Mass(a) + Mass(b)
    ensures Moment(a + b) == Moment(a) + Moment(b)
  {
    if b == [] {
      assert a + b == a;
    } else {
      assert (a + b)[..|a + b| - 1] == a + b[..|b| - 1];
      SumsConcat(a, b[..|b| - 1]);
    }
  }

  /** One more bin at the end. */
  lemma SumsSnoc(h: seq<Bin>, b: Bin)
    ensures Mass(h + [b]) == Mass(h) + b.count
    ensures Moment(h + [b]) == Moment(h) + b.center * b.count
  {
    assert (h + [b])[..|h|] == h;
  }

  // ---- Insertion ------------------------------------------------------------------------------

  /** The lexicographic order of the tuples. */
  predicate Less(a: Bin, b: Bin) {
    || a.center < b.center
    || (a.center == b.center && (a.count < b.count || (a.count == b.count && a.timestamp < b.timestamp)))
  }

  /** `std::lower_bound` by halving; on bins with equal centers the range need not be partitioned. */
  function LowerBound(h: seq<Bin>, b: Bin, first: nat, len: nat): (r: nat)
    requires first + len <= |h|
    ensures first <= r <= first + len
    decreases len
  {
    if len == 0 then first
    else
      var half := len / 2;
      if Less(h[first + half], b) then LowerBound(h, b, first + half + 1, len - half - 1)
      else LowerBound(h, b, first, half)
  }

  lemma LessOrder(a: Bin, b: Bin)
    ensures if Less(a, b) then a.center <= b.center else b.center <= a.center
  {
  }

  /** The first `n` bins are no greater than `center`. */
  ghost predicate Below(h: seq<Bin>, n: nat, center: real)
    requires n <= |h|
  {
    forall i :: 0 <= i < n ==> h[i].center <= center
  }

  /** The bins from `n` on are no less than `center`. */
  ghost predicate Above(h: seq<Bin>, n: nat, center: real)
    requires n <= |h|
  {
    forall i :: n <= i < |h| ==> center <= h[i].center
  }

  lemma SplitAtBin(h: seq<Bin>, i: nat, center: real)
    requires i < |h| && Sorted(h)
    ensures h[i].center <= center ==> Below(h, i + 1, center)
    ensures center <= h[i].center ==> Above(h, i, center)
  {
  }

  /** Wherever the search ends, what is left of it is no greater and what is right of it no less. */
  lemma {:induction false} LowerBoundSplits(h: seq<Bin>, b: Bin, first: nat, len: nat)
    requires first + len <= |h| && Sorted(h)
    requires Below(h, first, b.center) && Above(h, first + len, b.center)
    ensures Below(h, LowerBound(h, b, first, len), b.center)
    ensures Above(h, LowerBound(h, b, first, len), b.center)
    decreases len
  {
    hide Below, Above, Sorted, Less;
    if len > 0 {
      var half := len / 2;
      LessOrder(h[first + half], b);
      SplitAtBin(h, first + half, b.center);
      if Less(h[first + half], b) {
        LowerBoundSplits(h, b, first + half + 1, len - half - 1);
      } else {
        LowerBoundSplits(h, b, first, half);
      }
    }
  }

  /** Where the search has a border to find, it finds it: every tuple before the place is less than
      the new one, and none from there on. */
  lemma {:induction false} LowerBoundIsBorder(h: seq<Bin>, b: Bin, first: nat, len: nat, border: nat)
    requires first <= border <= first + len <= |h|
    requires forall i :: 0 <= i < |h| ==>
               (i < border <==>
                  || h[i].center < b.center
                  || (h[i].center == b.center && h[i].count < b.count)
                  || (h[i].center == b.center && h[i].count == b.count && h[i].timestamp < b.timestamp))
    ensures LowerBound(h, b, first, len) == border
    decreases len
  {
    if len > 0 {
      var half := len / 2;
      if Less(h[first + half], b) {
        LowerBoundIsBorder(h, b, first + half + 1, len - half - 1, border);
      } else {
        LowerBoundIsBorder(h, b, first, half, border);
      }
    }
  }

  function Insert(h: seq<Bin>, b: Bin): seq<Bin> {
    var at := LowerBound(h, b, 0, |h|);
    h[..at] + [b] + h[at..]
  }

  function ShiftBin(interval: int, now: int, b: Bin, time: int): Bin {
    b.(count := Shift(interval, now, b.count, b.timestamp, time))
  }

  function ShiftBins(interval: int, now: int, h: seq<Bin>, time: int): (r: seq<Bin>)
    ensures |r| == |h|
    ensures forall i :: 0 <= i < |h| ==> r[i] == ShiftBin(interval, now, h[i], time)
  {
    seq(|h|, i requires 0 <= i < |h| => ShiftBin(interval, now, h[i], time))
  }

  lemma ShiftBinsOk(interval: int, now: int, h: seq<Bin>, time: int)
    requires HistogramOk(h)
    ensures HistogramOk(ShiftBins(interval, now, h, time))
  {
    forall i | 0 <= i < |h| ensures ShiftBin(interval, now, h[i], time).count >= 0.0 {
      ShiftIsFactor(interval, now, h[i].count, h[i].timestamp, time);
    }
  }

  // ---- Pruning --------------------------------------------------------------------------------

  function FirstFull(h: seq<Bin>): (r: nat)
    ensures r <= |h|
    ensures forall i :: 0 <= i < r ==> IsEmptyBin(h[i])
    ensures r < |h| ==> !IsEmptyBin(h[r])
  {
    if h == [] || !IsEmptyBin(h[0]) then 0 else 1 + FirstFull(h[1..])
  }

  function PastLastFull(h: seq<Bin>): (r: nat)
    ensures r <= |h|
    ensures forall i :: r <= i < |h| ==> IsEmptyBin(h[i])
    ensures r > 0 ==> !IsEmptyBin(h[r - 1])
  {
    if h == [] then 0
    else if !IsEmptyBin(h[|h| - 1]) then |h| else PastLastFull(h[..|h| - 1])
  }

  /** Without the leading and trailing empty bins. */
  function Trim(h: seq<Bin>): seq<Bin> {
    var t := h[FirstFull(h)..];
    t[..PastLastFull(t)]
  }

  /** A bin survives if it holds something or is next to one that does. */
  predicate Kept(t: seq<Bin>, i: nat)
    requires i < |t|
  {
    !IsEmptyBin(t[i]) || (i > 0 && !IsEmptyBin(t[i - 1])) || (i + 1 < |t| && !IsEmptyBin(t[i + 1]))
  }

  function KeptOf(t: seq<Bin>, n: nat): seq<Bin>
    requires n <= |t|
  {
    if n == 0 then [] else KeptOf(t, n - 1) + if Kept(t, n - 1) then [t[n - 1]] else []
  }

  /** What pruning should leave, with no reference to how the original goes about it. */
  function Pruned(h: seq<Bin>): seq<Bin> {
    KeptOf(Trim(h), |Trim(h)|)
  }

  method EraseLeading(histogram: seq<Bin>) returns (h: seq<Bin>)
    ensures h == histogram[FirstFull(histogram)..]
  {
    var first := 0;
    while first < |histogram| && IsEmptyBin(histogram[first])
      invariant 0 <= first <= |histogram|
      invariant FirstFull(histogram) == first + FirstFull(histogram[first..])
    {
      assert histogram[first..][1..] == histogram[first + 1..];
      first := first + 1;
    }
    h := histogram[first..];
  }

  method EraseTrailing(histogram: seq<Bin>) returns (h: seq<Bin>)
    ensures h == histogram[..PastLastFull(histogram)]
  {
    var last := |histogram|;
    assert histogram[..last] == histogram;
    while last > 0 && IsEmptyBin(histogram[last - 1])
      invariant 0 <= last <= |histogram|
      invariant PastLastFull(histogram) == PastLastFull(histogram[..last])
    {
      assert histogram[..last][..last - 1] == histogram[..last - 1];
      last := last - 1;
    }
    h := histogram[..last];
  }

  /** How far the pruning loop has come: what is left of `index` is final, what is right of it is
      still the rest of the trimmed histogram. */
  ghost predicate PrunedUpTo(t: seq<Bin>, h: seq<Bin>, index: int, j: int) {
    if index <= |h| then
      && 1 <= index && 1 <= j <= |t|
      && h[..index] == KeptOf(t, j)
      && h[index..] == t[j..]
      && IsEmptyBin(h[index - 1]) == IsEmptyBin(t[j - 1])
    else h == KeptOf(t, |t|)
  }

  lemma SkipTwo(t: seq<Bin>, h: seq<Bin>, index: int, j: int)
    requires PrunedUpTo(t, h, index, j) && index + 1 < |h|
    requires !IsEmptyBin(h[index]) || !IsEmptyBin(h[index + 1])
    ensures PrunedUpTo(t, h, index + 2, j + 2)
  {
    assert h[index..][0] == t[j] && h[index..][1] == t[j + 1];
    KeptTwo(t, j);
    assert h[..index + 2] == h[..index] + [t[j], t[j + 1]];
    assert h[index + 2..] == h[index..][2..] == t[j + 2..];
  }

  lemma SkipOne(t: seq<Bin>, h: seq<Bin>, index: int, j: int)
    requires PrunedUpTo(t, h, index, j) && index < |h|
    requires !IsEmptyBin(h[index]) || !IsEmptyBin(h[index - 1])
    ensures PrunedUpTo(t, h, index + 1, j + 1)
  {
    assert h[index..][0] == t[j];
    assert h[..index + 1] == h[..index] + [t[j]];
    assert h[index + 1..] == h[index..][1..] == t[j + 1..];
  }

  lemma SkipThree(t: seq<Bin>, h: seq<Bin>, index: int, j: int)
    requires PrunedUpTo(t, h, index, j) && index + 1 < |h| && !IsEmptyBin(h[index + 1])
    ensures PrunedUpTo(t, h, index + 3, j + 3)
  {
    SkipTwo(t, h, index, j);
    if index + 2 < |h| {
      SkipOne(t, h, index + 2, j + 2);
    } else {
      assert h[..index + 2] == h;
    }
  }

  lemma EraseOne(t: seq<Bin>, h: seq<Bin>, index: int, j: int)
    requires PrunedUpTo(t, h, index, j) && index + 1 < |h|
    requires IsEmptyBin(h[index - 1]) && IsEmptyBin(h[index]) && IsEmptyBin(h[index + 1])
    ensures PrunedUpTo(t, h[..index] + h[index + 1..], index, j + 1)
  {
    assert h[index..][0] == t[j] && h[index..][1] == t[j + 1];
    var h' := h[..index] + h[index + 1..];
    assert h'[..index] == h[..index];
    assert h'[index..] == h[index..][1..] == t[j + 1..];
  }

  lemma PruningStarts(t: seq<Bin>)
    requires |t| > 0 && !IsEmptyBin(t[0])
    ensures PrunedUpTo(t, t, 1, 1)
  {
    assert KeptOf(t, 0) == [];
    assert t[..1] == KeptOf(t, 1);
  }

  lemma PruningEnds(t: seq<Bin>, h: seq<Bin>, index: int, j: int)
    requires |t| > 0 && !IsEmptyBin(t[|t| - 1])
    requires PrunedUpTo(t, h, index, j) && |h| - 1 <= index
    ensures h == KeptOf(t, |t|)
  {
    if index == |h| - 1 {
      assert h[index..][0] == t[|t| - 1];
      SkipOne(t, h, index, j);
      assert h[..|h|] == h;
    } else if index == |h| {
      assert h[..|h|] == h;
    }
  }

  /** The erasures inside, with an index that skips ahead by one, two or three. */
  method EraseSurrounded(t: seq<Bin>) returns (h: seq<Bin>)
    requires |t| > 0 && !IsEmptyBin(t[0]) && !IsEmptyBin(t[|t| - 1])
    ensures h == KeptOf(t, |t|)
  {
    hide PrunedUpTo, KeptOf;
    h := t;
    var index := 1;
    ghost var j := 1;
    PruningStarts(t);
    while index < |h| - 1
      invariant 1 <= index && PrunedUpTo(t, h, index, j)
      decreases |h| + |h| - index
    {
      if !IsEmptyBin(h[index]) {
        SkipTwo(t, h, index, j);
        index := index + 2;
        j := j + 2;
      } else if !IsEmptyBin(h[index + 1]) {
        SkipThree(t, h, index, j);
        index := index + 3;
        j := j + 3;
      } else if !IsEmptyBin(h[index - 1]) {
        SkipOne(t, h, index, j);
        index := index + 1;
        j := j + 1;
      } else {
        EraseOne(t, h, index, j);
        h := h[..index] + h[index + 1..];
        j := j + 1;
      }
    }
    PruningEnds(t, h, index, j);
  }

  /** `remove_empty_bins`. On a histogram with no full bin the original's `size() - 1` wraps. */
  method RemoveEmptyBins(histogram: seq<Bin>) returns (h: seq<Bin>)
    requires SomeFull(histogram)
    ensures h == Pruned(histogram)
  {
    TrimHasFullEnds(histogram);
    h := EraseLeading(histogram);
    h := EraseTrailing(h);
    h := EraseSurrounded(h);
  }

  lemma KeptTwo(t: seq<Bin>, j: nat)
    requires j + 1 < |t| && (!IsEmptyBin(t[j]) || !IsEmptyBin(t[j + 1]))
    ensures KeptOf(t, j + 2) == KeptOf(t, j) + [t[j], t[j + 1]]
  {
    assert KeptOf(t, j + 1) == KeptOf(t, j) + [t[j]];
  }

  lemma TrimHasFullEnds(h: seq<Bin>)
    requires SomeFull(h)
    ensures |Trim(h)| > 0 && !IsEmptyBin(Trim(h)[0]) && !IsEmptyBin(Trim(h)[|Trim(h)| - 1])
  {
    var t := h[FirstFull(h)..];
    assert !IsEmptyBin(t[0]);
  }

  // ---- What pruning keeps ---------------------------------------------------------------------

  function FullOnes(h: seq<Bin>): seq<Bin> {
    if h == [] then [] else FullOnes(h[..|h| - 1]) + if IsEmptyBin(h[|h| - 1]) then [] else [h[|h| - 1]]
  }

  lemma {:induction false} FullOnesConcat(a: seq<Bin>, b: seq<Bin>)
    ensures FullOnes(a + b) == FullOnes(a) + FullOnes(b)
  {
    if b == [] {
      assert a + b == a;
    } else {
      assert (a + b)[..|a + b| - 1] == a + b[..|b| - 1];
      FullOnesConcat(a, b[..|b| - 1]);
    }
  }

  lemma {:induction false} AllEmpty(h: seq<Bin>)
    requires forall i :: 0 <= i < |h| ==> IsEmptyBin(h[i])
    ensures FullOnes(h) == []
    ensures NonNegative(h) ==> Mass(h) == 0.0 && Moment(h) == 0.0
  {
    if h != [] {
      AllEmpty(h[..|h| - 1]);
    }
  }

  lemma FullOnesSnoc(h: seq<Bin>, b: Bin)
    ensures FullOnes(h + [b]) == FullOnes(h) + if IsEmptyBin(b) then [] else [b]
  {
    assert (h + [b])[..|h|] == h;
  }

  lemma DropEmpties(a: seq<Bin>, t: seq<Bin>, c: seq<Bin>)
    requires forall i :: 0 <= i < |a| ==> IsEmptyBin(a[i])
    requires forall i :: 0 <= i < |c| ==> IsEmptyBin(c[i])
    ensures FullOnes(a + t + c) == FullOnes(t)
    ensures NonNegative(a) && NonNegative(c) ==> Mass(a + t + c) == Mass(t) && Moment(a + t + c) == Moment(t)
  {
    AllEmpty(a);
    AllEmpty(c);
    FullOnesConcat(a, t);
    FullOnesConcat(a + t, c);
    SumsConcat(a, t);
    SumsConcat(a + t, c);
  }

  lemma TrimIsSlice(h: seq<Bin>) returns (a: nat, b: nat)
    ensures a <= b <= |h| && Trim(h) == h[a..b]
    ensures forall i :: 0 <= i < a || b <= i < |h| ==> IsEmptyBin(h[i])
  {
    a := FirstFull(h);
    b := a + PastLastFull(h[a..]);
    forall i | b <= i < |h| ensures IsEmptyBin(h[i]) {
      assert h[i] == h[a..][i - a];
    }
  }

  lemma TrimKeeps(h: seq<Bin>) returns (a: nat, b: nat)
    ensures a <= b <= |h| && Trim(h) == h[a..b]
    ensures FullOnes(Trim(h)) == FullOnes(h)
    ensures NonNegative(h) ==> Mass(Trim(h)) == Mass(h) && Moment(Trim(h)) == Moment(h)
  {
    a, b := TrimIsSlice(h);
    DropEmpties(h[..a], h[a..b], h[b..]);
    assert h == h[..a] + h[a..b] + h[b..];
  }

  lemma {:induction false} KeptOfIsPart(t: seq<Bin>, n: nat)
    requires n <= |t|
    ensures |KeptOf(t, n)| <= n
    ensures forall k :: 0 <= k < |KeptOf(t, n)| ==> KeptOf(t, n)[k] in t
  {
    hide Kept;
    if n > 0 {
      KeptOfIsPart(t, n - 1);
    }
  }

  lemma NotKeptIsEmpty(t: seq<Bin>, i: nat)
    requires i < |t| && !Kept(t, i)
    ensures IsEmptyBin(t[i])
  {
  }

  lemma {:induction false} KeptOfKeepsFull(t: seq<Bin>, n: nat)
    requires n <= |t|
    ensures FullOnes(KeptOf(t, n)) == FullOnes(t[..n])
  {
    if n == 0 {
      assert t[..0] == [];
    } else {
      KeptOfKeepsFull(t, n - 1);
      assert KeptOf(t, n) == if Kept(t, n - 1) then KeptOf(t, n - 1) + [t[n - 1]] else KeptOf(t, n - 1);
      hide Kept, KeptOf, FullOnes, IsEmptyBin;
      assert t[..n] == t[..n - 1] + [t[n - 1]];
      FullOnesSnoc(t[..n - 1], t[n - 1]);
      FullOnesSnoc(KeptOf(t, n - 1), t[n - 1]);
      if !Kept(t, n - 1) {
        NotKeptIsEmpty(t, n - 1);
      }
    }
  }

  lemma KeptStepSums(k: seq<Bin>, p: seq<Bin>, b: Bin, kept: bool)
    requires Mass(k) == Mass(p) && Moment(k) == Moment(p)
    requires !kept ==> b.count == 0.0
    ensures Mass(k + if kept then [b] else []) == Mass(p + [b])
    ensures Moment(k + if kept then [b] else []) == Moment(p + [b])
  {
    SumsSnoc(p, b);
    if kept {
      SumsSnoc(k, b);
    } else {
      assert k + [] == k;
    }
  }

  lemma {:induction false} KeptOfKeepsSums(t: seq<Bin>, n: nat)
    requires n <= |t| && NonNegative(t)
    ensures Mass(KeptOf(t, n)) == Mass(t[..n])
    ensures Moment(KeptOf(t, n)) == Moment(t[..n])
  {
    if n == 0 {
      assert t[..0] == [];
    } else {
      KeptOfKeepsSums(t, n - 1);
      KeptStepSums(KeptOf(t, n - 1), t[..n - 1], t[n - 1], Kept(t, n - 1));
      assert t[..n] == t[..n - 1] + [t[n - 1]];
    }
  }

  lemma {:induction false} KeptOfSorted(t: seq<Bin>, n: nat)
    requires n <= |t| && Sorted(t)
    ensures Sorted(KeptOf(t, n))
    ensures forall k, i :: 0 <= k < |KeptOf(t, n)| && n <= i < |t| ==> KeptOf(t, n)[k].center <= t[i].center
  {
    if n > 0 {
      KeptOfSorted(t, n - 1);
    }
  }

  /** Pruning keeps every full bin, in order, and the mass and the moment. */
  lemma PrunedKeeps(h: seq<Bin>)
    ensures FullOnes(Pruned(h)) == FullOnes(h)
    ensures NonNegative(h) ==> Mass(Pruned(h)) == Mass(h) && Moment(Pruned(h)) == Moment(h)
  {
    var t := Trim(h);
    var a, b := TrimKeeps(h);
    KeptOfKeepsFull(t, |t|);
    assert t[..|t|] == t;
    if NonNegative(h) {
      KeptOfKeepsSums(t, |t|);
    }
  }

  /** Pruning adds and reorders nothing. */
  lemma PrunedOk(h: seq<Bin>)
    requires HistogramOk(h)
    ensures HistogramOk(Pruned(h))
    ensures |Pruned(h)| <= |h|
    ensures forall k :: 0 <= k < |Pruned(h)| ==> Pruned(h)[k] in h
  {
    hide Trim, KeptOf;
    var t := Trim(h);
    var a, b := TrimIsSlice(h);
    KeptOfIsPart(t, |t|);
    assert forall i :: 0 <= i < |t| ==> t[i] == h[a + i];
    KeptOfSorted(t, |t|);
    forall k | 0 <= k < |Pruned(h)| ensures Pruned(h)[k] in h && Pruned(h)[k].count >= 0.0 {
      assert Pruned(h)[k] in t;
    }
  }

  /** The bin in place `k` of the pruned part holds something or stands next to one that does. */
  ghost predicate NextToFull(r: seq<Bin>, k: int)
    requires 0 <= k < |r|
  {
    || !IsEmptyBin(r[k])
    || (k > 0 && !IsEmptyBin(r[k - 1]))
    || (k + 1 < |r| && !IsEmptyBin(r[k + 1]))
  }

  lemma {:induction false} KeptOfNeighbours(t: seq<Bin>, n: nat)
    requires n <= |t|
    ensures n > 0 && Kept(t, n - 1) ==> |KeptOf(t, n)| > 0 && KeptOf(t, n)[|KeptOf(t, n)| - 1] == t[n - 1]
    ensures forall k :: 0 <= k < |KeptOf(t, n)| ==>
              NextToFull(KeptOf(t, n), k) || (k == |KeptOf(t, n)| - 1 && n < |t| && !IsEmptyBin(t[n]))
  {
    if n > 0 {
      KeptOfNeighbours(t, n - 1);
      var r0 := KeptOf(t, n - 1);
      var r := KeptOf(t, n);
      forall k | 0 <= k < |r| ensures NextToFull(r, k) || (k == |r| - 1 && n < |t| && !IsEmptyBin(t[n])) {
        if k < |r0| {
          assert NextToFull(r0, k) || (k == |r0| - 1 && !IsEmptyBin(t[n - 1]));
        } else if n > 1 && !IsEmptyBin(t[n - 2]) {
          assert r[k - 1] == t[n - 2];
        }
      }
    }
  }

  /** Every empty bin that survives is interior and next to a full one. */
  lemma PrunedEmptyIsInterior(h: seq<Bin>, k: nat)
    requires SomeFull(h) && k < |Pruned(h)| && IsEmptyBin(Pruned(h)[k])
    ensures 0 < k < |Pruned(h)| - 1
    ensures !IsEmptyBin(Pruned(h)[k - 1]) || !IsEmptyBin(Pruned(h)[k + 1])
  {
    var t := Trim(h);
    TrimHasFullEnds(h);
    KeptOfNeighbours(t, |t|);
    assert NextToFull(Pruned(h), k);
    KeptOfFirst(t, |t|);
  }

  lemma {:induction false} KeptOfFirst(t: seq<Bin>, n: nat)
    requires 0 < n <= |t| && !IsEmptyBin(t[0])
    ensures |KeptOf(t, n)| > 0 && KeptOf(t, n)[0] == t[0]
  {
    if n > 1 {
      KeptOfFirst(t, n - 1);
    } else {
      assert KeptOf(t, 0) == [];
    }
  }

  // ---- Exactly what pruning leaves ------------------------------------------------------------

  /** A bin that holds something survives; an empty one does if it lies between two that do hold
      something and is next to such a one. */
  ghost predicate Survives(h: seq<Bin>, i: nat)
    requires i < |h|
  {
    || h[i].count > 0.0
    || (&& (exists a :: 0 <= a < i && h[a].count > 0.0)
        && (exists b :: i < b < |h| && h[b].count > 0.0)
        && (h[i - 1].count > 0.0 || h[i + 1].count > 0.0))
  }

  /** Those of the first `n` bins that survive, in order. */
  ghost function Survivors(h: seq<Bin>, n: nat): seq<Bin>
    requires n <= |h|
  {
    if n == 0 then [] else Survivors(h, n - 1) + if Survives(h, n - 1) then [h[n - 1]] else []
  }

  lemma SurvivesIffKept(h: seq<Bin>, a: nat, b: nat, i: nat)
    requires a <= i < b <= |h| && h[a].count > 0.0 && h[b - 1].count > 0.0
    requires forall k :: 0 <= k < a || b <= k < |h| ==> h[k].count <= 0.0
    ensures Survives(h, i) <==> Kept(h[a..b], i - a)
  {
  }

  lemma {:induction false} SurvivorsInSlice(h: seq<Bin>, a: nat, b: nat, n: nat)
    requires a <= b <= |h| && n <= |h|
    requires a < b ==> h[a].count > 0.0 && h[b - 1].count > 0.0
    requires forall k :: 0 <= k < a || b <= k < |h| ==> h[k].count <= 0.0
    ensures Survivors(h, n) == KeptOf(h[a..b], if n < a then 0 else if n < b then n - a else b - a)
  {
    hide Survives, Kept;
    if n > 0 {
      SurvivorsInSlice(h, a, b, n - 1);
      if a <= n - 1 < b {
        SurvivesIffKept(h, a, b, n - 1);
        assert h[a..b][n - 1 - a] == h[n - 1];
      } else {
        OutsideDies(h, a, b, n - 1);
      }
    }
  }

  lemma OutsideDies(h: seq<Bin>, a: nat, b: nat, i: nat)
    requires a <= b <= |h| && i < |h| && !(a <= i < b)
    requires forall k :: 0 <= k < a || b <= k < |h| ==> h[k].count <= 0.0
    ensures !Survives(h, i)
  {
  }

  lemma TrimNeedsFull(h: seq<Bin>)
    requires Trim(h) != []
    ensures SomeFull(h)
  {
    assert FirstFull(h) < |h|;
  }

  lemma TrimEnds(h: seq<Bin>) returns (a: nat, b: nat)
    ensures a <= b <= |h| && Trim(h) == h[a..b]
    ensures a < b ==> h[a].count > 0.0 && h[b - 1].count > 0.0
    ensures forall k :: 0 <= k < a || b <= k < |h| ==> h[k].count <= 0.0
  {
    hide Trim, SomeFull;
    a, b := TrimIsSlice(h);
    if a < b {
      TrimNeedsFull(h);
      TrimHasFullEnds(h);
      assert Trim(h)[0] == h[a] && Trim(h)[b - a - 1] == h[b - 1];
    }
  }

  /** Pruning leaves exactly the bins that survive. */
  lemma {:induction false} PrunedExactly(h: seq<Bin>)
    ensures Pruned(h) == Survivors(h, |h|)
  {
    hide Trim, KeptOf, Survivors;
    var a, b := TrimEnds(h);
    SurvivorsInSlice(h, a, b, |h|);
    if b < |h| {
      assert |Trim(h)| == b - a;
    }
  }

  lemma {:induction false} AllSurvive(h: seq<Bin>, n: nat)
    requires n <= |h|
    ensures |Survivors(h, n)| <= n
    ensures |Survivors(h, n)| == n ==> Survivors(h, n) == h[..n]
    ensures (forall i :: 0 <= i < n ==> Survives(h, i)) ==> |Survivors(h, n)| == n
  {
    hide Survives;
    if n > 0 {
      AllSurvive(h, n - 1);
      assert h[..n] == h[..n - 1] + [h[n - 1]];
    }
  }

  // ---- Merging --------------------------------------------------------------------------------

  function Gap(h: seq<Bin>, i: nat): real
    requires i + 1 < |h|
  {
    h[i + 1].center - h[i].center
  }

  /** The first index among the first `n` with the smallest gap to the next bin. */
  ghost predicate IsBestMerge(h: seq<Bin>, n: nat, best: nat)
    requires n < |h|
  {
    && best < n
    && (forall i :: 0 <= i < n ==> Gap(h, best) <= Gap(h, i))
    && (forall i :: 0 <= i < best ==> Gap(h, best) < Gap(h, i))
  }

  function BestMerge(h: seq<Bin>, n: nat): (best: nat)
    requires 0 < n < |h|
    ensures IsBestMerge(h, n, best)
  {
    if n == 1 then 0
    else
      var best := BestMerge(h, n - 1);
      if Gap(h, n - 1) < Gap(h, best) then n - 1 else best
  }

  /** The bin that takes the place of two neighbours. */
  function MergedBin(left: Bin, right: Bin): Result<Bin, MathError> {
    if Cmp(left.count, 0.0) <= 0 && Cmp(right.count, 0.0) <= 0 then
      match WeightedAverage(left.center, 1.0, right.center, 1.0)
      case Ok(c) => Ok(Bin(c, 0.0, 0))
      case Err(e) => Err(e)
    else
      match WeightedAverage(left.center, left.count, right.center, right.count)
      case Ok(c) =>
        Ok(Bin(c, left.count + right.count,
               if left.timestamp < right.timestamp then right.timestamp else left.timestamp))
      case Err(e) => Err(e)
  }

  /** Merging never divides by a zero weight; it conserves mass and moment and stays in between. */
  lemma MergedBinOk(left: Bin, right: Bin)
    requires left.count >= 0.0 && right.count >= 0.0 && left.center <= right.center
    ensures MergedBin(left, right).Ok?
    ensures var m := MergedBin(left, right).value;
            && m.count == left.count + right.count
            && m.center * m.count == left.center * left.count + right.center * right.count
            && left.center <= m.center <= right.center
  {
    if left.count == 0.0 && right.count == 0.0 {
      WeightedAverageBetween(left.center, 1.0, right.center, 1.0);
    } else {
      WeightedAverageBetween(left.center, left.count, right.center, right.count);
    }
  }

  /** `m` stands for `left` and `right` together: two empty bins meet halfway, at the epoch; others
      add up their counts and their moments, at the later of their times. */
  ghost predicate StandsForBoth(left: Bin, right: Bin, m: Bin) {
    if left.count <= 0.0 && right.count <= 0.0 then
      m.count == 0.0 && m.center - left.center == right.center - m.center && m.timestamp == 0
    else
      && m.count == left.count + right.count
      && m.center * m.count == left.center * left.count + right.center * right.count
      && m.timestamp == if left.timestamp < right.timestamp then right.timestamp else left.timestamp
  }

  lemma {:induction false} MergedStandsForBoth(left: Bin, right: Bin)
    requires left.count >= 0.0 && right.count >= 0.0 && left.center <= right.center
    ensures MergedBin(left, right).Ok? && StandsForBoth(left, right, MergedBin(left, right).value)
  {
    MergedBinOk(left, right);
  }

  function MergeAt(h: seq<Bin>, i: nat): Result<seq<Bin>, MathError>
    requires i + 1 < |h|
  {
    match MergedBin(h[i], h[i + 1])
    case Ok(m) => Ok(h[..i] + [m] + h[i + 2..])
    case Err(e) => Err(e)
  }

  /** Replacing two neighbours by a bin with their mass and moment. */
  lemma MergedSums(a: seq<Bin>, l: Bin, r: Bin, m: Bin, c: seq<Bin>)
    requires m.count == l.count + r.count
    requires m.center * m.count == l.center * l.count + r.center * r.count
    ensures Mass(a + [m] + c) == Mass(a + [l] + [r] + c)
    ensures Moment(a + [m] + c) == Moment(a + [l] + [r] + c)
  {
    SumsSnoc(a, m);
    SumsSnoc(a, l);
    SumsSnoc(a + [l], r);
    SumsConcat(a + [m], c);
    SumsConcat(a + [l] + [r], c);
  }

  lemma MergeAtOk(h: seq<Bin>, i: nat)
    requires i + 1 < |h| && HistogramOk(h)
    ensures MergeAt(h, i).Ok?
    ensures var r := MergeAt(h, i).value;
            && HistogramOk(r) && |r| == |h| - 1
            && Mass(r) == Mass(h) && Moment(r) == Moment(h)
            && (forall lo, hi :: Within(h, lo, hi) ==> Within(r, lo, hi))
  {
    MergedBinOk(h[i], h[i + 1]);
    var m := MergedBin(h[i], h[i + 1]).value;
    MergedSums(h[..i], h[i], h[i + 1], m, h[i + 2..]);
    assert h == h[..i] + [h[i]] + [h[i + 1]] + h[i + 2..];
    MergedSorted(h, i, m);
  }

  lemma MergedSorted(h: seq<Bin>, i: nat, m: Bin)
    requires i + 1 < |h| && HistogramOk(h) && m.count >= 0.0
    requires h[i].center <= m.center <= h[i + 1].center
    ensures HistogramOk(h[..i] + [m] + h[i + 2..])
  {
    var r := h[..i] + [m] + h[i + 2..];
    forall j, k | 0 <= j <= k < |r| ensures r[j].center <= r[k].center {
      var j' := if j <= i then j else j + 1;
      var k' := if k < i then k else k + 1;
      assert j == k || j' <= k';
    }
  }

  // ---- The whole update -----------------------------------------------------------------------

  /** The bins after the new one is in and all of them are decayed to `time`. */
  function Inserted(interval: int, now: int, h: seq<Bin>, value: real, time: int): seq<Bin> {
    ShiftBins(interval, now, Insert(h, Bin(value, 1.0, time)), time)
  }

  /** `update_histogram`; an error would be the exception of `weighted_average`. */
  function UpdateBins(interval: int, bins: nat, now: int, h: seq<Bin>, value: real, time: int)
    : Result<seq<Bin>, MathError>
  {
    if bins == 0 then Ok(h) else Reduced(bins, Inserted(interval, now, h, value, time))
  }

  /** What the new bin weighs once it is decayed together with the old ones. */
  function FreshWeight(interval: int, now: int, time: int): real
    requires interval > 0
  {
    if time <= now then 1.0 else (interval as real) / ((interval + (time - now)) as real)
  }

  lemma InsertOk(h: seq<Bin>, b: Bin)
    requires HistogramOk(h) && b.count >= 0.0
    ensures HistogramOk(Insert(h, b))
    ensures |Insert(h, b)| == |h| + 1
  {
    hide LowerBound;
    LowerBoundSplits(h, b, 0, |h|);
  }

  /** Nothing is lost or made up by the insertion. */
  lemma InsertAdds(h: seq<Bin>, b: Bin)
    ensures multiset(Insert(h, b)) == multiset(h) + multiset{b}
  {
    var at := LowerBound(h, b, 0, |h|);
    assert h == h[..at] + h[at..];
  }

  /** Decaying after the insertion is inserting the decayed bin among the decayed ones. */
  lemma InsertedSplit(interval: int, now: int, h: seq<Bin>, value: real, time: int)
    returns (a: seq<Bin>, b: Bin, c: seq<Bin>)
    requires interval > 0
    ensures b == Bin(value, FreshWeight(interval, now, time), time)
    ensures ShiftBins(interval, now, h, time) == a + c
    ensures Inserted(interval, now, h, value, time) == a + [b] + c
  {
    var at := LowerBound(h, Bin(value, 1.0, time), 0, |h|);
    b := Bin(value, FreshWeight(interval, now, time), time);
    assert ShiftBin(interval, now, Bin(value, 1.0, time), time) == b;
    a := ShiftBins(interval, now, h, time)[..at];
    c := ShiftBins(interval, now, h, time)[at..];
  }

  lemma InsertedSums(interval: int, now: int, h: seq<Bin>, value: real, time: int)
    requires interval > 0
    ensures Mass(Inserted(interval, now, h, value, time))
            == Mass(ShiftBins(interval, now, h, time)) + FreshWeight(interval, now, time)
    ensures Moment(Inserted(interval, now, h, value, time))
            == Moment(ShiftBins(interval, now, h, time)) + value * FreshWeight(interval, now, time)
  {
    hide Inserted, ShiftBins, Mass, Moment, FreshWeight;
    var a, b, c := InsertedSplit(interval, now, h, value, time);
    SumsInsert(Inserted(interval, now, h, value, time), ShiftBins(interval, now, h, time), a, b, c);
  }

  lemma SumsInsert(ins: seq<Bin>, old': seq<Bin>, a: seq<Bin>, b: Bin, c: seq<Bin>)
    requires ins == a + [b] + c && old' == a + c
    ensures Mass(ins) == Mass(old') + b.count
    ensures Moment(ins) == Moment(old') + b.center * b.count
  {
    SumsSnoc(a, b);
    SumsConcat(a, c);
    SumsConcat(a + [b], c);
  }

  /** The histogram after the insertion is sound and holds a full bin, which pruning relies on. */
  lemma InsertedOk(interval: int, now: int, h: seq<Bin>, value: real, time: int)
    requires interval > 0 && HistogramOk(h)
    ensures var r := Inserted(interval, now, h, value, time);
            && HistogramOk(r) && SomeFull(r) && |r| == |h| + 1
            && (forall lo, hi :: Within(h, lo, hi) && lo <= value <= hi ==> Within(r, lo, hi))
  {
    var b := Bin(value, 1.0, time);
    var h1 := Insert(h, b);
    InsertOk(h, b);
    ShiftBinsOk(interval, now, h1, time);
    var at := LowerBound(h, b, 0, |h|);
    var r := Inserted(interval, now, h, value, time);
    assert r[at] == ShiftBin(interval, now, b, time);
    assert FreshWeight(interval, now, time) > 0.0;
    assert !IsEmptyBin(r[at]);
  }

  /** After `update_histogram` the bins are sorted with non-negative counts and no more than
      configured, inside the range of the values, and mass and moment are those of the decayed old
      bins plus the fresh one; `weighted_average` never throws. */
  lemma {:induction false} UpdateBinsOk(interval: int, bins: nat, now: int, h: seq<Bin>, value: real, time: int)
    requires interval > 0 && bins > 0 && HistogramOk(h) && |h| <= bins
    ensures UpdateBins(interval, bins, now, h, value, time).Ok?
    ensures var r := UpdateBins(interval, bins, now, h, value, time).value;
            var decayed := ShiftBins(interval, now, h, time);
            var w := FreshWeight(interval, now, time);
            && HistogramOk(r) && 0 < |r| <= bins
            && Mass(r) == Mass(decayed) + w
            && Moment(r) == Moment(decayed) + value * w
            && (forall lo, hi :: Within(h, lo, hi) && lo <= value <= hi ==> Within(r, lo, hi))
  {
    InsertedOk(interval, now, h, value, time);
    InsertedSums(interval, now, h, value, time);
    ReducedOk(bins, Inserted(interval, now, h, value, time));
  }

  /** Pruning and merging, once the histogram has outgrown its bound by one. */
  function Reduced(bins: nat, h: seq<Bin>): Result<seq<Bin>, MathError> {
    if |h| <= bins then Ok(h)
    else
      var p := Pruned(h);
      if |p| <= bins || |p| <= 1 then Ok(p) else MergeAt(p, BestMerge(p, |p| - 1))
  }

  lemma ReducedOk(bins: nat, h: seq<Bin>)
    requires bins > 0 && HistogramOk(h) && SomeFull(h) && |h| <= bins + 1
    ensures Reduced(bins, h).Ok?
    ensures var r := Reduced(bins, h).value;
            && HistogramOk(r) && 0 < |r| <= bins
            && Mass(r) == Mass(h) && Moment(r) == Moment(h)
            && (forall lo, hi :: Within(h, lo, hi) ==> Within(r, lo, hi))
  {
    if |h| > bins {
      var p := Pruned(h);
      PrunedKeeps(h);
      PrunedOk(h);
      TrimHasFullEnds(h);
      KeptOfFirst(Trim(h), |Trim(h)|);
      forall lo, hi | Within(h, lo, hi) ensures Within(p, lo, hi) {
        forall k | 0 <= k < |p| ensures lo <= p[k].center <= hi {
          assert p[k] in h;
        }
      }
      if |p| > bins {
        MergeAtOk(p, BestMerge(p, |p| - 1));
      }
    }
  }

  // ---- The whole update, bin by bin -----------------------------------------------------------

  lemma InsertedBins(interval: int, now: int, h: seq<Bin>, value: real, time: int)
    requires interval > 0
    ensures multiset(Inserted(interval, now, h, value, time))
            == multiset(ShiftBins(interval, now, h, time))
               + multiset{Bin(value, FreshWeight(interval, now, time), time)}
  {
    hide Inserted, ShiftBins, FreshWeight;
    var a, b, c := InsertedSplit(interval, now, h, value, time);
  }

  /** No neighbours are closer than those at `i`, and none before them are as close. */
  ghost predicate IsClosestPair(h: seq<Bin>, i: nat) {
    && i + 1 < |h|
    && (forall k :: 0 <= k < |h| - 1 ==> h[i + 1].center - h[i].center <= h[k + 1].center - h[k].center)
    && (forall k :: 0 <= k < i ==> h[i + 1].center - h[i].center < h[k + 1].center - h[k].center)
  }

  ghost predicate MergedAt(h: seq<Bin>, i: nat, m: Bin, r: seq<Bin>) {
    i + 1 < |h| && StandsForBoth(h[i], h[i + 1], m) && r == h[..i] + [m] + h[i + 2..]
  }

  /** The first closest neighbours, and no other bins, are replaced by one that stands for both. */
  ghost predicate ClosestMerged(h: seq<Bin>, r: seq<Bin>) {
    exists i: nat, m: Bin :: IsClosestPair(h, i) && MergedAt(h, i, m, r)
  }

  lemma MergeIsClosest(h: seq<Bin>)
    requires HistogramOk(h) && |h| >= 2
    ensures MergeAt(h, BestMerge(h, |h| - 1)).Ok?
    ensures ClosestMerged(h, MergeAt(h, BestMerge(h, |h| - 1)).value)
  {
    var i := BestMerge(h, |h| - 1);
    assert IsBestMerge(h, |h| - 1, i);
    MergedStandsForBoth(h[i], h[i + 1]);
    var m := MergedBin(h[i], h[i + 1]).value;
    forall k | 0 <= k < |h| - 1
      ensures h[i + 1].center - h[i].center <= h[k + 1].center - h[k].center
      ensures k < i ==> h[i + 1].center - h[i].center < h[k + 1].center - h[k].center
    {
      assert Gap(h, i) <= Gap(h, k);
    }
    assert IsClosestPair(h, i) && MergedAt(h, i, m, MergeAt(h, i).value);
  }

  lemma ReducedBins(bins: nat, h: seq<Bin>)
    requires bins > 0 && HistogramOk(h) && |h| <= bins + 1
    ensures Reduced(bins, h).Ok?
    ensures var r, left := Reduced(bins, h).value, Survivors(h, |h|);
            if |h| <= bins then r == h
            else if |left| <= bins then r == left
            else left == h && |r| == bins && ClosestMerged(h, r)
  {
    hide Survivors, Pruned, ClosestMerged;
    if |h| > bins {
      PrunedExactly(h);
      AllSurvive(h, |h|);
      assert h[..|h|] == h;
      if |Pruned(h)| > bins {
        MergeAtOk(h, BestMerge(h, |h| - 1));
        MergeIsClosest(h);
      }
    }
  }

  /** After an update the bins are the decayed ones and the fresh one, as long as there is room. When
      there is none, those that do not survive make room; and only when all of them survive, the
      closest pair is merged into one. `all` is the decayed bins and the fresh one, sorted. */
  lemma {:induction false} UpdateBinsExactly(interval: int, bins: nat, now: int, h: seq<Bin>, value: real, time: int)
    returns (all: seq<Bin>)
    requires interval > 0 && bins > 0 && HistogramOk(h) && |h| <= bins
    ensures Sorted(all)
    ensures multiset(all) == multiset(ShiftBins(interval, now, h, time))
                             + multiset{Bin(value, FreshWeight(interval, now, time), time)}
    ensures UpdateBins(interval, bins, now, h, value, time).Ok?
    ensures var r, left := UpdateBins(interval, bins, now, h, value, time).value, Survivors(all, |all|);
            if |h| < bins then r == all
            else if |left| <= bins then r == left
            else left == all && |r| == bins && ClosestMerged(all, r)
  {
    hide Inserted, Survivors, Reduced, ClosestMerged, FreshWeight;
    all := Inserted(interval, now, h, value, time);
    InsertedOk(interval, now, h, value, time);
    InsertedBins(interval, now, h, value, time);
    ReducedBins(bins, all);
  }

  lemma FullInMultiset(all: seq<Bin>, decayed: seq<Bin>, one: Bin)
    requires multiset(all) == multiset(decayed) + multiset{one} && one.count > 0.0
    requires forall i :: 0 <= i < |decayed| ==> decayed[i].count > 0.0
    ensures forall i :: 0 <= i < |all| ==> all[i].count > 0.0
  {
    forall i | 0 <= i < |all| ensures all[i].count > 0.0 {
      assert all[i] in multiset(all);
    }
  }

  /** In particular, when no bin has decayed to nothing, none is removed: there are as many bins as
      there may be. */
  lemma {:induction false} FullStaysFull(interval: int, bins: nat, now: int, h: seq<Bin>, value: real, time: int)
    returns (all: seq<Bin>)
    requires interval > 0 && bins > 0 && HistogramOk(h) && |h| == bins
    requires forall i :: 0 <= i < |h| ==> ShiftBins(interval, now, h, time)[i].count > 0.0
    ensures Sorted(all)
    ensures multiset(all) == multiset(ShiftBins(interval, now, h, time))
                             + multiset{Bin(value, FreshWeight(interval, now, time), time)}
    ensures UpdateBins(interval, bins, now, h, value, time).Ok?
    ensures var r := UpdateBins(interval, bins, now, h, value, time).value;
            |r| == bins && ClosestMerged(all, r)
  {
    hide UpdateBins, Survivors, ClosestMerged, ShiftBins;
    all := UpdateBinsExactly(interval, bins, now, h, value, time);
    var decayed, one := ShiftBins(interval, now, h, time), Bin(value, FreshWeight(interval, now, time), time);
    FullInMultiset(all, decayed, one);
    AllSurvive(all, |all|);
    assert |multiset(all)| == |multiset(decayed)| + 1;
  }
}
