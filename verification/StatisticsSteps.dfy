/** What one operation does to the statistics, spelled out in numbers. */
module StatisticsSteps {
  import opened Wrappers
  import opened MathUtils
  import opened Histogram
  import opened Statistics

  // ---- Which statistics are kept --------------------------------------------------------------

  /** An enabled statistic is computed, and besides these exactly those that another one needs. */
  lemma {:induction false} ComputedIff(c: Config, t: Tag)
    ensures t in c.tags ==> Computed(c, t)
    ensures Computed(c, t) && t !in c.tags <==>
              && t !in c.tags
              && match t
                 case Value => Rate in c.tags
                 case Count => Avg in c.tags
                 case Sum => Avg in c.tags
                 case MovingCount => MovingAvg in c.tags
                 case MovingSum => MovingAvg in c.tags
                 case HistogramTag => Quantile in c.tags || Entropy in c.tags
                 case Timestamp =>
                   || MovingCount in c.tags || MovingSum in c.tags || MovingAvg in c.tags
                   || HistogramTag in c.tags || Quantile in c.tags || Entropy in c.tags || Rate in c.tags
                 case _ => false
  {
  }

  // ---- The passage of time --------------------------------------------------------------------

  /** `r` is what an advance from `now` to `t` leaves of `x`, which was collected up to `last`: the
      part of its interval that is still inside the window, and nothing once it has left it. */
  ghost predicate Remains(interval: int, now: int, x: real, last: int, t: int, r: real) {
    if last <= t - interval then r == 0.0
    else r * ((interval - (now - last)) as real) == x * ((last - (t - interval)) as real)
  }

  lemma RemainsOne(interval: int, now: int, x: real, last: int, t: int, r1: real, r2: real)
    requires now < t && Remains(interval, now, x, last, t, r1) && Remains(interval, now, x, last, t, r2)
    ensures r1 == r2
  {
    if last > t - interval {
      var d := (interval - (now - last)) as real;
      assert (r1 - r2) * d == 0.0;
    }
  }

  lemma ShiftRemains(interval: int, now: int, x: real, last: int, t: int)
    requires now < t
    ensures Remains(interval, now, x, last, t, Shift(interval, now, x, last, t))
  {
  }

  /** Time does not go back: an advance to a time already reached changes nothing. */
  lemma TickToThePast(c: Config, s: Stats, t: int)
    requires StatsOk(c, s) && t <= s.timestamp
    ensures AfterTime(c, s, t) == s
  {
  }

  /** An advance of time keeps every bin in its place, with its center and its time, and leaves of
      its count what is still inside the window. */
  lemma {:induction false} TickBins(c: Config, s: Stats, t: int)
    requires StatsOk(c, s) && Computed(c, HistogramTag) && c.bins > 0 && s.timestamp < t
    ensures var h := AfterTime(c, s, t).histogram;
            && |h| == |s.histogram|
            && forall i :: 0 <= i < |h| ==>
                 var b := s.histogram[i];
                 && h[i].center == b.center && h[i].timestamp == b.timestamp
                 && h[i].count == if b.timestamp <= t - c.interval then 0.0
                                  else b.count * ((b.timestamp - (t - c.interval)) as real)
                                       / ((c.interval - (s.timestamp - b.timestamp)) as real)
  {
  }

  /** And it leaves the same part of the moving values and of the rate, each when it is computed; the
      totals and the extremes stay. */
  lemma {:induction false} TickMoving(c: Config, s: Stats, t: int)
    requires StatsOk(c, s) && s.timestamp < t
    ensures var s' := AfterTime(c, s, t);
            && (Computed(c, MovingCount) ==>
                  Remains(c.interval, s.timestamp, s.movingCount, s.dataTimestamp, t, s'.movingCount))
            && (Computed(c, MovingSum) ==>
                  Remains(c.interval, s.timestamp, s.movingSum, s.dataTimestamp, t, s'.movingSum))
            && (Computed(c, Rate) ==> Remains(c.interval, s.timestamp, s.rate, s.dataTimestamp, t, s'.rate))
            && s'.value == s.value && s'.sum == s.sum && s'.count == s.count
            && s'.min == s.min && s'.max == s.max && s'.dataTimestamp == s.dataTimestamp
  {
    hide Computed, Shift, Remains;
    ShiftRemains(c.interval, s.timestamp, s.movingCount, s.dataTimestamp, t);
    ShiftRemains(c.interval, s.timestamp, s.movingSum, s.dataTimestamp, t);
    ShiftRemains(c.interval, s.timestamp, s.rate, s.dataTimestamp, t);
  }

  // ---- The moving values of a sample ----------------------------------------------------------

  /** `new'` is what a sample at `t` with the addend `x` makes of `old'`: too late, it is dropped;
      late but inside the window, it counts in full; and otherwise it is added to what remains. */
  ghost predicate Absorbs(c: Config, s: Stats, old': real, x: real, t: int, new': real) {
    if t < s.timestamp - c.interval then new' == old'
    else if t <= s.timestamp then new' == old' + x
    else Remains(c.interval, s.timestamp, old', s.dataTimestamp, t, new' - x)
  }

  lemma UpdateAbsorbs(c: Config, s: Stats, old': real, x: real, t: int)
    ensures Absorbs(c, s, old', x, t, UpdateData(c, s.timestamp, old', s.dataTimestamp, x, t))
  {
    if s.timestamp < t {
      ShiftRemains(c.interval, s.timestamp, old', s.dataTimestamp, t);
    }
  }

  /** A sample adds one to the count, its value to the sum, and its difference from the value before
      it to the rate, whether it comes in time, late or too late. */
  lemma {:induction false} SampleMoving(c: Config, s: Stats, v: real, t: int)
    requires StatsOk(c, s)
    ensures var s' := AfterUpdate(c, s, v, t);
            && (Computed(c, MovingCount) ==> Absorbs(c, s, s.movingCount, 1.0, t, s'.movingCount))
            && (Computed(c, MovingSum) ==> Absorbs(c, s, s.movingSum, v, t, s'.movingSum))
            && (Computed(c, Rate) ==> Absorbs(c, s, s.rate, v - s.value, t, s'.rate))
  {
    hide Computed, UpdateData, UpdatedBins, Absorbs;
    UpdateAbsorbs(c, s, s.movingCount, 1.0, t);
    UpdateAbsorbs(c, s, s.movingSum, v, t);
    UpdateAbsorbs(c, s, s.rate, v - s.value, t);
  }

  // ---- The bins of a sample -------------------------------------------------------------------

  /** `b'` is what is left of `b` when time advances from `now` to `t`, if it does. */
  ghost predicate BinRemains(interval: int, now: int, b: Bin, t: int, b': Bin) {
    && b'.center == b.center && b'.timestamp == b.timestamp
    && if t <= now then b'.count == b.count else Remains(interval, now, b.count, b.timestamp, t, b'.count)
  }

  lemma ShiftBinRemains(interval: int, now: int, h: seq<Bin>, t: int)
    ensures forall i :: 0 <= i < |h| ==> BinRemains(interval, now, h[i], t, ShiftBins(interval, now, h, t)[i])
  {
    forall i | 0 <= i < |h| ensures BinRemains(interval, now, h[i], t, ShiftBins(interval, now, h, t)[i]) {
      if now < t {
        ShiftRemains(interval, now, h[i].count, h[i].timestamp, t);
      }
    }
  }

  /** A sample decays the old bins and adds one for its value, of weight one unless time advances
      with it. As long as there is room these are the new bins, sorted. When there is none, the bins
      that do not survive make room; and only if all of them survive, the closest pair is merged. */
  lemma {:induction false} SampleBins(c: Config, s: Stats, v: real, t: int) returns (decayed: seq<Bin>, all: seq<Bin>)
    requires StatsOk(c, s) && Computed(c, HistogramTag) && c.bins > 0
    ensures |decayed| == |s.histogram|
    ensures forall i :: 0 <= i < |decayed| ==> BinRemains(c.interval, s.timestamp, s.histogram[i], t, decayed[i])
    ensures var w := if t <= s.timestamp then 1.0
                     else (c.interval as real) / ((c.interval + (t - s.timestamp)) as real);
            multiset(all) == multiset(decayed) + multiset{Bin(v, w, t)}
    ensures Sorted(all)
    ensures var r, left := AfterUpdate(c, s, v, t).histogram, Survivors(all, |all|);
            if |s.histogram| < c.bins then r == all
            else if |left| <= c.bins then r == left
            else left == all && |r| == c.bins && ClosestMerged(all, r)
  {
    hide UpdateBins, Survivors, ClosestMerged, Computed, UpdateData, ShiftBins, Remains;
    decayed := ShiftBins(c.interval, s.timestamp, s.histogram, t);
    ShiftBinRemains(c.interval, s.timestamp, s.histogram, t);
    all := UpdateBinsExactly(c.interval, c.bins, s.timestamp, s.histogram, v, t);
  }

  /** With no room for any bin at all there never is one. */
  lemma NoBins(c: Config, s: Stats, v: real, t: int)
    requires StatsOk(c, s) && c.bins == 0
    ensures AfterUpdate(c, s, v, t).histogram == AfterTime(c, s, t).histogram == s.histogram == []
  {
  }

  // ---- The moving average ---------------------------------------------------------------------

  /** The moving average times the count is the sum; without data it is zero. */
  lemma AverageTimesCount(s: Stats)
    ensures if s.movingCount > 0.0 then MovingAverage(s) * s.movingCount == s.movingSum
            else MovingAverage(s) == 0.0
  {
  }
}
