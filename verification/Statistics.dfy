/** The incremental statistics of a metric: the state, its two operations, and the class. */
module Statistics {
  import opened Wrappers
  import opened MathUtils
  import opened Histogram

  datatype Tag =
    | Value | Min | Max | Count | Sum | Avg
    | MovingCount | MovingSum | MovingAvg
    | HistogramTag | Quantile | Timestamp | Rate | Entropy

  /** The interval is positive: the default is a second, and the configuration accepts no zero.
      `smallest` and `largest` are the platform's `min()` and `max()` of the value type: its
      smallest positive normal value and its largest value. */
  datatype Configuration = Configuration(interval: int, bins: nat, tags: set<Tag>, smallest: real, largest: real)
  type Config = c: Configuration | c.interval > 0 && 0.0 < c.smallest < c.largest
    witness Configuration(1, 30, {}, 1.0, 2.0)

  function TagRank(t: Tag): nat {
    match t
    case Timestamp => 2
    case Value => 1
    case Count => 1
    case Sum => 1
    case MovingCount => 1
    case MovingSum => 1
    case HistogramTag => 1
    case _ => 0
  }

  /** A statistic is kept when it is asked for or when another one is computed from it. */
  predicate Computed(c: Config, t: Tag)
    decreases TagRank(t)
  {
    match t
    case Value => Value in c.tags || Computed(c, Rate)
    case Count => Count in c.tags || Computed(c, Avg)
    case Sum => Sum in c.tags || Computed(c, Avg)
    case MovingCount => MovingCount in c.tags || Computed(c, MovingAvg)
    case MovingSum => MovingSum in c.tags || Computed(c, MovingAvg)
    case HistogramTag => HistogramTag in c.tags || Computed(c, Quantile) || Computed(c, Entropy)
    case Timestamp =>
      || Timestamp in c.tags
      || Computed(c, MovingCount) || Computed(c, MovingSum) || Computed(c, MovingAvg)
      || Computed(c, HistogramTag) || Computed(c, Quantile)
      || Computed(c, Rate)
    case _ => t in c.tags
  }

  datatype Stats = Stats(
    value: real, min: real, max: real, sum: real, count: nat,
    movingCount: real, movingSum: real, rate: real,
    histogram: seq<Bin>,
    timestamp: int, dataTimestamp: int)

  function Reset(c: Config): Stats {
    Stats(0.0, c.largest, c.smallest, 0.0, 0, 0.0, 0.0, 0.0, [], 0, 0)
  }

  /** `update_interval_data`: too old a value is dropped, a late one is added as it is. */
  function UpdateData(c: Config, now: int, data: real, dataTime: int, value: real, time: int): real {
    if time <= now then
      if time < now - c.interval then data else data + value
    else value + Shift(c.interval, now, data, dataTime, time)
  }

  /** What the operations keep: a sound histogram within its bound. */
  ghost predicate StatsOk(c: Config, s: Stats) {
    HistogramOk(s.histogram) && |s.histogram| <= c.bins
  }

  function Later(a: int, b: int): int { if a < b then b else a }

  function UpdatedBins(c: Config, now: int, h: seq<Bin>, value: real, time: int): (h': seq<Bin>)
    requires HistogramOk(h) && |h| <= c.bins
    ensures HistogramOk(h') && |h'| <= c.bins
  {
    if c.bins == 0 then h
    else
      UpdateBinsOk(c.interval, c.bins, now, h, value, time);
      UpdateBins(c.interval, c.bins, now, h, value, time).value
  }

  function AfterUpdate(c: Config, s: Stats, value: real, time: int): (s': Stats)
    requires StatsOk(c, s)
    ensures StatsOk(c, s')
  {
    var now, dataTime := s.timestamp, s.dataTimestamp;
    Stats(
      if Computed(c, Value) then value else s.value,
      if Computed(c, Min) && value < s.min then value else s.min,
      if Computed(c, Max) && s.max < value then value else s.max,
      if Computed(c, Sum) then s.sum + value else s.sum,
      if Computed(c, Count) then s.count + 1 else s.count,
      if Computed(c, MovingCount) then UpdateData(c, now, s.movingCount, dataTime, 1.0, time) else s.movingCount,
      if Computed(c, MovingSum) then UpdateData(c, now, s.movingSum, dataTime, value, time) else s.movingSum,
      if Computed(c, Rate) then UpdateData(c, now, s.rate, dataTime, value - s.value, time) else s.rate,
      if Computed(c, HistogramTag) then UpdatedBins(c, now, s.histogram, value, time) else s.histogram,
      if Computed(c, Timestamp) then Later(now, time) else now,
      if Computed(c, Timestamp) then Later(dataTime, time) else dataTime)
  }

  function ShiftedBins(c: Config, s: Stats, time: int): seq<Bin> {
    if c.bins == 0 then s.histogram else ShiftBins(c.interval, s.timestamp, s.histogram, time)
  }

  function AfterTime(c: Config, s: Stats, time: int): (s': Stats)
    requires StatsOk(c, s)
    ensures StatsOk(c, s')
  {
    if time <= s.timestamp then s
    else
      var now, dataTime := s.timestamp, s.dataTimestamp;
      ShiftBinsOk(c.interval, now, s.histogram, time);
      s.(movingCount := if Computed(c, MovingCount)
                        then Shift(c.interval, now, s.movingCount, dataTime, time) else s.movingCount,
         movingSum := if Computed(c, MovingSum)
                      then Shift(c.interval, now, s.movingSum, dataTime, time) else s.movingSum,
         rate := if Computed(c, Rate) then Shift(c.interval, now, s.rate, dataTime, time) else s.rate,
         histogram := if Computed(c, HistogramTag) then ShiftedBins(c, s, time) else s.histogram,
         timestamp := if Computed(c, Timestamp) then Later(now, time) else now)
  }

  /** `get<moving_avg>` of a moving average that is computed. */
  function MovingAverage(s: Stats): real {
    if s.movingCount <= 0.0 then 0.0 else s.movingSum / s.movingCount
  }

  class IncrementalStatistics {
    const config: Config

    var value: real
    var min: real
    var max: real
    var sum: real
    var count: nat
    var movingCount: real
    var movingSum: real
    var rate: real
    var histogram: seq<Bin>
    var timestamp: int
    var dataTimestamp: int

    function View(): Stats
      reads this
    {
      Stats(value, min, max, sum, count, movingCount, movingSum, rate, histogram, timestamp, dataTimestamp)
    }

    ghost predicate Valid()
      reads this
    {
      HistogramOk(histogram) && |histogram| <= config.bins
    }

    constructor (config: Config)
      ensures Valid() && this.config == config && View() == Reset(config)
    {
      this.config := config;
      new;
      Clear();
    }

    method Clear()
      modifies this
      ensures Valid() && View() == Reset(config)
      ensures value == sum == movingCount == movingSum == rate == 0.0 && count == 0
      ensures min == config.largest && max == config.smallest
      ensures histogram == [] && timestamp == dataTimestamp == 0
    {
      value := 0.0;
      min := config.largest;
      max := config.smallest;
      sum := 0.0;
      count := 0;
      movingCount := 0.0;
      movingSum := 0.0;
      histogram := [];
      timestamp := 0;
      rate := 0.0;
      dataTimestamp := 0;
    }

    method ShiftHistogram(time: int)
      modifies `histogram
      ensures histogram == if config.bins == 0 then old(histogram)
                           else ShiftBins(config.interval, timestamp, old(histogram), time)
    {
      if config.bins == 0 {
        return;
      }
      for i := 0 to |histogram|
        invariant |histogram| == |old(histogram)|
        invariant forall k :: 0 <= k < i ==>
                    histogram[k] == ShiftBin(config.interval, timestamp, old(histogram)[k], time)
        invariant forall k :: i <= k < |histogram| ==> histogram[k] == old(histogram)[k]
      {
        var bin := histogram[i];
        histogram := histogram[i := bin.(count := Shift(config.interval, timestamp, bin.count, bin.timestamp, time))];
      }
    }

    /** The search for the closest pair. */
    method FindBestMerge() returns (best: nat)
      requires |histogram| >= 2
      ensures best == BestMerge(histogram, |histogram| - 1)
    {
      var found := -1;
      var criteria := 0.0;
      for i := 0 to |histogram| - 1
        invariant found == -1 <==> i == 0
        invariant i > 0 ==> 0 <= found < i && found == BestMerge(histogram, i) && criteria == Gap(histogram, found)
      {
        var c := Gap(histogram, i);
        if found == -1 || Cmp(c, criteria) < 0 {
          found := i;
          criteria := c;
        }
      }
      best := found;
    }

    /** Puts the bin that merging yields in the place of the closest pair. */
    method MergeClosest()
      requires |histogram| >= 2 && HistogramOk(histogram)
      modifies `histogram
      ensures MergeAt(old(histogram), BestMerge(old(histogram), |old(histogram)| - 1)) == Ok(histogram)
    {
      var best := FindBestMerge();
      MergeAtOk(histogram, best);
      var merged := MergedBin(histogram[best], histogram[best + 1]);
      histogram := histogram[..best] + [merged.value] + histogram[best + 2..];
    }

    method InsertBin(bin: Bin)
      modifies `histogram
      ensures histogram == Insert(old(histogram), bin)
    {
      var at := LowerBound(histogram, bin, 0, |histogram|);
      histogram := histogram[..at] + [bin] + histogram[at..];
    }

    method PruneHistogram()
      requires HistogramOk(histogram) && SomeFull(histogram)
      modifies `histogram
      ensures histogram == Pruned(old(histogram))
      ensures HistogramOk(histogram)
    {
      PrunedOk(histogram);
      histogram := RemoveEmptyBins(histogram);
    }

    /** The part of `update_histogram` after the decay. */
    method ReduceHistogram()
      requires config.bins > 0 && HistogramOk(histogram) && SomeFull(histogram)
      modifies `histogram
      ensures Reduced(config.bins, old(histogram)) == Ok(histogram)
    {
      if |histogram| > config.bins {
        PruneHistogram();
        if |histogram| > config.bins {
          MergeClosest();
        }
      }
    }

    method UpdateHistogram(v: real, time: int)
      requires Valid()
      modifies `histogram
      ensures histogram == UpdatedBins(config, timestamp, old(histogram), v, time)
    {
      if config.bins == 0 {
        return;
      }
      InsertedOk(config.interval, timestamp, histogram, v, time);
      InsertBin(Bin(v, 1.0, time));
      ShiftHistogram(time);
      ReduceHistogram();
    }

    method UpdateTotals(v: real)
      modifies `value, `min, `max, `sum, `count
      ensures value == if Computed(config, Value) then v else old(value)
      ensures min == if Computed(config, Min) && v < old(min) then v else old(min)
      ensures max == if Computed(config, Max) && old(max) < v then v else old(max)
      ensures sum == if Computed(config, Sum) then old(sum) + v else old(sum)
      ensures count == if Computed(config, Count) then old(count) + 1 else old(count)
    {
      if Computed(config, Value) {
        value := v;
      }
      if Computed(config, Min) {
        min := if v < min then v else min;
      }
      if Computed(config, Max) {
        max := if max < v then v else max;
      }
      if Computed(config, Sum) {
        sum := sum + v;
      }
      if Computed(config, Count) {
        count := count + 1;
      }
    }

    method UpdateMoving(v: real, time: int)
      modifies `movingCount, `movingSum
      ensures movingCount == if Computed(config, MovingCount)
              then UpdateData(config, timestamp, old(movingCount), dataTimestamp, 1.0, time) else old(movingCount)
      ensures movingSum == if Computed(config, MovingSum)
              then UpdateData(config, timestamp, old(movingSum), dataTimestamp, v, time) else old(movingSum)
    {
      if Computed(config, MovingCount) {
        movingCount := UpdateData(config, timestamp, movingCount, dataTimestamp, 1.0, time);
      }
      if Computed(config, MovingSum) {
        movingSum := UpdateData(config, timestamp, movingSum, dataTimestamp, v, time);
      }
    }

    method UpdateRate(v: real, time: int)
      modifies `rate
      ensures rate == if Computed(config, Rate)
              then UpdateData(config, timestamp, old(rate), dataTimestamp, v - value, time) else old(rate)
    {
      if Computed(config, Rate) {
        rate := UpdateData(config, timestamp, rate, dataTimestamp, v - value, time);
      }
    }

    method UpdateTimestamps(time: int)
      modifies `timestamp, `dataTimestamp
      ensures timestamp == if Computed(config, Timestamp) then Later(old(timestamp), time) else old(timestamp)
      ensures dataTimestamp == if Computed(config, Timestamp)
              then Later(old(dataTimestamp), time) else old(dataTimestamp)
    {
      if Computed(config, Timestamp) {
        timestamp := Later(timestamp, time);
        dataTimestamp := Later(dataTimestamp, time);
      }
    }

    method UpdateBinsIfComputed(v: real, time: int)
      requires Valid()
      modifies `histogram
      ensures Valid()
      ensures histogram == if Computed(config, HistogramTag)
              then UpdatedBins(config, timestamp, old(histogram), v, time) else old(histogram)
    {
      if Computed(config, HistogramTag) {
        UpdateHistogram(v, time);
      }
    }

    method Update(v: real, time: int)
      requires Valid()
      modifies this
      ensures Valid()
      ensures View() == AfterUpdate(config, old(View()), v, time)
    {
      hide Computed, UpdateData, UpdatedBins, Later, HistogramOk;
      ghost var after := AfterUpdate(config, View(), v, time);
      UpdateRate(v, time);
      assert rate == after.rate;
      UpdateTotals(v);
      UpdateMoving(v, time);
      assert movingCount == after.movingCount && movingSum == after.movingSum;
      UpdateBinsIfComputed(v, time);
      assert histogram == after.histogram;
      UpdateTimestamps(time);
    }

    method UpdateTime(time: int)
      requires Valid()
      modifies this
      ensures Valid()
      ensures View() == AfterTime(config, old(View()), time)
    {
      hide Computed, Shift, ShiftBins, Later, HistogramOk;
      if time <= timestamp {
        return;
      }
      ShiftBinsOk(config.interval, timestamp, histogram, time);
      if Computed(config, Rate) {
        rate := Shift(config.interval, timestamp, rate, dataTimestamp, time);
      }
      if Computed(config, MovingCount) {
        movingCount := Shift(config.interval, timestamp, movingCount, dataTimestamp, time);
      }
      if Computed(config, MovingSum) {
        movingSum := Shift(config.interval, timestamp, movingSum, dataTimestamp, time);
      }
      if Computed(config, HistogramTag) {
        ShiftHistogram(time);
      }
      if Computed(config, Timestamp) {
        timestamp := Later(timestamp, time);
      }
    }
  }
}
