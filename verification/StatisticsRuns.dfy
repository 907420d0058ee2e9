/** What holds of the incremental statistics after any run of its two operations. */
module StatisticsRuns {
  import opened Wrappers
  import opened MathUtils
  import opened Histogram
  import opened Statistics
  import Q = QuantileExtractor

  datatype Op = Sample(value: real, time: int) | Tick(time: int)

  function Step(c: Config, s: Stats, op: Op): (s': Stats)
    requires StatsOk(c, s)
    ensures StatsOk(c, s')
  {
    match op
    case Sample(v, t) => AfterUpdate(c, s, v, t)
    case Tick(t) => AfterTime(c, s, t)
  }

  /** The state after a run from the constructor. */
  function Run(c: Config, ops: seq<Op>): (s: Stats)
    ensures StatsOk(c, s)
  {
    if ops == [] then Reset(c) else Step(c, Run(c, ops[..|ops| - 1]), ops[|ops| - 1])
  }

  lemma ComputedNeedsTime(c: Config)
    ensures Computed(c, MovingCount) || Computed(c, MovingSum) || Computed(c, HistogramTag) || Computed(c, Rate) ==>
              Computed(c, Timestamp)
    ensures Computed(c, Rate) ==> Computed(c, Value)
    ensures Computed(c, MovingAvg) ==> Computed(c, MovingCount) && Computed(c, MovingSum)
  {
  }

  /** A value that a metric hands to its statistics, with its time. */
  datatype Record = Record(value: int, time: int)

  function Samples(recorded: seq<Record>): seq<Op> {
    seq(|recorded|, i requires 0 <= i < |recorded| => Sample(recorded[i].value as real, recorded[i].time))
  }

  // ---- The passage of time is additive --------------------------------------------------------

  lemma ShiftBinsTwice(interval: int, now: int, h: seq<Bin>, t1: int, t2: int)
    requires now < t1
    ensures ShiftBins(interval, t1, ShiftBins(interval, now, h, t1), t2)
            == ShiftBins(interval, now, h, Later(t1, t2))
  {
    forall i | 0 <= i < |h|
      ensures ShiftBin(interval, t1, ShiftBin(interval, now, h[i], t1), t2)
              == ShiftBin(interval, now, h[i], Later(t1, t2))
    {
      ShiftTwice(interval, now, h[i].count, h[i].timestamp, t1, t2);
    }
  }

  /** Two advances of time are one advance to the later of the two times: for the moving values,
      the rate and every bin, in every state and whatever is computed. */
  lemma TimeTwice(c: Config, s: Stats, t1: int, t2: int)
    requires StatsOk(c, s)
    ensures AfterTime(c, AfterTime(c, s, t1), t2) == AfterTime(c, s, Later(t1, t2))
  {
    ComputedNeedsTime(c);
    if s.timestamp < t1 {
      ShiftTwice(c.interval, s.timestamp, s.movingCount, s.dataTimestamp, t1, t2);
      ShiftTwice(c.interval, s.timestamp, s.movingSum, s.dataTimestamp, t1, t2);
      ShiftTwice(c.interval, s.timestamp, s.rate, s.dataTimestamp, t1, t2);
      ShiftBinsTwice(c.interval, s.timestamp, s.histogram, t1, t2);
    }
  }

  function Ticks(c: Config, s: Stats, times: seq<int>): (s': Stats)
    requires StatsOk(c, s)
    ensures StatsOk(c, s')
  {
    if times == [] then s else AfterTime(c, Ticks(c, s, times[..|times| - 1]), times[|times| - 1])
  }

  function Latest(times: seq<int>): int
    requires times != []
  {
    if |times| == 1 then times[0] else Later(Latest(times[..|times| - 1]), times[|times| - 1])
  }

  /** However finely time is advanced, only the last time matters. */
  lemma {:induction false} TicksAreOne(c: Config, s: Stats, times: seq<int>)
    requires StatsOk(c, s) && times != []
    ensures Ticks(c, s, times) == AfterTime(c, s, Latest(times))
  {
    var init, last := times[..|times| - 1], times[|times| - 1];
    if |times| == 1 {
      assert Ticks(c, s, init) == s;
    } else {
      TicksAreOne(c, s, init);
      TimeTwice(c, s, Latest(init), last);
    }
  }

  // ---- The documented recurrence --------------------------------------------------------------

  /** Times never go back, and begin at `first` or later. */
  ghost predicate InOrderFrom(ops: seq<Op>, first: int) {
    && (forall i :: 0 <= i < |ops| ==> first <= ops[i].time)
    && (forall i, j :: 0 <= i < j < |ops| ==> ops[i].time <= ops[j].time)
  }

  /** The part of a sum as of `last` that the documentation keeps at `time`: one less the elapsed
      part of the interval, and nothing once the whole interval has elapsed. */
  function Keep(interval: int, last: int, time: int): real
    requires interval > 0
  {
    var k := 1.0 - ((time - last) as real) / (interval as real);
    if k < 0.0 then 0.0 else k
  }

  /** Interval sum, count and rate as documented: each sample adds to what is kept of the value at
      the sample before it. `value` and `last` are those of the latest sample. */
  datatype Documented = Documented(sum: real, count: real, rate: real, value: real, last: int)

  function DocumentedStep(c: Config, d: Documented, v: real, t: int): Documented {
    var k := Keep(c.interval, d.last, t);
    Documented(v + k * d.sum, 1.0 + k * d.count, (v - d.value) + k * d.rate, v, t)
  }

  function Recurrence(c: Config, ops: seq<Op>): Documented {
    if ops == [] then Documented(0.0, 0.0, 0.0, 0.0, 0)
    else
      var d := Recurrence(c, ops[..|ops| - 1]);
      match ops[|ops| - 1]
      case Tick(_) => d
      case Sample(v, t) => DocumentedStep(c, d, v, t)
  }

  /** Decaying a sum straight from the time of its last sample keeps the documented part of it. */
  lemma ShiftIsKeep(interval: int, x: real, last: int, time: int)
    requires interval > 0 && last <= time
    ensures Shift(interval, last, x, last, time) == Keep(interval, last, time) * x
  {
    var i, a := interval as real, (time - last) as real;
    if last < time {
      if time - last < interval {
        DivideBetween(a, i, 0.0, 1.0);
        assert (last - (time - interval)) as real == i - a;
        assert x * (i - a) / i == (1.0 - a / i) * x by {
          assert (1.0 - a / i) * x * i == x * (i - a);
        }
      } else {
        DivideBetween(a, i, 1.0, a);
      }
    } else {
      assert a / i == 0.0;
    }
  }

  function Decayed(c: Config, x: real, last: int, time: int): real {
    Shift(c.interval, last, x, last, time)
  }

  /** The state in terms of the recurrence, at any moment of a run in order. */
  ghost predicate Tracks(c: Config, s: Stats, d: Documented) {
    && s.dataTimestamp == d.last && 0 <= d.last <= s.timestamp
    && (Computed(c, MovingSum) ==> s.movingSum == Decayed(c, d.sum, d.last, s.timestamp))
    && (Computed(c, MovingCount) ==> s.movingCount == Decayed(c, d.count, d.last, s.timestamp))
    && (Computed(c, Rate) ==> s.rate == Decayed(c, d.rate, d.last, s.timestamp) && s.value == d.value)
  }

  lemma DecayedOn(c: Config, x: real, last: int, now: int, t: int)
    requires last <= now
    ensures Shift(c.interval, now, Decayed(c, x, last, now), last, t) == Decayed(c, x, last, Later(now, t))
  {
    ShiftTwice(c.interval, last, x, last, now, t);
  }

  lemma SampleTracks(c: Config, s: Stats, d: Documented, v: real, t: int)
    requires StatsOk(c, s) && Computed(c, Timestamp) && Tracks(c, s, d) && s.timestamp <= t
    ensures Tracks(c, AfterUpdate(c, s, v, t),
                   Documented(v + Decayed(c, d.sum, d.last, t), 1.0 + Decayed(c, d.count, d.last, t),
                              (v - d.value) + Decayed(c, d.rate, d.last, t), v, t))
  {
    ComputedNeedsTime(c);
    DecayedOn(c, d.sum, d.last, s.timestamp, t);
    DecayedOn(c, d.count, d.last, s.timestamp, t);
    DecayedOn(c, d.rate, d.last, s.timestamp, t);
  }

  lemma TickTracks(c: Config, s: Stats, d: Documented, t: int)
    requires StatsOk(c, s) && Computed(c, Timestamp) && Tracks(c, s, d)
    ensures Tracks(c, AfterTime(c, s, t), d)
  {
    DecayedOn(c, d.sum, d.last, s.timestamp, t);
    DecayedOn(c, d.count, d.last, s.timestamp, t);
    DecayedOn(c, d.rate, d.last, s.timestamp, t);
  }

  lemma RecurrenceStep(c: Config, d: Documented, v: real, t: int)
    requires d.last <= t
    ensures DocumentedStep(c, d, v, t)
            == Documented(v + Decayed(c, d.sum, d.last, t), 1.0 + Decayed(c, d.count, d.last, t),
                          (v - d.value) + Decayed(c, d.rate, d.last, t), v, t)
  {
    ShiftIsKeep(c.interval, d.sum, d.last, t);
    ShiftIsKeep(c.interval, d.count, d.last, t);
    ShiftIsKeep(c.interval, d.rate, d.last, t);
  }

  ghost predicate NoLaterThan(ops: seq<Op>, t: int) {
    0 <= t && forall i :: 0 <= i < |ops| ==> ops[i].time <= t
  }

  lemma {:induction false} RunTimes(c: Config, ops: seq<Op>, t: int)
    requires NoLaterThan(ops, t)
    ensures Run(c, ops).timestamp <= t
  {
    if ops != [] {
      RunTimes(c, ops[..|ops| - 1], t);
    }
  }

  lemma {:induction false} RunTracks(c: Config, ops: seq<Op>)
    requires InOrderFrom(ops, 0) && Computed(c, Timestamp)
    ensures Tracks(c, Run(c, ops), Recurrence(c, ops))
  {
    if ops != [] {
      var init, op := ops[..|ops| - 1], ops[|ops| - 1];
      RunTracks(c, init);
      RunTimes(c, init, op.time);
      match op
      case Sample(v, t) =>
        SampleTracks(c, Run(c, init), Recurrence(c, init), v, t);
        RecurrenceStep(c, Recurrence(c, init), v, t);
      case Tick(t) => TickTracks(c, Run(c, init), Recurrence(c, init), t);
    }
  }

  /** Right after a sample the moving values are exactly those of the documented recurrence over the
      samples alone, however many advances of time were interleaved. */
  lemma {:induction false} SampleFollowsRecurrence(c: Config, ops: seq<Op>)
    requires InOrderFrom(ops, 0) && ops != [] && ops[|ops| - 1].Sample?
    ensures Computed(c, MovingSum) ==> Run(c, ops).movingSum == Recurrence(c, ops).sum
    ensures Computed(c, MovingCount) ==> Run(c, ops).movingCount == Recurrence(c, ops).count
    ensures Computed(c, Rate) ==> Run(c, ops).rate == Recurrence(c, ops).rate
  {
    ComputedNeedsTime(c);
    if Computed(c, Timestamp) {
      var init, op := ops[..|ops| - 1], ops[|ops| - 1];
      RunTracks(c, ops);
      RunTimes(c, init, op.time);
      assert Run(c, ops).timestamp == op.time == Recurrence(c, ops).last;
    }
  }

  /** In every run in order from `first` on, the moving sum and count follow the recurrence. */
  ghost predicate FollowedFrom(c: Config, first: int) {
    forall ops: seq<Op> :: InOrderFrom(ops, first) && ops != [] && ops[|ops| - 1].Sample? ==>
      && Run(c, ops).movingSum == Recurrence(c, ops).sum
      && Run(c, ops).movingCount == Recurrence(c, ops).count
  }

  lemma OneSample(c: Config, v: real, t: int)
    ensures Run(c, [Sample(v, t)]) == AfterUpdate(c, Reset(c), v, t)
    ensures Recurrence(c, [Sample(v, t)]) == DocumentedStep(c, Documented(0.0, 0.0, 0.0, 0.0, 0), v, t)
  {
    assert [Sample(v, t)][..0] == [];
  }

  lemma TwoSamples(c: Config, v: real, t: int, v': real, t': int)
    ensures Run(c, [Sample(v, t), Sample(v', t')]) == AfterUpdate(c, Run(c, [Sample(v, t)]), v', t')
    ensures Recurrence(c, [Sample(v, t), Sample(v', t')])
            == DocumentedStep(c, Recurrence(c, [Sample(v, t)]), v', t')
  {
    assert [Sample(v, t), Sample(v', t')][..1] == [Sample(v, t)];
  }

  /** The clock of the statistics starts at the epoch. A sample before it is late: dropped when it is
      older than the window, and otherwise kept whole until the epoch. */
  lemma BeforeEpochBreaks(c: Config, first: int)
    requires Computed(c, MovingSum) && first < 0
    ensures !FollowedFrom(c, first)
  {
    ComputedNeedsTime(c);
    var one := [Sample(1.0, first)];
    var two := [Sample(1.0, first), Sample(0.0, 0)];
    OneSample(c, 1.0, first);
    TwoSamples(c, 1.0, first, 0.0, 0);
    assert InOrderFrom(one, first) && InOrderFrom(two, first);
    if first < -c.interval {
      assert Run(c, one).movingSum == 0.0 && Recurrence(c, one).sum == 1.0;
    } else {
      assert Run(c, one).movingSum == 1.0 && Run(c, one).timestamp == 0;
      assert Run(c, two).movingSum == 1.0;
      KeepsLess(c.interval, first, 0);
      assert Recurrence(c, two).sum == Keep(c.interval, first, 0);
    }
  }

  lemma KeepsLess(interval: int, last: int, time: int)
    requires interval > 0 && last < time
    ensures Keep(interval, last, time) < 1.0
  {
    var a, i := (time - last) as real, interval as real;
    assert a / i * i == a;
  }

  /** The moving values follow the documented recurrence in all runs that begin at `first` or later
      exactly when that is not before the epoch. */
  lemma RecurrenceIff(c: Config, first: int)
    requires Computed(c, MovingSum) && Computed(c, MovingCount)
    ensures FollowedFrom(c, first) <==> 0 <= first
  {
    if first < 0 {
      BeforeEpochBreaks(c, first);
    } else {
      forall ops: seq<Op> | InOrderFrom(ops, first) && ops != [] && ops[|ops| - 1].Sample?
        ensures Run(c, ops).movingSum == Recurrence(c, ops).sum
        ensures Run(c, ops).movingCount == Recurrence(c, ops).count
      {
        SampleFollowsRecurrence(c, ops);
      }
    }
  }

  // ---- Bounds that hold in every run, late data included --------------------------------------

  ghost predicate ValuesWithin(ops: seq<Op>, lo: real, hi: real) {
    forall i :: 0 <= i < |ops| && ops[i].Sample? ==> lo <= ops[i].value <= hi
  }

  ghost predicate Bounded(count: real, sum: real, lo: real, hi: real) {
    count >= 0.0 && lo * count <= sum <= hi * count
  }

  lemma ScaleBounds(n: real, m: real, f: real, lo: real, hi: real)
    requires Bounded(n, m, lo, hi) && f >= 0.0
    ensures Bounded(n * f, m * f, lo, hi)
  {
    assert (m - lo * n) * f >= 0.0;
    assert (hi * n - m) * f >= 0.0;
  }

  lemma AddBounds(n: real, m: real, v: real, lo: real, hi: real)
    requires Bounded(n, m, lo, hi) && lo <= v <= hi
    ensures Bounded(1.0 + n, v + m, lo, hi)
    ensures Bounded(n + 1.0, m + v, lo, hi)
  {
    assert lo * (1.0 + n) == lo + lo * n && hi * (1.0 + n) == hi + hi * n;
  }

  lemma ShiftBounds(interval: int, now: int, n: real, m: real, last: int, t: int, lo: real, hi: real)
    requires Bounded(n, m, lo, hi)
    ensures Bounded(Shift(interval, now, n, last, t), Shift(interval, now, m, last, t), lo, hi)
  {
    ShiftIsFactor(interval, now, n, last, t);
    ShiftIsFactor(interval, now, m, last, t);
    ScaleBounds(n, m, Factor(interval, now, last, t), lo, hi);
  }

  lemma UpdateBounds(c: Config, now: int, n: real, m: real, last: int, v: real, t: int, lo: real, hi: real)
    requires Bounded(n, m, lo, hi) && lo <= v <= hi
    ensures Bounded(UpdateData(c, now, n, last, 1.0, t), UpdateData(c, now, m, last, v, t), lo, hi)
  {
    ShiftBounds(c.interval, now, n, m, last, t, lo, hi);
    AddBounds(n, m, v, lo, hi);
    AddBounds(Shift(c.interval, now, n, last, t), Shift(c.interval, now, m, last, t), v, lo, hi);
  }

  /** Whatever the times: the moving sum lies between `lo` and `hi` times the moving count. */
  lemma {:induction false} MovingBounds(c: Config, ops: seq<Op>, lo: real, hi: real)
    requires Computed(c, MovingCount) && Computed(c, MovingSum) && ValuesWithin(ops, lo, hi)
    ensures Bounded(Run(c, ops).movingCount, Run(c, ops).movingSum, lo, hi)
  {
    if ops == [] {
      assert lo * 0.0 == 0.0 && hi * 0.0 == 0.0;
    } else {
      var init, op := ops[..|ops| - 1], ops[|ops| - 1];
      MovingBounds(c, init, lo, hi);
      var s := Run(c, init);
      match op
      case Sample(v, t) =>
        UpdateBounds(c, s.timestamp, s.movingCount, s.movingSum, s.dataTimestamp, v, t, lo, hi);
      case Tick(t) =>
        ShiftBounds(c.interval, s.timestamp, s.movingCount, s.movingSum, s.dataTimestamp, t, lo, hi);
    }
  }

  lemma AverageBounds(n: real, m: real, lo: real, hi: real)
    requires Bounded(n, m, lo, hi) && n > 0.0
    ensures lo <= m / n <= hi
  {
    DivideBetween(m, n, lo, hi);
  }

  /** So a moving average that is not zero for want of data is an average of the values. */
  lemma MovingAverageBounds(c: Config, ops: seq<Op>, lo: real, hi: real)
    requires Computed(c, MovingAvg) && ValuesWithin(ops, lo, hi)
    ensures Run(c, ops).movingCount >= 0.0
    ensures if Run(c, ops).movingCount == 0.0 then MovingAverage(Run(c, ops)) == 0.0
            else lo <= MovingAverage(Run(c, ops)) <= hi
  {
    ComputedNeedsTime(c);
    MovingBounds(c, ops, lo, hi);
    if Run(c, ops).movingCount > 0.0 {
      AverageBounds(Run(c, ops).movingCount, Run(c, ops).movingSum, lo, hi);
    }
  }

  /** Once time is ahead of the data by more than the interval nothing is left in the window. */
  lemma {:induction false} WindowEmpties(c: Config, ops: seq<Op>)
    requires Computed(c, Timestamp)
    ensures var s := Run(c, ops);
            && s.dataTimestamp <= s.timestamp
            && (s.timestamp - s.dataTimestamp > c.interval ==>
                  && (Computed(c, MovingCount) ==> s.movingCount == 0.0)
                  && (Computed(c, MovingSum) ==> s.movingSum == 0.0)
                  && (Computed(c, Rate) ==> s.rate == 0.0))
  {
    if ops != [] {
      WindowEmpties(c, ops[..|ops| - 1]);
    }
  }

  /** The bins of any run stay inside the range of all values, sorted, non-negative and bounded. */
  lemma {:induction false} BinsWithin(c: Config, ops: seq<Op>, lo: real, hi: real)
    requires ValuesWithin(ops, lo, hi)
    ensures Within(Run(c, ops).histogram, lo, hi)
    ensures HistogramOk(Run(c, ops).histogram) && |Run(c, ops).histogram| <= c.bins
  {
    if ops != [] {
      var init, op := ops[..|ops| - 1], ops[|ops| - 1];
      BinsWithin(c, init, lo, hi);
      var s := Run(c, init);
      if op.Sample? && c.bins > 0 {
        UpdateBinsOk(c.interval, c.bins, s.timestamp, s.histogram, op.value, op.time);
      }
    }
  }

  // ---- The histogram never holds more than the window -----------------------------------------

  /** No sample is older than the window at the moment it arrives. */
  ghost predicate NoneTooOld(c: Config, ops: seq<Op>) {
    forall i :: 0 <= i < |ops| && ops[i].Sample? ==> Run(c, ops[..i]).timestamp - c.interval <= ops[i].time
  }

  ghost predicate NotNewerThan(h: seq<Bin>, t: int) {
    forall i :: 0 <= i < |h| ==> h[i].timestamp <= t
  }

  function Scaled(x: real, f: real): real { x * f }

  lemma ScaledSum(a: real, b: real, f: real)
    ensures Scaled(a + b, f) == Scaled(a, f) + Scaled(b, f)
  {
  }

  lemma ScaledOrder(a: real, b: real, f: real)
    requires a <= b && f >= 0.0
    ensures Scaled(a, f) <= Scaled(b, f)
  {
  }

  lemma ShiftBinsSnoc(interval: int, now: int, h: seq<Bin>, t: int)
    requires h != []
    ensures ShiftBins(interval, now, h, t)
            == ShiftBins(interval, now, h[..|h| - 1], t) + [ShiftBin(interval, now, h[|h| - 1], t)]
  {
  }

  lemma {:induction false} ShiftMass(interval: int, now: int, h: seq<Bin>, last: int, t: int)
    requires NonNegative(h) && NotNewerThan(h, last)
    ensures Mass(ShiftBins(interval, now, h, t)) <= Scaled(Mass(h), Factor(interval, now, last, t))
  {
    hide ShiftBins, ShiftBin, Shift, Factor, Scaled;
    var f := Factor(interval, now, last, t);
    if h == [] {
      NothingScaled(f);
      assert |ShiftBins(interval, now, h, t)| == 0;
    } else {
      var init, b := h[..|h| - 1], h[|h| - 1];
      ShiftMass(interval, now, init, last, t);
      BinMass(interval, now, b, last, t);
      ScaledSum(Mass(init), b.count, f);
      ShiftBinsSnoc(interval, now, h, t);
      SumsSnoc(ShiftBins(interval, now, init, t), ShiftBin(interval, now, b, t));
    }
  }

  lemma NothingScaled(f: real)
    ensures Scaled(0.0, f) == 0.0
  {
  }

  lemma BinMass(interval: int, now: int, b: Bin, last: int, t: int)
    requires b.count >= 0.0 && b.timestamp <= last
    ensures ShiftBin(interval, now, b, t).count <= Scaled(b.count, Factor(interval, now, last, t))
  {
    ShiftIsFactor(interval, now, b.count, b.timestamp, t);
    FactorMonotone(interval, now, b.timestamp, last, t);
    assert (Factor(interval, now, last, t) - Factor(interval, now, b.timestamp, t)) * b.count >= 0.0;
  }

  /** A merged bin takes the later of the two times, so merging never hastens decay: at any time it
      holds at least what the two would hold, and exactly what the later one's factor leaves of both. */
  lemma MergedDecaysNoFaster(interval: int, now: int, left: Bin, right: Bin, time: int)
    requires left.count >= 0.0 && right.count >= 0.0 && MergedBin(left, right).Ok?
    ensures var m := ShiftBin(interval, now, MergedBin(left, right).value, time);
            var late := Later(left.timestamp, right.timestamp);
            && ShiftBin(interval, now, left, time).count + ShiftBin(interval, now, right, time).count <= m.count
            && m.count == Scaled(left.count + right.count, Factor(interval, now, late, time))
  {
    hide Factor, Scaled, Shift;
    var m := MergedBin(left, right).value;
    var late := Later(left.timestamp, right.timestamp);
    var f := Factor(interval, now, late, time);
    BinMass(interval, now, left, late, time);
    BinMass(interval, now, right, late, time);
    ScaledSum(left.count, right.count, f);
    ShiftIsScaled(interval, now, m.count, m.timestamp, time);
    NothingScaled(f);
    NothingScaled(Factor(interval, now, m.timestamp, time));
  }

  /** Merging and pruning bring in no time newer than those there, save the epoch. */
  lemma ReducedNotNewer(bins: nat, h: seq<Bin>, t: int)
    requires HistogramOk(h) && NotNewerThan(h, t) && 0 <= t && Reduced(bins, h).Ok?
    ensures NotNewerThan(Reduced(bins, h).value, t)
  {
    if |h| > bins {
      PrunedOk(h);
      var p := Pruned(h);
      forall k | 0 <= k < |p| ensures p[k].timestamp <= t {
        assert p[k] in h;
      }
    }
  }

  lemma InsertedNotNewer(interval: int, now: int, h: seq<Bin>, v: real, time: int, t: int)
    requires NotNewerThan(h, t) && time <= t
    ensures NotNewerThan(Inserted(interval, now, h, v, time), t)
  {
    hide LowerBound, Shift;
  }

  lemma UpdatedNotNewer(c: Config, now: int, h: seq<Bin>, v: real, time: int, t: int)
    requires HistogramOk(h) && |h| <= c.bins && NotNewerThan(h, t) && 0 <= t && time <= t
    ensures NotNewerThan(UpdatedBins(c, now, h, v, time), t)
  {
    if c.bins > 0 {
      hide Reduced, Inserted, NotNewerThan;
      UpdateBinsOk(c.interval, c.bins, now, h, v, time);
      InsertedOk(c.interval, now, h, v, time);
      InsertedNotNewer(c.interval, now, h, v, time, t);
      ReducedNotNewer(c.bins, Inserted(c.interval, now, h, v, time), t);
    }
  }

  lemma FreshAtMostOne(interval: int, now: int, time: int)
    requires interval > 0
    ensures FreshWeight(interval, now, time) <= 1.0
  {
    if now < time {
      DivideBetween(interval as real, (interval + (time - now)) as real, 0.0, 1.0);
    }
  }

  lemma UpdatedMass(c: Config, s: Stats, v: real, t: int)
    requires StatsOk(c, s) && c.bins > 0
    requires NotNewerThan(s.histogram, s.dataTimestamp)
    requires Mass(s.histogram) <= s.movingCount
    requires s.timestamp - c.interval <= t
    ensures Mass(UpdatedBins(c, s.timestamp, s.histogram, v, t))
            <= UpdateData(c, s.timestamp, s.movingCount, s.dataTimestamp, 1.0, t)
  {
    UpdateBinsOk(c.interval, c.bins, s.timestamp, s.histogram, v, t);
    FreshAtMostOne(c.interval, s.timestamp, t);
    ShiftMassBound(c.interval, s.timestamp, s.histogram, s.movingCount, s.dataTimestamp, t);
  }

  lemma ShiftIsScaled(interval: int, now: int, data: real, last: int, t: int)
    ensures Shift(interval, now, data, last, t) == Scaled(data, Factor(interval, now, last, t))
    ensures Factor(interval, now, last, t) >= 0.0
  {
    ShiftIsFactor(interval, now, data, last, t);
  }

  lemma ShiftMassBound(interval: int, now: int, h: seq<Bin>, count: real, last: int, t: int)
    requires NonNegative(h) && NotNewerThan(h, last) && Mass(h) <= count
    ensures Mass(ShiftBins(interval, now, h, t)) <= Shift(interval, now, count, last, t)
  {
    hide Shift, Factor, Scaled, ShiftBins;
    ShiftMass(interval, now, h, last, t);
    ShiftIsScaled(interval, now, count, last, t);
    ScaledOrder(Mass(h), count, Factor(interval, now, last, t));
  }

  /** When no sample comes too late for the window, the bins together hold no more than the moving
      count. */
  lemma {:induction false} MassWithinCount(c: Config, ops: seq<Op>)
    requires Computed(c, MovingCount) && Computed(c, HistogramTag) && NoneTooOld(c, ops)
    ensures Mass(Run(c, ops).histogram) <= Run(c, ops).movingCount
    ensures NotNewerThan(Run(c, ops).histogram, Run(c, ops).dataTimestamp) && 0 <= Run(c, ops).dataTimestamp
  {
    ComputedNeedsTime(c);
    if ops != [] {
      var init, op := ops[..|ops| - 1], ops[|ops| - 1];
      forall i | 0 <= i < |init| && init[i].Sample?
        ensures Run(c, init[..i]).timestamp - c.interval <= init[i].time
      {
        assert init[..i] == ops[..i] && init[i] == ops[i];
      }
      MassWithinCount(c, init);
      assert ops[|ops| - 1] == op;
      StepMass(c, Run(c, init), op);
    }
  }

  lemma StepMass(c: Config, s: Stats, op: Op)
    requires StatsOk(c, s) && Computed(c, MovingCount) && Computed(c, HistogramTag) && Computed(c, Timestamp)
    requires Mass(s.histogram) <= s.movingCount
    requires NotNewerThan(s.histogram, s.dataTimestamp) && 0 <= s.dataTimestamp
    requires op.Sample? ==> s.timestamp - c.interval <= op.time
    ensures var s' := Step(c, s, op);
            && Mass(s'.histogram) <= s'.movingCount
            && NotNewerThan(s'.histogram, s'.dataTimestamp) && 0 <= s'.dataTimestamp
  {
    match op
    case Sample(v, t) =>
      UpdatedNotNewer(c, s.timestamp, s.histogram, v, t, Later(s.dataTimestamp, t));
      if c.bins > 0 {
        UpdatedMass(c, s, v, t);
      } else {
        ShiftMassBound(c.interval, s.timestamp, [], s.movingCount, s.dataTimestamp, t);
      }
    case Tick(t) =>
      ShiftMassBound(c.interval, s.timestamp, s.histogram, s.movingCount, s.dataTimestamp, t);
  }

  /** A sample older than the window is dropped from the count, yet gets a bin of weight one: the
      bins stay within the count exactly when there was room for one more. */
  lemma TooOldSampleStep(c: Config, s: Stats, v: real, t: int)
    requires StatsOk(c, s) && Computed(c, MovingCount) && Computed(c, HistogramTag) && c.bins > 0
    requires t < s.timestamp - c.interval
    ensures var s' := AfterUpdate(c, s, v, t);
            && s'.movingCount == s.movingCount && Mass(s'.histogram) == Mass(s.histogram) + 1.0
            && (Mass(s'.histogram) <= s'.movingCount <==> Mass(s.histogram) + 1.0 <= s.movingCount)
  {
    UpdateBinsOk(c.interval, c.bins, s.timestamp, s.histogram, v, t);
    assert ShiftBins(c.interval, s.timestamp, s.histogram, t) == s.histogram;
  }

  /** So the first sample, if it comes too late, already breaks the bound. */
  lemma TooOldSampleBreaksMass(c: Config, v: real, now: int, t: int)
    requires Computed(c, MovingCount) && Computed(c, HistogramTag) && c.bins > 0
    requires 0 <= now && t < now - c.interval
    ensures var s := Run(c, [Tick(now), Sample(v, t)]);
            s.movingCount == 0.0 && Mass(s.histogram) == 1.0
  {
    ComputedNeedsTime(c);
    OneTick(c, now);
    var s := Run(c, [Tick(now)]);
    assert [Tick(now), Sample(v, t)][..1] == [Tick(now)];
    TooOldSampleStep(c, s, v, t);
  }

  lemma OneTick(c: Config, now: int)
    requires Computed(c, Timestamp) && 0 <= now
    ensures var s := Run(c, [Tick(now)]);
            s.timestamp == now && s.histogram == [] && s.movingCount == 0.0
  {
    assert [Tick(now)][..0] == [];
    assert Run(c, [Tick(now)]) == AfterTime(c, Reset(c), now);
  }

  /** No sample is more than `late` behind the clock at the moment it arrives. */
  ghost predicate NoneLaterBy(c: Config, ops: seq<Op>, late: int) {
    forall i :: 0 <= i < |ops| && ops[i].Sample? ==> Run(c, ops[..i]).timestamp - late <= ops[i].time
  }

  ghost predicate MassBoundedFor(c: Config, late: int) {
    forall ops: seq<Op> :: NoneLaterBy(c, ops, late) ==> Mass(Run(c, ops).histogram) <= Run(c, ops).movingCount
  }

  /** How late samples may be for the bins never to exceed the count: up to the whole window, and no
      more. */
  lemma MassBoundIff(c: Config, late: int)
    requires Computed(c, MovingCount) && Computed(c, HistogramTag) && c.bins > 0
    ensures MassBoundedFor(c, late) <==> late <= c.interval
  {
    if late <= c.interval {
      forall ops: seq<Op> | NoneLaterBy(c, ops, late)
        ensures Mass(Run(c, ops).histogram) <= Run(c, ops).movingCount
      {
        assert NoneTooOld(c, ops);
        MassWithinCount(c, ops);
      }
    } else {
      var ops := [Tick(0), Sample(0.0, -late)];
      ComputedNeedsTime(c);
      OneTick(c, 0);
      TooOldSampleBreaksMass(c, 0.0, 0, -late);
      assert ops[..1] == [Tick(0)];
      assert NoneLaterBy(c, ops, late);
    }
  }

  // ---- Totals and extremes --------------------------------------------------------------------

  function SampleValues(ops: seq<Op>): seq<real> {
    if ops == [] then []
    else SampleValues(ops[..|ops| - 1]) + if ops[|ops| - 1].Sample? then [ops[|ops| - 1].value] else []
  }

  function SumOf(values: seq<real>): real {
    if values == [] then 0.0 else SumOf(values[..|values| - 1]) + values[|values| - 1]
  }

  lemma SampleValuesSnoc(ops: seq<Op>, v: real, t: int)
    requires ops != [] && ops[|ops| - 1] == Sample(v, t)
    ensures SampleValues(ops) == SampleValues(ops[..|ops| - 1]) + [v]
  {
  }

  /** Count, sum and value are those of all the samples, whatever their times. */
  lemma {:induction false} TotalsOfRun(c: Config, ops: seq<Op>)
    ensures var s, values := Run(c, ops), SampleValues(ops);
            && (Computed(c, Count) ==> s.count == |values|)
            && (Computed(c, Sum) ==> s.sum == SumOf(values))
            && (Computed(c, Value) && values != [] ==> s.value == values[|values| - 1])
  {
    hide Computed, UpdateData, UpdatedBins, ShiftedBins, Shift, Later;
    if ops != [] {
      var init, op := ops[..|ops| - 1], ops[|ops| - 1];
      TotalsOfRun(c, init);
      if op.Sample? {
        SampleValuesSnoc(ops, op.value, op.time);
        assert SampleValues(ops)[..|SampleValues(ops)| - 1] == SampleValues(init);
      } else {
        assert SampleValues(ops) == SampleValues(init);
      }
    }
  }

  /** `b` is one of the values, and none is greater. */
  ghost predicate IsLargest(values: seq<real>, b: real) {
    b in values && forall i :: 0 <= i < |values| ==> values[i] <= b
  }

  ghost predicate IsSmallest(values: seq<real>, b: real) {
    b in values && forall i :: 0 <= i < |values| ==> b <= values[i]
  }

  lemma LargestSnoc(values: seq<real>, b: real, v: real)
    requires IsLargest(values, b)
    ensures IsLargest(values + [v], if b < v then v else b)
  {
    var i :| 0 <= i < |values| && values[i] == b;
    assert (values + [v])[i] == b && (values + [v])[|values|] == v;
  }

  lemma SmallestSnoc(values: seq<real>, b: real, v: real)
    requires IsSmallest(values, b)
    ensures IsSmallest(values + [v], if v < b then v else b)
  {
    var i :| 0 <= i < |values| && values[i] == b;
    assert (values + [v])[i] == b && (values + [v])[|values|] == v;
  }

  lemma {:induction false} ExtremesOfRun(c: Config, ops: seq<Op>)
    ensures Computed(c, Max) ==> IsLargest([c.smallest] + SampleValues(ops), Run(c, ops).max)
    ensures Computed(c, Min) ==> IsSmallest([c.largest] + SampleValues(ops), Run(c, ops).min)
  {
    hide IsLargest, IsSmallest, Computed;
    if ops == [] {
      OneValue(c.smallest);
      OneValue(c.largest);
    } else {
      var init, op := ops[..|ops| - 1], ops[|ops| - 1];
      ExtremesOfRun(c, init);
      if op.Sample? {
        SampleValuesSnoc(ops, op.value, op.time);
        MoreValues(c.smallest, SampleValues(init), op.value);
        MoreValues(c.largest, SampleValues(init), op.value);
        if Computed(c, Max) {
          LargestSnoc([c.smallest] + SampleValues(init), Run(c, init).max, op.value);
        }
        if Computed(c, Min) {
          SmallestSnoc([c.largest] + SampleValues(init), Run(c, init).min, op.value);
        }
      } else {
        assert SampleValues(ops) == SampleValues(init);
      }
    }
  }

  lemma OneValue(b: real)
    ensures IsLargest([b] + [], b) && IsSmallest([b] + [], b)
  {
    assert ([b] + [])[0] == b;
  }

  lemma MoreValues(a: real, values: seq<real>, b: real)
    ensures [a] + (values + [b]) == ([a] + values) + [b]
  {
  }

  /** The maximum starts from the smallest positive value, not from the lowest one: it is right
      exactly when the largest sample is no smaller than that, so never for negative samples only.
      The minimum starts from the largest value and is right for every sample that is one. */
  lemma ExtremesAreRightIff(c: Config, ops: seq<Op>, smallest: real, largest: real)
    requires IsLargest(SampleValues(ops), largest) && IsSmallest(SampleValues(ops), smallest)
    ensures Computed(c, Max) ==> (Run(c, ops).max == largest <==> largest >= c.smallest)
    ensures Computed(c, Min) ==> (Run(c, ops).min == smallest <==> smallest <= c.largest)
  {
    ExtremesOfRun(c, ops);
    var values := SampleValues(ops);
    var i :| 0 <= i < |values| && values[i] == largest;
    var j :| 0 <= j < |values| && values[j] == smallest;
    assert ([c.smallest] + values)[i + 1] == largest && ([c.smallest] + values)[0] == c.smallest;
    assert ([c.largest] + values)[j + 1] == smallest && ([c.largest] + values)[0] == c.largest;
  }

  // ---- The times of a run ---------------------------------------------------------------------

  /** `t` is the latest of the epoch and the times of these operations, of the samples among them if
      `samplesOnly`. */
  ghost predicate IsLatestTime(ops: seq<Op>, samplesOnly: bool, t: int) {
    && 0 <= t
    && (forall i :: 0 <= i < |ops| && (ops[i].Sample? || !samplesOnly) ==> ops[i].time <= t)
    && (t == 0 || exists i :: 0 <= i < |ops| && (ops[i].Sample? || !samplesOnly) && ops[i].time == t)
  }

  lemma LatestTimeMore(ops: seq<Op>, op: Op, samplesOnly: bool, t: int)
    requires IsLatestTime(ops, samplesOnly, t)
    ensures IsLatestTime(ops + [op], samplesOnly, if op.Sample? || !samplesOnly then Later(t, op.time) else t)
  {
    var more := ops + [op];
    assert more[|ops|] == op;
    if t != 0 {
      var i :| 0 <= i < |ops| && (ops[i].Sample? || !samplesOnly) && ops[i].time == t;
      assert more[i] == ops[i];
    }
  }

  /** However late samples come, the clock is at the latest time of the run, and the time of the data
      is that of the latest sample. */
  lemma {:induction false} TimesOfRun(c: Config, ops: seq<Op>)
    ensures Computed(c, Timestamp) ==>
              && IsLatestTime(ops, false, Run(c, ops).timestamp)
              && IsLatestTime(ops, true, Run(c, ops).dataTimestamp)
    ensures !Computed(c, Timestamp) ==> Run(c, ops).timestamp == Run(c, ops).dataTimestamp == 0
  {
    hide Computed, IsLatestTime, UpdateData, UpdatedBins, ShiftedBins, Shift;
    if ops == [] {
      NoTimes();
    } else {
      var init, op := ops[..|ops| - 1], ops[|ops| - 1];
      TimesOfRun(c, init);
      if Computed(c, Timestamp) {
        assert ops == init + [op];
        LatestTimeMore(init, op, false, Run(c, init).timestamp);
        LatestTimeMore(init, op, true, Run(c, init).dataTimestamp);
      }
    }
  }

  lemma NoTimes()
    ensures IsLatestTime([], false, 0) && IsLatestTime([], true, 0)
  {
  }

  // ---- What a metric hands to its statistics --------------------------------------------------

  function RecordedSum(recorded: seq<Record>): int {
    if recorded == [] then 0 else RecordedSum(recorded[..|recorded| - 1]) + recorded[|recorded| - 1].value
  }

  lemma {:induction false} SampleValuesOf(recorded: seq<Record>)
    ensures var values := SampleValues(Samples(recorded));
            && |values| == |recorded|
            && (forall i :: 0 <= i < |recorded| ==> values[i] == recorded[i].value as real)
            && SumOf(values) == RecordedSum(recorded) as real
  {
    if recorded != [] {
      var init, r := recorded[..|recorded| - 1], recorded[|recorded| - 1];
      var ops := Samples(recorded);
      SampleValuesOf(init);
      assert ops[..|ops| - 1] == Samples(init);
      SampleValuesSnoc(ops, r.value as real, r.time);
      assert (SampleValues(Samples(init)) + [r.value as real])[..|init|] == SampleValues(Samples(init));
    }
  }

  /** Count, sum, value and times of the statistics are those of the records that a metric made. */
  lemma {:induction false} StatisticsOfRecords(c: Config, recorded: seq<Record>)
    ensures var s := Run(c, Samples(recorded));
            && (Computed(c, Count) ==> s.count == |recorded|)
            && (Computed(c, Sum) ==> s.sum == RecordedSum(recorded) as real)
            && (Computed(c, Value) && recorded != [] ==> s.value == recorded[|recorded| - 1].value as real)
            && (Computed(c, Timestamp) ==>
                  && 0 <= s.timestamp
                  && (forall i :: 0 <= i < |recorded| ==> recorded[i].time <= s.timestamp)
                  && (s.timestamp == 0 || exists i :: 0 <= i < |recorded| && recorded[i].time == s.timestamp))
  {
    hide Run, SampleValues, SumOf, RecordedSum, Computed;
    var ops := Samples(recorded);
    TotalsOfRun(c, ops);
    TimesOfRun(c, ops);
    SampleValuesOf(recorded);
    if Computed(c, Timestamp) {
      TimesOfSamples(recorded, Run(c, ops).timestamp);
    }
  }

  lemma TimesOfSamples(recorded: seq<Record>, t: int)
    requires IsLatestTime(Samples(recorded), false, t)
    ensures forall i :: 0 <= i < |recorded| ==> recorded[i].time <= t
    ensures t == 0 || exists i :: 0 <= i < |recorded| && recorded[i].time == t
  {
    forall i | 0 <= i < |recorded| ensures recorded[i].time <= t {
      assert Samples(recorded)[i].time == recorded[i].time;
    }
    if t != 0 {
      var i :| 0 <= i < |Samples(recorded)| && Samples(recorded)[i].time == t;
      assert recorded[i].time == t;
    }
  }

  // ---- Quantiles of a run ---------------------------------------------------------------------

  /** After any run a quantile can be read for every probability from zero up to but not including
      one: the histogram is always one that the read-out can deal with. */
  lemma {:induction false} QuantileOfRun(c: Config, ops: seq<Op>, p: real, sqrt: real -> real)
    requires IsSqrt(sqrt) && 0.0 <= p < 1.0
    ensures Q.At(Run(c, ops).histogram, p, sqrt).Ok?
  {
    var h := Run(c, ops).histogram;
    if |h| >= 2 && Mass(h) > 0.0 {
      Q.QuantileDefinedIff(h, p, sqrt);
    }
  }
}
