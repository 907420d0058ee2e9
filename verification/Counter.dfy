/** The counter: a fold over the events it is handed, which feeds its statistics as it goes. */
module Counter {
  import opened Events
  import opened Statistics
  import opened StatisticsRuns

  /** `updates` is what the statistics were handed since they were last cleared. */
  datatype CounterState = CounterState(value: int, timestamp: int, updates: seq<Record>)

  const Unset := CounterState(0, 0, [])

  function Initialised(value: int, timestamp: int): CounterState {
    CounterState(value, timestamp, [Record(value, timestamp)])
  }

  function Changed(s: CounterState, delta: int, timestamp: int): CounterState {
    var s1 := if s.timestamp == 0 then Initialised(0, timestamp) else s;
    var value, time := s1.value + delta, Later(s1.timestamp, timestamp);
    CounterState(value, time, s1.updates + [Record(value, time)])
  }

  function Delta(e: Event): int {
    match e
    case Increment(v, _) => v
    case Decrement(v, _) => -v
  }

  function Handled(s: CounterState, e: Event): CounterState {
    Changed(s, Delta(e), e.timestamp)
  }

  /** The counter after a sequence of events. */
  function Fold(events: seq<Event>): CounterState {
    if events == [] then Unset else Handled(Fold(events[..|events| - 1]), events[|events| - 1])
  }

  lemma OneRecord(r: Record)
    ensures RecordedSum([r]) == r.value
  {
    assert [r][..0] == [];
  }

  class CounterMetric {
    const values: IncrementalStatistics
    var value: int
    var timestamp: int
    ghost var updates: seq<Record>

    ghost predicate Valid()
      reads this, values
    {
      && values.Valid()
      && values.View() == Run(values.config, Samples(updates))
    }

    ghost function View(): CounterState
      reads this
    {
      CounterState(value, timestamp, updates)
    }

    constructor (config: Config)
      ensures Valid() && View() == Unset && values.config == config && fresh(values)
    {
      values := new IncrementalStatistics(config);
      value := 0;
      timestamp := 0;
      updates := [];
    }

    /** `m_values.update(m_value, m_timestamp)` */
    method Feed()
      requires Valid()
      modifies values, `updates
      ensures Valid()
      ensures updates == old(updates) + [Record(value, timestamp)]
    {
      values.Update(value as real, timestamp);
      updates := updates + [Record(value, timestamp)];
      assert Samples(updates)[..|updates| - 1] == Samples(old(updates));
    }

    /** The statistics count and add up the updates since they were last cleared. */
    lemma StatisticsAreOfUpdates()
      requires Valid()
      ensures Computed(values.config, Count) ==> values.count == |updates|
      ensures Computed(values.config, Sum) ==> values.sum == RecordedSum(updates) as real
      ensures Computed(values.config, Value) && updates != [] ==>
                values.value == updates[|updates| - 1].value as real
    {
      hide Run, Computed, RecordedSum;
      StatisticsOfRecords(values.config, updates);
    }

    /** Whatever was before is gone: the statistics are those of the initial value alone. */
    method Init(initValue: int, time: int)
      requires Valid()
      modifies this, values
      ensures Valid() && View() == Initialised(initValue, time)
      ensures value == initValue && timestamp == time && updates == [Record(initValue, time)]
      ensures Computed(values.config, Count) ==> values.count == 1
      ensures Computed(values.config, Sum) ==> values.sum == initValue as real
      ensures Computed(values.config, Value) ==> values.value == initValue as real
    {
      hide Run, Computed, RecordedSum;
      value := initValue;
      timestamp := time;
      ClearValues();
      Feed();
      assert updates == [Record(initValue, time)];
      OneRecord(Record(initValue, time));
      StatisticsAreOfUpdates();
    }

    method ClearValues()
      modifies values, `updates
      ensures Valid() && updates == []
    {
      values.Clear();
      updates := [];
    }

    method Change(delta: int, time: int)
      requires Valid()
      modifies this, values
      ensures Valid() && View() == Changed(old(View()), delta, time)
    {
      hide Run;
      if timestamp == 0 {
        Init(0, time);
      }
      value := value + delta;
      if timestamp < time {
        timestamp := time;
      }
      Feed();
    }

    method Increment(v: int, time: int)
      requires Valid()
      modifies this, values
      ensures Valid() && View() == Handled(old(View()), Event.Increment(v, time))
    {
      Change(v, time);
    }

    method Decrement(v: int, time: int)
      requires Valid()
      modifies this, values
      ensures Valid() && View() == Handled(old(View()), Event.Decrement(v, time))
    {
      Change(-v, time);
    }

    /** The dispatch on the kind of event. */
    method Process(e: Event)
      requires Valid()
      modifies this, values
      ensures Valid() && View() == Handled(old(View()), e)
    {
      match e
      case Increment(v, t) => Increment(v, t);
      case Decrement(v, t) => Decrement(v, t);
    }
  }

  // ---- What the fold computes -----------------------------------------------------------------

  function Total(events: seq<Event>): int {
    if events == [] then 0 else Total(events[..|events| - 1]) + Delta(events[|events| - 1])
  }

  /** What the increments add, and what the decrements take. */
  function Added(events: seq<Event>): int {
    if events == [] then 0
    else Added(events[..|events| - 1]) + match events[|events| - 1]
                                         case Increment(v, _) => v
                                         case Decrement(_, _) => 0
  }

  function Taken(events: seq<Event>): int {
    if events == [] then 0
    else Taken(events[..|events| - 1]) + match events[|events| - 1]
                                         case Increment(_, _) => 0
                                         case Decrement(v, _) => v
  }

  lemma {:induction false} TotalIs(events: seq<Event>)
    ensures Total(events) == Added(events) - Taken(events)
  {
    if events != [] {
      TotalIs(events[..|events| - 1]);
    }
  }

  ghost predicate NoneAtZero(events: seq<Event>) {
    forall i :: 0 <= i < |events| ==> events[i].timestamp != 0
  }

  ghost predicate IsLatest(events: seq<Event>, t: int) {
    && (exists i :: 0 <= i < |events| && events[i].timestamp == t)
    && (forall i :: 0 <= i < |events| ==> events[i].timestamp <= t)
  }

  ghost predicate TimesInOrder(updates: seq<Record>) {
    forall i, j :: 0 <= i <= j < |updates| ==> updates[i].time <= updates[j].time
  }

  lemma IsLatestSnoc(events: seq<Event>, e: Event, t: int)
    requires IsLatest(events, t)
    ensures IsLatest(events + [e], Later(t, e.timestamp))
  {
    var i :| 0 <= i < |events| && events[i].timestamp == t;
    assert (events + [e])[i].timestamp == t;
    assert (events + [e])[|events|] == e;
  }

  /** The event at `z` leaves the counter at time zero, which it takes for being unset: another event
      comes, and none up to `z` had a positive time. */
  ghost predicate ForgetsAt(events: seq<Event>, z: int) {
    && 0 <= z < |events| - 1
    && events[z].timestamp == 0
    && (forall i :: 0 <= i < z ==> events[i].timestamp <= 0)
  }

  ghost predicate Forgets(events: seq<Event>) {
    exists z :: ForgetsAt(events, z)
  }

  lemma ForgetsMore(events: seq<Event>)
    requires events != [] && Forgets(events[..|events| - 1])
    ensures Forgets(events)
  {
    var z :| ForgetsAt(events[..|events| - 1], z);
    assert ForgetsAt(events, z);
  }

  /** A counter that has forgotten nothing and is at time zero forgets everything next. */
  lemma ZeroForgets(events: seq<Event>)
    requires |events| > 1 && IsLatest(events[..|events| - 1], 0)
    ensures Forgets(events)
  {
    var init := events[..|events| - 1];
    var z :| 0 <= z < |init| && init[z].timestamp == 0;
    assert forall i :: 0 <= i < |init| ==> init[i] == events[i];
    assert ForgetsAt(events, z);
  }

  lemma {:induction false} FoldTotals(events: seq<Event>)
    requires events != [] && !Forgets(events)
    ensures var s := Fold(events);
            && s.value == Total(events)
            && IsLatest(events, s.timestamp)
            && |s.updates| == |events| + 1
            && s.updates[|events|] == Record(s.value, s.timestamp)
  {
    var init, e := events[..|events| - 1], events[|events| - 1];
    if init == [] {
      assert Fold(events) == Changed(Unset, Delta(e), e.timestamp);
      assert events[0] == e;
    } else {
      if Forgets(init) {
        ForgetsMore(events);
      }
      FoldTotals(init);
      if Fold(init).timestamp == 0 {
        ZeroForgets(events);
      }
      IsLatestSnoc(init, e, Fold(init).timestamp);
      hide IsLatest, Forgets;
      assert init + [e] == events;
    }
  }

  /** Handling one more event adds one update, and before the first one the update to zero. */
  lemma {:induction false} FoldStep(events: seq<Event>)
    requires |events| > 1 && !Forgets(events)
    ensures var before, s := Fold(events[..|events| - 1]), Fold(events);
            s.updates == before.updates + [Record(s.value, s.timestamp)] && before.timestamp <= s.timestamp
  {
    if Forgets(events[..|events| - 1]) {
      ForgetsMore(events);
    }
    FoldTotals(events[..|events| - 1]);
    if Fold(events[..|events| - 1]).timestamp == 0 {
      ZeroForgets(events);
    }
  }

  lemma {:induction false} FoldPartialSums(events: seq<Event>)
    requires events != [] && !Forgets(events)
    ensures var s := Fold(events);
            && |s.updates| == |events| + 1
            && s.updates[0] == Record(0, events[0].timestamp)
            && (forall k :: 1 <= k <= |events| ==> s.updates[k].value == Total(events[..k]))
            && TimesInOrder(s.updates)
            && s.updates[|events|].time == s.timestamp
  {
    FoldTotals(events);
    assert events[..|events|] == events;
    if |events| == 1 {
      assert Fold(events) == Changed(Unset, Delta(events[0]), events[0].timestamp) by {
        assert Fold(events[..0]) == Unset;
      }
    } else {
      var init := events[..|events| - 1];
      if Forgets(init) {
        ForgetsMore(events);
      }
      FoldPartialSums(init);
      FoldStep(events);
      hide Fold, IsLatest, Total, Forgets;
      forall k | 1 <= k <= |init| ensures events[..k] == init[..k] {
      }
    }
  }

  /** Unless something is forgotten, events leave the counter at what the increments added less what
      the decrements took, and at their latest time; the statistics are handed the initial zero and
      then the counter after each event, one more update than there were events, in non-decreasing
      time. */
  lemma {:induction false} FoldSums(events: seq<Event>)
    requires events != [] && !Forgets(events)
    ensures var s := Fold(events);
            && s.value == Added(events) - Taken(events)
            && IsLatest(events, s.timestamp)
            && |s.updates| == |events| + 1
            && s.updates[0] == Record(0, events[0].timestamp)
            && (forall k :: 1 <= k <= |events| ==> s.updates[k].value == Added(events[..k]) - Taken(events[..k]))
            && TimesInOrder(s.updates)
            && s.updates[|events|].time == s.timestamp
  {
    hide Fold, Total, IsLatest, Forgets, TimesInOrder, Added, Taken;
    FoldTotals(events);
    FoldPartialSums(events);
    TotalIs(events);
    forall k | 1 <= k <= |events| ensures Total(events[..k]) == Added(events[..k]) - Taken(events[..k]) {
      TotalIs(events[..k]);
    }
  }

  // ---- What an event at time zero does --------------------------------------------------------

  /** No positive time leaves the counter with none, and a time of zero then leaves it at zero. */
  lemma {:induction false} FoldNotPositive(events: seq<Event>)
    requires forall i :: 0 <= i < |events| ==> events[i].timestamp <= 0
    ensures Fold(events).timestamp <= 0
    ensures events != [] && events[|events| - 1].timestamp == 0 ==> Fold(events).timestamp == 0
  {
    if events != [] {
      FoldNotPositive(events[..|events| - 1]);
    }
  }

  /** Then everything up to that event is forgotten, in the value, the time and the statistics. */
  lemma {:induction false} ForgottenPrefix(events: seq<Event>, z: nat)
    requires ForgetsAt(events, z)
    ensures Fold(events) == Fold(events[z + 1..])
  {
    var init, e := events[..|events| - 1], events[|events| - 1];
    var rest := events[z + 1..];
    assert rest[..|rest| - 1] == init[z + 1..] && rest[|rest| - 1] == e;
    if z == |events| - 2 {
      assert init[z + 1..] == [];
      FoldNotPositive(init);
    } else {
      assert ForgetsAt(init, z);
      ForgottenPrefix(init, z);
    }
  }

  /** What the counter remembers: from the last thing it forgot on, everything. */
  lemma {:induction false} FoldRemembers(events: seq<Event>) returns (r: nat)
    requires events != []
    ensures r < |events| && Fold(events) == Fold(events[r..]) && !Forgets(events[r..])
    ensures r == 0 <==> !Forgets(events)
    decreases |events|
  {
    if Forgets(events) {
      var z :| ForgetsAt(events, z);
      ForgottenPrefix(events, z);
      r := FoldRemembers(events[z + 1..]);
      assert events[z + 1..][r..] == events[z + 1 + r..];
      r := z + 1 + r;
    } else {
      r := 0;
      assert events[0..] == events;
    }
  }

  /** All events are accounted for, each with its update, exactly when none is forgotten. */
  lemma AllCountedIff(events: seq<Event>)
    requires events != []
    ensures |Fold(events).updates| == |events| + 1 <==> !Forgets(events)
  {
    var r := FoldRemembers(events);
    FoldTotals(events[r..]);
  }

  // ---- The order does not matter --------------------------------------------------------------

  lemma TotalSnoc(a: seq<Event>, x: Event)
    ensures Total(a + [x]) == Total(a) + Delta(x)
  {
    assert (a + [x])[..|a|] == a;
  }

  lemma {:induction false} TotalConcat(a: seq<Event>, b: seq<Event>)
    ensures Total(a + b) == Total(a) + Total(b)
  {
    if b == [] {
      assert a + b == a;
    } else {
      var b', x := b[..|b| - 1], b[|b| - 1];
      TotalConcat(a, b');
      TotalSnoc(a + b', x);
      assert a + b == a + b' + [x];
    }
  }

  /** Taking an element out of the middle. */
  lemma TotalWithout(l: seq<Event>, x: Event, r: seq<Event>)
    ensures Total(l + [x] + r) == Total(l + r) + Delta(x)
    ensures multiset(l + r) == multiset(l + [x] + r) - multiset{x}
  {
    TotalConcat(l, r);
    TotalSnoc(l, x);
    TotalConcat(l + [x], r);
  }

  /** A sum does not depend on the order. */
  lemma {:induction false} TotalOfPermutation(a: seq<Event>, b: seq<Event>)
    requires multiset(a) == multiset(b)
    ensures Total(a) == Total(b) && |a| == |b|
    decreases |a|
  {
    assert |multiset(a)| == |a| && |multiset(b)| == |b|;
    if a != [] {
      var a', x := a[..|a| - 1], a[|a| - 1];
      assert a == a' + [x];
      assert x in multiset(b);
      var i :| 0 <= i < |b| && b[i] == x;
      var l, r := b[..i], b[i + 1..];
      assert b == l + [x] + r;
      TotalWithout(l, x, r);
      assert multiset(a') == multiset(a) - multiset{x};
      TotalOfPermutation(a', l + r);
    }
  }

  lemma LatestOfPermutation(a: seq<Event>, b: seq<Event>, t: int)
    requires multiset(a) == multiset(b) && IsLatest(a, t)
    ensures IsLatest(b, t)
  {
    forall i | 0 <= i < |b| ensures b[i].timestamp <= t {
      assert b[i] in multiset(a);
    }
    var i :| 0 <= i < |a| && a[i].timestamp == t;
    assert a[i] in multiset(b);
    var j :| 0 <= j < |b| && b[j] == a[i];
    assert b[j].timestamp == t;
  }

  /** No order of these events makes the counter forget one. */
  ghost predicate Orderless(events: seq<Event>) {
    |events| == 1 || NoneAtZero(events)
  }

  lemma OrderlessForgetsNothing(events: seq<Event>, handled: seq<Event>)
    requires multiset(handled) == multiset(events) && Orderless(events)
    ensures |handled| == |events| && !Forgets(handled)
  {
    TotalOfPermutation(handled, events);
    if NoneAtZero(events) {
      forall i | 0 <= i < |handled| ensures handled[i].timestamp != 0 {
        assert handled[i] in multiset(events);
      }
    }
  }

  /** Handling the same events in any order leaves the same value and time, after as many updates. */
  lemma {:induction false} FoldOfPermutation(events: seq<Event>, handled: seq<Event>)
    requires multiset(handled) == multiset(events) && Orderless(events) && events != []
    ensures var s := Fold(handled);
            && s.value == Added(events) - Taken(events)
            && IsLatest(events, s.timestamp)
            && |s.updates| == |events| + 1
            && TimesInOrder(s.updates)
  {
    hide Forgets, Orderless, Fold, Added, Taken;
    TotalOfPermutation(handled, events);
    TotalIs(handled);
    TotalIs(events);
    OrderlessForgetsNothing(events, handled);
    FoldSums(handled);
    LatestOfPermutation(handled, events, Fold(handled).timestamp);
  }

  /** In every order of these events all of them are accounted for. */
  ghost predicate CountedInEveryOrder(events: seq<Event>) {
    forall handled: seq<Event> :: multiset(handled) == multiset(events) ==>
      |Fold(handled).updates| == |events| + 1
  }

  lemma ZeroFirst(l: seq<Event>, e: Event, r: seq<Event>)
    requires e.timestamp == 0 && l + r != []
    ensures var handled := [e] + (l + r);
            && multiset(handled) == multiset(l + [e] + r)
            && |Fold(handled).updates| != |l + [e] + r| + 1
  {
    var handled := [e] + (l + r);
    assert ForgetsAt(handled, 0);
    AllCountedIff(handled);
  }

  /** With two events or more, one of them at time zero, the order in which that one comes first
      forgets it; otherwise no order forgets any. */
  lemma CountedInEveryOrderIff(events: seq<Event>)
    requires events != []
    ensures CountedInEveryOrder(events) <==> Orderless(events)
  {
    if Orderless(events) {
      forall handled: seq<Event> | multiset(handled) == multiset(events)
        ensures |Fold(handled).updates| == |events| + 1
      {
        FoldOfPermutation(events, handled);
      }
    } else {
      var z :| 0 <= z < |events| && events[z].timestamp == 0;
      ZeroFirst(events[..z], events[z], events[z + 1..]);
      assert events == events[..z] + [events[z]] + events[z + 1..];
    }
  }
}
