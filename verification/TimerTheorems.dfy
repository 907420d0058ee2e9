/** What the timer records and how much it remembers when times never go back. */
module TimerTheorems {
  import opened Wrappers
  import opened StatisticsRuns
  import opened Timer

  /** Times never go back. */
  ghost predicate InOrder(calls: seq<Call>) {
    forall i, j :: 0 <= i <= j < |calls| ==> calls[i].time <= calls[j].time
  }

  // ---- When the sweep cannot be seen ----------------------------------------------------------

  /** The same timer with no sweep. */
  function RunUnswept(idle: int, calls: seq<Call>): TimerState {
    if calls == [] then Initial
    else Effect(RunUnswept(idle, calls[..|calls| - 1]), idle, calls[|calls| - 1])
  }

  lemma NoCalls(idle: int)
    ensures RunCalls(idle, []) == RunUnswept(idle, []) == Initial
  {
  }

  lemma OneMoreCall(idle: int, init: seq<Call>, call: Call)
    ensures RunCalls(idle, init + [call]) == Apply(RunCalls(idle, init), idle, call)
    ensures RunUnswept(idle, init + [call]) == Effect(RunUnswept(idle, init), idle, call)
  {
    assert (init + [call])[..|init|] == init;
  }

  function TimesOf(calls: seq<Call>): seq<int> {
    seq(|calls|, i requires 0 <= i < |calls| => calls[i].time)
  }

  /** How long an instance lives on without a sign of life; `expired` never applies at the time of
      the last one. */
  function Patience(idle: int): nat { if idle < 0 then 0 else idle }

  /** At `j` time is past the patience with `i`, and at `k` it is back within it. */
  ghost predicate TurnsBackAt(times: seq<int>, patience: nat, i: int, j: int, k: int) {
    0 <= i < j < k < |times| && times[k] <= times[i] + patience < times[j]
  }

  ghost predicate TurnsBack(times: seq<int>, patience: nat) {
    exists i, j, k :: TurnsBackAt(times, patience, i, j, k)
  }

  /** `h` is one of the times. */
  ghost predicate Stamped(times: seq<int>, h: int) {
    exists i :: 0 <= i < |times| && times[i] == h
  }

  /** After one of the times was `h`, another was past the patience with it. */
  ghost predicate Passed(times: seq<int>, patience: nat, h: int) {
    exists i, j :: 0 <= i < j < |times| && times[i] == h && h + patience < times[j]
  }

  lemma StampedMore(times: seq<int>, time: int, h: int)
    ensures Stamped(times + [time], time)
    ensures Stamped(times, h) ==> Stamped(times + [time], h)
  {
    assert (times + [time])[|times|] == time;
    if Stamped(times, h) {
      var i :| 0 <= i < |times| && times[i] == h;
      assert (times + [time])[i] == h;
    }
  }

  lemma PassedMore(times: seq<int>, patience: nat, time: int, h: int)
    ensures Passed(times, patience, h) ==> Passed(times + [time], patience, h)
    ensures Stamped(times, h) && h + patience < time ==> Passed(times + [time], patience, h)
  {
    var more := times + [time];
    assert more[|times|] == time;
    if Passed(times, patience, h) {
      var i, j :| 0 <= i < j < |times| && times[i] == h && h + patience < times[j];
      assert more[i] == h && more[j] == times[j];
    }
    if Stamped(times, h) {
      var i :| 0 <= i < |times| && times[i] == h;
      assert more[i] == h;
    }
  }

  /** What has passed once stays passed when time does not turn back. */
  lemma PassedStays(times: seq<int>, patience: nat, time: int, h: int)
    requires Passed(times, patience, h) && !TurnsBack(times + [time], patience)
    ensures h + patience < time
  {
    var i, j :| 0 <= i < j < |times| && times[i] == h && h + patience < times[j];
    assert !TurnsBackAt(times + [time], patience, i, j, |times|);
  }

  /** The swept timer agrees with the unswept one, save for instances whose time has passed. */
  ghost predicate Agrees(s: TimerState, u: TimerState, patience: nat, times: seq<int>) {
    && s.recorded == u.recorded
    && (forall id :: id in s.instances ==> id in u.instances && s.instances[id] == u.instances[id])
    && (forall id :: id in u.instances ==> Stamped(times, u.instances[id].heartbeat))
    && (forall id :: id in u.instances && id !in s.instances ==> Passed(times, patience, u.instances[id].heartbeat))
  }

  lemma SweepAgrees(s: TimerState, u: TimerState, idle: int, times: seq<int>, time: int, force: bool)
    requires Agrees(s, u, Patience(idle), times)
    ensures Agrees(Sweep(s, idle, time, force), u, Patience(idle), times + [time])
  {
    hide Stamped, Passed;
    forall id | id in u.instances
      ensures Stamped(times + [time], u.instances[id].heartbeat)
      ensures id !in Sweep(s, idle, time, force).instances ==>
                Passed(times + [time], Patience(idle), u.instances[id].heartbeat)
    {
      StampedMore(times, time, u.instances[id].heartbeat);
      PassedMore(times, Patience(idle), time, u.instances[id].heartbeat);
    }
  }

  /** Every instance that only the unswept timer still holds has expired by now. */
  ghost predicate RestExpired(s: TimerState, u: TimerState, idle: int, time: int) {
    forall id :: id in u.instances && id !in s.instances ==> Expired(u.instances[id], idle, time)
  }

  lemma SweepRestExpired(s: TimerState, u: TimerState, idle: int, times: seq<int>, time: int, force: bool)
    requires Agrees(s, u, Patience(idle), times) && !TurnsBack(times + [time], Patience(idle))
    ensures RestExpired(Sweep(s, idle, time, force), u, idle, time)
  {
    hide Stamped, Passed, TurnsBack;
    forall id | id in u.instances && id !in s.instances ensures Expired(u.instances[id], idle, time) {
      PassedStays(times, Patience(idle), time, u.instances[id].heartbeat);
    }
  }

  lemma EffectAgrees(s: TimerState, u: TimerState, idle: int, call: Call, times: seq<int>)
    requires Agrees(s, u, Patience(idle), times) && Stamped(times, call.time)
    requires call.Set? || RestExpired(s, u, idle, call.time)
    ensures Agrees(Effect(s, idle, call), Effect(u, idle, call), Patience(idle), times)
  {
    hide Stamped, Passed;
  }

  lemma NoTurnInPrefix(times: seq<int>, time: int, patience: nat)
    requires TurnsBack(times, patience)
    ensures TurnsBack(times + [time], patience)
  {
    var i, j, k :| TurnsBackAt(times, patience, i, j, k);
    assert TurnsBackAt(times + [time], patience, i, j, k);
  }

  lemma SetAgrees(s: TimerState, u: TimerState, patience: nat, times: seq<int>, time: int)
    requires Agrees(s, u, patience, times)
    ensures Agrees(s, u, patience, times + [time])
  {
    hide Stamped, Passed;
    forall id | id in u.instances
      ensures Stamped(times + [time], u.instances[id].heartbeat)
      ensures id !in s.instances ==> Passed(times + [time], patience, u.instances[id].heartbeat)
    {
      StampedMore(times, time, u.instances[id].heartbeat);
      PassedMore(times, patience, time, u.instances[id].heartbeat);
    }
  }

  lemma {:induction false} RunAgrees(idle: int, calls: seq<Call>)
    requires !TurnsBack(TimesOf(calls), Patience(idle))
    ensures Agrees(RunCalls(idle, calls), RunUnswept(idle, calls), Patience(idle), TimesOf(calls))
  {
    if calls != [] {
      hide TurnsBack, Agrees, Effect, Sweep;
      var init, call := calls[..|calls| - 1], calls[|calls| - 1];
      var times, force := TimesOf(init), call.CheckIdle? && call.force;
      assert TimesOf(calls) == times + [call.time];
      if TurnsBack(times, Patience(idle)) {
        NoTurnInPrefix(times, call.time, Patience(idle));
      }
      RunAgrees(idle, init);
      var s, u := RunCalls(idle, init), RunUnswept(idle, init);
      StampedMore(times, call.time, call.time);
      if call.Set? {
        SetAgrees(s, u, Patience(idle), times, call.time);
        EffectAgrees(s, u, idle, call, times + [call.time]);
      } else {
        SweepAgrees(s, u, idle, times, call.time, force);
        SweepRestExpired(s, u, idle, times, call.time, force);
        EffectAgrees(Sweep(s, idle, call.time, force), u, idle, call, times + [call.time]);
      }
    }
  }

  // ---- When it can ----------------------------------------------------------------------------

  /** One instance starts at `i`, is swept at `j` and stops at `k`; all other calls leave it alone. */
  function RevealingCall(times: seq<int>, i: nat, j: nat, k: nat, n: nat): Call
    requires n < |times|
  {
    if n == i then Start(1, times[n])
    else if n == j then CheckIdle(true, times[n])
    else if n == k then Stop(1, times[n])
    else Set(0, times[n])
  }

  function RevealingRun(times: seq<int>, i: nat, j: nat, k: nat): seq<Call> {
    seq(|times|, n requires 0 <= n < |times| => RevealingCall(times, i, j, k, n))
  }

  /** Where the two timers are after `n` calls of this run. */
  ghost predicate Phase(s: TimerState, u: TimerState, times: seq<int>, i: nat, j: nat, k: nat, n: nat)
    requires i < |times|
  {
    var one := map[1 := Instance(times[i], times[i])];
    && |u.recorded| == |s.recorded| + (if n <= k then 0 else 1)
    && (n <= k ==> u.instances == if n <= i then map[] else one)
    && (n <= k ==> s.instances == if n <= i || j < n then map[] else one)
  }

  lemma PhaseStep(s: TimerState, u: TimerState, idle: int, times: seq<int>, i: nat, j: nat, k: nat, n: nat)
    requires TurnsBackAt(times, Patience(idle), i, j, k) && n < |times|
    requires Phase(s, u, times, i, j, k, n)
    ensures var call := RevealingCall(times, i, j, k, n);
            Phase(Apply(s, idle, call), Effect(u, idle, call), times, i, j, k, n + 1)
  {
    if n == i {
      assert Sweep(s, idle, times[n], false).instances == map[];
    }
  }

  lemma {:induction false} RevealingPhase(idle: int, times: seq<int>, i: nat, j: nat, k: nat, n: nat)
    requires TurnsBackAt(times, Patience(idle), i, j, k) && n <= |times|
    ensures var calls := RevealingRun(times, i, j, k)[..n];
            Phase(RunCalls(idle, calls), RunUnswept(idle, calls), times, i, j, k, n)
  {
    hide Apply, Effect;
    var calls := RevealingRun(times, i, j, k);
    if n == 0 {
      NoCalls(idle);
    } else {
      RevealingPhase(idle, times, i, j, k, n - 1);
      assert calls[..n] == calls[..n - 1] + [RevealingCall(times, i, j, k, n - 1)];
      OneMoreCall(idle, calls[..n - 1], RevealingCall(times, i, j, k, n - 1));
      PhaseStep(RunCalls(idle, calls[..n - 1]), RunUnswept(idle, calls[..n - 1]), idle, times, i, j, k, n - 1);
    }
  }

  /** With times that turn back the sweep can be seen: it has already removed an instance whose stop
      then arrives within the timeout. */
  lemma SweepIsVisibleOutOfOrder(idle: int, times: seq<int>, i: nat, j: nat, k: nat)
    requires TurnsBackAt(times, Patience(idle), i, j, k)
    ensures var calls := RevealingRun(times, i, j, k);
            && TimesOf(calls) == times
            && |RunUnswept(idle, calls).recorded| == |RunCalls(idle, calls).recorded| + 1
  {
    var calls := RevealingRun(times, i, j, k);
    RevealingPhase(idle, times, i, j, k, |times|);
    assert calls[..|times|] == calls;
  }

  /** Whatever calls come at these times, the swept timer records what the unswept one records. */
  ghost predicate InvisibleAt(idle: int, times: seq<int>) {
    forall calls: seq<Call> :: TimesOf(calls) == times ==>
      RunCalls(idle, calls).recorded == RunUnswept(idle, calls).recorded
  }

  /** The times alone decide whether sweeping changes anything that is ever recorded: it never does
      exactly when no time past the timeout of a call is followed by one back within it. */
  lemma InvisibleIff(idle: int, times: seq<int>)
    ensures InvisibleAt(idle, times) <==> !TurnsBack(times, Patience(idle))
  {
    if TurnsBack(times, Patience(idle)) {
      var i, j, k :| TurnsBackAt(times, Patience(idle), i, j, k);
      SweepIsVisibleOutOfOrder(idle, times, i, j, k);
      assert TimesOf(RevealingRun(times, i, j, k)) == times;
    } else {
      forall calls: seq<Call> | TimesOf(calls) == times
        ensures RunCalls(idle, calls).recorded == RunUnswept(idle, calls).recorded
      {
        RunAgrees(idle, calls);
      }
    }
  }

  /** In particular it never does when times do not go back. */
  lemma SweepIsInvisible(idle: int, calls: seq<Call>)
    requires InOrder(calls)
    ensures RunCalls(idle, calls).recorded == RunUnswept(idle, calls).recorded
  {
    InvisibleIff(idle, TimesOf(calls));
  }

  // ---- What a sweep does ----------------------------------------------------------------------

  /** A sweep comes when it is forced or due, and then forgets exactly the instances whose last sign
      of life is longer ago than the timeout; the time of the last sweep never goes back. */
  lemma SweepExactly(s: TimerState, idle: int, time: int, force: bool)
    ensures var s' := Sweep(s, idle, time, force);
            && s'.recorded == s.recorded
            && if force || s.idleCheck + idle <= time then
                 && (forall id :: id in s'.instances <==>
                       id in s.instances && time <= s.instances[id].heartbeat + Patience(idle))
                 && (forall id :: id in s'.instances ==> s'.instances[id] == s.instances[id])
                 && s.idleCheck <= s'.idleCheck && time <= s'.idleCheck
                 && (s'.idleCheck == s.idleCheck || s'.idleCheck == time)
               else s' == s
  {
  }

  // ---- The sweep bounds memory ----------------------------------------------------------------

  ghost predicate NoLaterThan(calls: seq<Call>, now: int) {
    calls != [] ==> calls[|calls| - 1].time <= now
  }

  /** The last sweep removed whatever was stale by then; before the first one, nothing is older than
      `first`, the earliest time of all calls. */
  ghost predicate FreshEnough(s: TimerState, idle: int, first: int, now: int) {
    && (s.idleCheck <= now || s.idleCheck == 0)
    && (forall id :: id in s.instances ==>
          && first <= s.instances[id].heartbeat <= now
          && (s.idleCheck == 0 || s.idleCheck - idle <= s.instances[id].heartbeat))
  }

  /** No sweep is due at `time`. */
  predicate CheckedBy(s: TimerState, idle: int, time: int) {
    time < s.idleCheck + idle || time == s.idleCheck
  }

  lemma SweepFreshEnough(s: TimerState, idle: int, time: int, force: bool, first: int, before: int)
    requires FreshEnough(s, idle, first, before) && 0 <= idle && before <= time
    ensures FreshEnough(Sweep(s, idle, time, force), idle, first, time)
    ensures CheckedBy(Sweep(s, idle, time, force), idle, time)
  {
  }

  lemma EffectFreshEnough(s: TimerState, idle: int, call: Call, first: int)
    requires FreshEnough(s, idle, first, call.time) && 0 <= idle && first <= call.time
    ensures FreshEnough(Effect(s, idle, call), idle, first, call.time)
    ensures Effect(s, idle, call).idleCheck == s.idleCheck
  {
  }

  lemma StepFreshEnough(s: TimerState, idle: int, call: Call, first: int, before: int)
    requires FreshEnough(s, idle, first, before) && 0 <= idle && first <= before <= call.time
    ensures FreshEnough(Apply(s, idle, call), idle, first, call.time)
    ensures !call.Set? ==> CheckedBy(Apply(s, idle, call), idle, call.time)
  {
    if call.Set? {
      assert FreshEnough(s, idle, first, call.time);
      EffectFreshEnough(s, idle, call, first);
    } else {
      hide FreshEnough, Sweep, Effect;
      var force := call.CheckIdle? && call.force;
      SweepFreshEnough(s, idle, call.time, force, first, before);
      EffectFreshEnough(Sweep(s, idle, call.time, force), idle, call, first);
    }
  }

  lemma {:induction false} RunFreshEnough(idle: int, calls: seq<Call>, now: int)
    requires InOrder(calls) && NoLaterThan(calls, now) && 0 <= idle && calls != []
    ensures FreshEnough(RunCalls(idle, calls), idle, calls[0].time, now)
    ensures var last := calls[|calls| - 1];
            !last.Set? ==> CheckedBy(RunCalls(idle, calls), idle, last.time)
  {
    var init, call := calls[..|calls| - 1], calls[|calls| - 1];
    if init == [] {
      StepFreshEnough(Initial, idle, call, call.time, call.time);
    } else {
      RunFreshEnough(idle, init, call.time);
      StepFreshEnough(RunCalls(idle, init), idle, call, calls[0].time, call.time);
    }
  }

  /** In every run that begins at `first` or later, after every call that may sweep: whatever is
      still remembered has shown life within twice the idle timeout. */
  ghost predicate OnlyRecentFrom(idle: int, first: int) {
    forall calls: seq<Call>, id: InstanceId ::
      && InOrder(calls) && calls != [] && first <= calls[0].time && !calls[|calls| - 1].Set?
      && id in RunCalls(idle, calls).instances
      ==> calls[|calls| - 1].time - RunCalls(idle, calls).instances[id].heartbeat <= 2 * idle
  }

  lemma OnlyRecentRemembered(idle: int, calls: seq<Call>, id: InstanceId)
    requires InOrder(calls) && 0 <= idle && calls != [] && !calls[|calls| - 1].Set?
    requires -idle - 1 <= calls[0].time
    requires id in RunCalls(idle, calls).instances
    ensures calls[|calls| - 1].time - RunCalls(idle, calls).instances[id].heartbeat <= 2 * idle
  {
    RunFreshEnough(idle, calls, calls[|calls| - 1].time);
  }

  /** A start long before the epoch is not swept by a call just before one timeout after it. */
  lemma OldStartRemembered(idle: int, first: int)
    requires 0 <= idle && first < -idle - 1
    ensures var calls := [Start(1, first), Start(2, idle - 1)];
            && 1 in RunCalls(idle, calls).instances
            && idle - 1 - RunCalls(idle, calls).instances[1].heartbeat > 2 * idle
  {
    hide RunCalls;
    var a, b := Start(1, first), Start(2, idle - 1);
    NoCalls(idle);
    OneMoreCall(idle, [], a);
    assert [] + [a] == [a];
    assert Sweep(Initial, idle, first, false) == Initial;
    assert RunCalls(idle, [a]) == TimerState(map[1 := Instance(first, first)], 0, []);
    assert Sweep(RunCalls(idle, [a]), idle, idle - 1, false) == RunCalls(idle, [a]);
    OneMoreCall(idle, [a], b);
    assert [a] + [b] == [a, b];
  }

  /** The time of the last sweep starts at the epoch, so memory is bounded in this way exactly for
      runs that begin no more than one timeout and one unit before it. */
  lemma OnlyRecentIff(idle: int, first: int)
    requires 0 <= idle
    ensures OnlyRecentFrom(idle, first) <==> -idle - 1 <= first
  {
    if -idle - 1 <= first {
      forall calls: seq<Call>, id: InstanceId
        | && InOrder(calls) && calls != [] && first <= calls[0].time && !calls[|calls| - 1].Set?
          && id in RunCalls(idle, calls).instances
        ensures calls[|calls| - 1].time - RunCalls(idle, calls).instances[id].heartbeat <= 2 * idle
      {
        OnlyRecentRemembered(idle, calls, id);
      }
    } else {
      OldStartRemembered(idle, first);
      var calls := [Start(1, first), Start(2, idle - 1)];
      assert InOrder(calls) && 1 in RunCalls(idle, calls).instances;
    }
  }

  // ---- The law of the trace -------------------------------------------------------------------

  /** The call is a sign of life of the instance. */
  predicate Touches(call: Call, id: InstanceId) {
    (call.Start? || call.Heartbeat?) && call.id == id
  }

  /** The call begins or ends the instance. */
  predicate Delimits(call: Call, id: InstanceId) {
    (call.Start? || call.Stop? || call.Discard?) && call.id == id
  }

  /** Some sign of life from `i` on and before `k` is no more than the timeout before `time`. */
  ghost predicate AliveAt(idle: int, calls: seq<Call>, i: nat, k: nat, id: InstanceId, time: int)
    requires k <= |calls|
  {
    exists j :: i <= j < k && Touches(calls[j], id) && time - calls[j].time <= idle
  }

  /** The start at `i` has not been stopped, discarded or restarted before `n`, and no heartbeat
      since then came later than the timeout after the sign of life before it. */
  ghost predicate Running(idle: int, calls: seq<Call>, i: nat, n: nat, id: InstanceId)
    requires n <= |calls|
  {
    && i < n
    && calls[i].Start? && calls[i].id == id
    && (forall k :: i < k < n ==> !Delimits(calls[k], id))
    && (forall k :: i < k < n && calls[k].Heartbeat? && calls[k].id == id ==>
          AliveAt(idle, calls, i, k, id, calls[k].time))
  }

  /** What one more call makes of what the trace says about an instance. */
  function FollowedStep(idle: int, before: Option<Instance>, call: Call, id: InstanceId): Option<Instance> {
    match call
    case Start(id', t) => if id' == id then Some(Instance(t, t)) else before
    case Heartbeat(id', t) =>
      if id' != id || before.None? then before
      else if Expired(before.value, idle, t) then None
      else Some(before.value.(heartbeat := t))
    case Stop(id', _) => if id' == id then None else before
    case Discard(id', _) => if id' == id then None else before
    case _ => before
  }

  /** What the trace alone says about an instance after the first `n` calls. */
  function Followed(idle: int, calls: seq<Call>, n: nat, id: InstanceId): Option<Instance>
    requires n <= |calls|
  {
    if n == 0 then None else FollowedStep(idle, Followed(idle, calls, n - 1, id), calls[n - 1], id)
  }

  lemma {:induction false} UnsweptFollows(idle: int, calls: seq<Call>, n: nat, id: InstanceId)
    requires n <= |calls|
    ensures var u := RunUnswept(idle, calls[..n]);
            Followed(idle, calls, n, id) == if id in u.instances then Some(u.instances[id]) else None
  {
    if n > 0 {
      UnsweptFollows(idle, calls, n - 1, id);
      assert calls[..n][..n - 1] == calls[..n - 1];
    }
  }

  /** `h` is the time of the last sign of life from `i` on and before `n`. */
  ghost predicate LastTouch(calls: seq<Call>, i: nat, n: nat, id: InstanceId, h: int)
    requires n <= |calls|
  {
    && (exists j :: i <= j < n && Touches(calls[j], id) && calls[j].time == h)
    && (forall j :: i <= j < n && Touches(calls[j], id) ==> calls[j].time <= h)
  }

  lemma AliveIffLastTouch(idle: int, calls: seq<Call>, i: nat, n: nat, id: InstanceId, h: int, time: int)
    requires n <= |calls| && LastTouch(calls, i, n, id, h)
    ensures AliveAt(idle, calls, i, n, id, time) <==> time - h <= idle
  {
  }

  lemma RunningBefore(idle: int, calls: seq<Call>, i: nat, n: nat, id: InstanceId)
    requires i + 1 < n <= |calls| && Running(idle, calls, i, n, id)
    ensures Running(idle, calls, i, n - 1, id) && !Delimits(calls[n - 1], id)
    ensures calls[n - 1].Heartbeat? && calls[n - 1].id == id ==> AliveAt(idle, calls, i, n - 1, id, calls[n - 1].time)
  {
  }

  lemma TouchMore(calls: seq<Call>, i: nat, n: nat, id: InstanceId, h: int)
    requires InOrder(calls) && i < n < |calls| && LastTouch(calls, i, n, id, h)
    ensures LastTouch(calls, i, n + 1, id, if Touches(calls[n], id) then calls[n].time else h)
  {
    var j :| i <= j < n && Touches(calls[j], id) && calls[j].time == h;
  }

  lemma FirstTouch(calls: seq<Call>, i: nat)
    requires i < |calls| && calls[i].Start?
    ensures LastTouch(calls, i, i + 1, calls[i].id, calls[i].time)
  {
    assert Touches(calls[i], calls[i].id);
  }

  /** A running start is what the trace says about the instance. */
  lemma {:induction false} RunningIsFollowed(idle: int, calls: seq<Call>, i: nat, n: nat, id: InstanceId)
    requires InOrder(calls) && 0 <= idle && n <= |calls| && Running(idle, calls, i, n, id)
    ensures Followed(idle, calls, n, id).Some?
    ensures Followed(idle, calls, n, id).value.start == calls[i].time
    ensures LastTouch(calls, i, n, id, Followed(idle, calls, n, id).value.heartbeat)
    decreases n
  {
    hide InOrder, LastTouch, AliveAt;
    var call := calls[n - 1];
    if i == n - 1 {
      FirstTouch(calls, i);
    } else {
      RunningBefore(idle, calls, i, n, id);
      RunningIsFollowed(idle, calls, i, n - 1, id);
      var before := Followed(idle, calls, n - 1, id).value;
      TouchMore(calls, i, n - 1, id, before.heartbeat);
      AliveIffLastTouch(idle, calls, i, n - 1, id, before.heartbeat, call.time);
    }
  }

  /** What the trace says about an instance comes from a running start. */
  lemma {:induction false} FollowedIsRunning(idle: int, calls: seq<Call>, n: nat, id: InstanceId) returns (i: nat)
    requires InOrder(calls) && 0 <= idle && n <= |calls| && Followed(idle, calls, n, id).Some?
    ensures Running(idle, calls, i, n, id)
    decreases n
  {
    var call := calls[n - 1];
    if call.Start? && call.id == id {
      i := n - 1;
    } else {
      i := FollowedIsRunning(idle, calls, n - 1, id);
      RunningIsFollowed(idle, calls, i, n - 1, id);
      var before := Followed(idle, calls, n - 1, id).value;
      AliveIffLastTouch(idle, calls, i, n - 1, id, before.heartbeat, call.time);
    }
  }

  /** Whether the stop at `n` ends a measurement that began with the start at `i`. */
  ghost predicate Measures(idle: int, calls: seq<Call>, i: nat, n: nat)
    requires n < |calls| && calls[n].Stop?
  {
    && Running(idle, calls, i, n, calls[n].id)
    && AliveAt(idle, calls, i, n, calls[n].id, calls[n].time)
  }

  function RecordedAfter(idle: int, calls: seq<Call>, n: nat): seq<Record>
    requires n <= |calls|
  {
    RunCalls(idle, calls[..n]).recorded
  }

  lemma RecordedStep(idle: int, calls: seq<Call>, n: nat)
    requires InOrder(calls) && n < |calls|
    ensures var u := RunUnswept(idle, calls[..n]);
            && RecordedAfter(idle, calls, n) == u.recorded
            && RecordedAfter(idle, calls, n + 1) == Effect(u, idle, calls[n]).recorded
  {
    assert calls[..n + 1][..n] == calls[..n];
    SweepIsInvisible(idle, calls[..n]);
    SweepIsInvisible(idle, calls[..n + 1]);
  }

  /** A stop records a value exactly when a start of its instance has not been stopped, discarded or
      restarted since, and no gap between the signs of life from that start up to the stop exceeds
      the timeout; the value is the time from that start to the stop. */
  lemma StopRecordsIff(idle: int, calls: seq<Call>, n: nat)
    requires InOrder(calls) && 0 <= idle && n < |calls| && calls[n].Stop?
    ensures RecordedAfter(idle, calls, n + 1) != RecordedAfter(idle, calls, n)
            <==> exists i: nat :: Measures(idle, calls, i, n)
    ensures forall i: nat :: Measures(idle, calls, i, n) ==>
              RecordedAfter(idle, calls, n + 1)
              == RecordedAfter(idle, calls, n) + [Record(calls[n].time - calls[i].time, calls[n].time)]
  {
    hide InOrder, LastTouch, AliveAt, Followed, RecordedAfter;
    var id, time := calls[n].id, calls[n].time;
    RecordedStep(idle, calls, n);
    UnsweptFollows(idle, calls, n, id);
    forall i: nat | Measures(idle, calls, i, n)
      ensures RecordedAfter(idle, calls, n + 1)
              == RecordedAfter(idle, calls, n) + [Record(time - calls[i].time, time)]
    {
      RunningIsFollowed(idle, calls, i, n, id);
      AliveIffLastTouch(idle, calls, i, n, id, Followed(idle, calls, n, id).value.heartbeat, time);
    }
    if RecordedAfter(idle, calls, n + 1) != RecordedAfter(idle, calls, n) {
      var i := FollowedIsRunning(idle, calls, n, id);
      RunningIsFollowed(idle, calls, i, n, id);
      AliveIffLastTouch(idle, calls, i, n, id, Followed(idle, calls, n, id).value.heartbeat, time);
      assert Measures(idle, calls, i, n);
    }
  }

  /** No other call records anything, but for a value that is set outright. */
  lemma OthersRecord(idle: int, calls: seq<Call>, n: nat)
    requires InOrder(calls) && n < |calls| && !calls[n].Stop?
    ensures RecordedAfter(idle, calls, n + 1)
            == RecordedAfter(idle, calls, n)
               + if calls[n].Set? then [Record(calls[n].measurement, calls[n].time)] else []
  {
    RecordedStep(idle, calls, n);
  }
}
