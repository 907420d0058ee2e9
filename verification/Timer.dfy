/** The multi-instance timer with lazy idle expiry, as a state machine and as a class. */
module Timer {
  import opened Statistics
  import opened StatisticsRuns

  type InstanceId = nat

  datatype Instance = Instance(start: int, heartbeat: int)

  /** `expired`. */
  predicate Expired(i: Instance, idle: int, time: int) {
    time > i.heartbeat && time - i.heartbeat > idle
  }

  datatype Call =
    | Start(id: InstanceId, time: int)
    | Stop(id: InstanceId, time: int)
    | Heartbeat(id: InstanceId, time: int)
    | Discard(id: InstanceId, time: int)
    | Set(measurement: int, time: int)
    | CheckIdle(force: bool, time: int)

  datatype TimerState = TimerState(instances: map<InstanceId, Instance>, idleCheck: int, recorded: seq<Record>)

  const Initial := TimerState(map[], 0, [])

  function Unexpired(m: map<InstanceId, Instance>, idle: int, time: int): map<InstanceId, Instance> {
    map id | id in m && !Expired(m[id], idle, time) :: m[id]
  }

  /** `check_idle_timeout`. */
  function Sweep(s: TimerState, idle: int, time: int, force: bool): TimerState {
    if !force && time < s.idleCheck + idle then s
    else s.(instances := Unexpired(s.instances, idle, time),
            idleCheck := if s.idleCheck < time then time else s.idleCheck)
  }

  /** What a call does besides the sweep. */
  function Effect(s: TimerState, idle: int, call: Call): TimerState {
    match call
    case Start(id, t) => s.(instances := s.instances[id := Instance(t, t)])
    case Stop(id, t) =>
      if id !in s.instances then s
      else if Expired(s.instances[id], idle, t) then s.(instances := s.instances - {id})
      else s.(recorded := s.recorded + [Record(t - s.instances[id].start, t)], instances := s.instances - {id})
    case Heartbeat(id, t) =>
      if id !in s.instances then s
      else if Expired(s.instances[id], idle, t) then s.(instances := s.instances - {id})
      else s.(instances := s.instances[id := s.instances[id].(heartbeat := t)])
    case Discard(id, _) => s.(instances := s.instances - {id})
    case Set(v, t) => s.(recorded := s.recorded + [Record(v, t)])
    case CheckIdle(_, _) => s
  }

  function Apply(s: TimerState, idle: int, call: Call): TimerState {
    if call.Set? then Effect(s, idle, call)
    else Effect(Sweep(s, idle, call.time, call.CheckIdle? && call.force), idle, call)
  }

  function RunCalls(idle: int, calls: seq<Call>): TimerState {
    if calls == [] then Initial else Apply(RunCalls(idle, calls[..|calls| - 1]), idle, calls[|calls| - 1])
  }

  class MultiTimer {
    const idle: int
    const values: IncrementalStatistics

    var instances: map<InstanceId, Instance>
    var idleCheck: int
    ghost var recorded: seq<Record>

    ghost predicate Valid()
      reads this, values
    {
      && values.Valid()
      && values.View() == Run(values.config, Samples(recorded))
    }

    ghost function View(): TimerState
      reads this
    {
      TimerState(instances, idleCheck, recorded)
    }

    constructor (idle: int, config: Config)
      ensures Valid() && View() == Initial && this.idle == idle && values.config == config && fresh(values)
    {
      this.idle := idle;
      this.values := new IncrementalStatistics(config);
      instances := map[];
      idleCheck := 0;
      recorded := [];
    }

    /** Hands a value to the statistics. */
    method Feed(value: int, time: int)
      requires Valid()
      modifies values, `recorded
      ensures Valid()
      ensures recorded == old(recorded) + [Record(value, time)]
    {
      values.Update(value as real, time);
      recorded := recorded + [Record(value, time)];
      assert Samples(recorded)[..|recorded| - 1] == Samples(old(recorded));
    }

    /** The statistics count and add up the recorded values. */
    lemma StatisticsAreOfRecorded()
      requires Valid()
      ensures Computed(values.config, Count) ==> values.count == |recorded|
      ensures Computed(values.config, Sum) ==> values.sum == RecordedSum(recorded) as real
      ensures Computed(values.config, Value) && recorded != [] ==>
                values.value == recorded[|recorded| - 1].value as real
    {
      hide Run, Computed, RecordedSum;
      StatisticsOfRecords(values.config, recorded);
    }

    method CheckIdleTimeout(time: int, force: bool)
      requires Valid()
      modifies `instances, `idleCheck
      ensures Valid()
      ensures View() == Sweep(old(View()), idle, time, force)
    {
      if !force {
        if time < idleCheck + idle {
          return;
        }
      }
      var left := instances.Keys;
      while left != {}
        invariant left <= old(instances).Keys && idleCheck == old(idleCheck)
        invariant instances == map id | id in old(instances) && (id in left || !Expired(old(instances)[id], idle, time))
                                 :: old(instances)[id]
        decreases |left|
      {
        var id :| id in left;
        if Expired(instances[id], idle, time) {
          instances := instances - {id};
        }
        left := left - {id};
      }
      assert instances == Unexpired(old(instances), idle, time);
      if idleCheck < time {
        idleCheck := time;
      }
    }

    method StartInstance(id: InstanceId, time: int)
      requires Valid()
      modifies `instances, `idleCheck
      ensures Valid()
      ensures View() == Apply(old(View()), idle, Start(id, time))
    {
      CheckIdleTimeout(time, false);
      instances := instances[id := Instance(time, time)];
    }

    method StopInstance(id: InstanceId, time: int)
      requires Valid()
      modifies `instances, `idleCheck, `recorded, values
      ensures Valid()
      ensures View() == Apply(old(View()), idle, Stop(id, time))
    {
      hide Run;
      CheckIdleTimeout(time, false);
      if id !in instances {
        return;
      }
      if Expired(instances[id], idle, time) {
        instances := instances - {id};
        return;
      }
      Feed(time - instances[id].start, time);
      instances := instances - {id};
    }

    method HeartbeatInstance(id: InstanceId, time: int)
      requires Valid()
      modifies `instances, `idleCheck
      ensures Valid()
      ensures View() == Apply(old(View()), idle, Heartbeat(id, time))
    {
      CheckIdleTimeout(time, false);
      if id !in instances {
        return;
      }
      if Expired(instances[id], idle, time) {
        instances := instances - {id};
        return;
      }
      instances := instances[id := instances[id].(heartbeat := time)];
    }

    method DiscardInstance(id: InstanceId, time: int)
      requires Valid()
      modifies `instances, `idleCheck
      ensures Valid()
      ensures View() == Apply(old(View()), idle, Discard(id, time))
    {
      CheckIdleTimeout(time, false);
      instances := instances - {id};
    }

    method SetValue(measurement: int, time: int)
      requires Valid()
      modifies `recorded, values
      ensures Valid()
      ensures View() == Apply(old(View()), idle, Set(measurement, time))
    {
      Feed(measurement, time);
    }
  }
}
