/** What holds in every run of the queue, whatever the interleaving. */
module QueueTheorems {
  import opened Wrappers
  import opened Events
  import opened EventQueueProtocol
  import opened QueueInvariant

  lemma StepOk(s: State, step: Step)
    requires Inv(s) && Enabled(s, step)
    ensures Inv(Apply(s, step))
  {
    match step
    case Create(p, n, e) => CreateOk(s, p, n, e);
    case PushClear(p) => PushClearOk(s, p);
    case PushExchange(p) => PushExchangeOk(s, p);
    case PushLink(p) => PushLinkOk(s, p);
    case PushCount(p) => PushCountOk(s, p);
    case ConsumerMove => ConsumerMoveOk(s);
    case Shutdown => QuietStep(s, Apply(s, step));
  }

  lemma {:induction false} ReachableOk(steps: seq<Step>)
    requires After(steps).Some?
    ensures Inv(After(steps).value)
  {
    if steps == [] {
      InitOk();
    } else {
      ReachableOk(steps[..|steps| - 1]);
      StepOk(After(steps[..|steps| - 1]).value, steps[|steps| - 1]);
    }
  }

  // ---- First in, first out --------------------------------------------------------------------

  lemma {:induction false} MessagesAreMessages(log: seq<Entry>)
    ensures forall i :: 0 <= i < |Messages(log)| ==> Messages(log)[i].node.Msg?
  {
    if log != [] {
      MessagesAreMessages(log[..|log| - 1]);
    }
  }

  lemma SplitOfPushed(s: State)
    requires Inv(s)
    ensures Pushed(s) == s.returned + Pending(s)
  {
    assert s.log == s.log[..s.removed] + s.log[s.removed..];
    MessagesConcat(s.log[..s.removed], s.log[s.removed..]);
  }

  /** What `pop` has returned so far is a prefix of the order of the exchanges, the rest of that
      order is still in the queue, and the stub is never returned. */
  lemma {:induction false} FirstInFirstOut(steps: seq<Step>)
    requires After(steps).Some?
    ensures var s := After(steps).value;
            && s.removed <= |s.log|
            && Pushed(s) == s.returned + Pending(s)
            && (forall i :: 0 <= i < |s.returned| ==> s.returned[i].node.Msg?)
  {
    ReachableOk(steps);
    var s := After(steps).value;
    SplitOfPushed(s);
    MessagesAreMessages(s.log[..s.removed]);
  }

  /** The operations of an atomic queue. */
  datatype QueueOp = Enqueue(e: Entry) | Dequeue | Skip

  /** What a step does to the queue as a whole: an exchange by a producer enqueues, a step that
      makes `pop` return a message dequeues, and no other step is visible. */
  function OpOf(s: State, step: Step): QueueOp
    requires Enabled(s, step)
  {
    var s' := Apply(s, step);
    if step.PushExchange? then Enqueue(Entry(s.producers[step.p].n, s.data[s.producers[step.p].n], step.p))
    else if s'.consumer.CountDown? && !s.consumer.CountDown? then Dequeue
    else Skip
  }

  ghost predicate Refines(s: State, s': State, op: QueueOp)
    requires s.removed <= |s.log| && s'.removed <= |s'.log|
  {
    match op
    case Enqueue(e) => Pending(s') == Pending(s) + [e] && s'.returned == s.returned
    case Dequeue =>
      && |Pending(s)| > 0
      && Pending(s') == Pending(s)[1..]
      && s'.returned == s.returned + [Pending(s)[0]]
    case Skip => Pending(s') == Pending(s) && s'.returned == s.returned
  }

  lemma ExchangeRefines(s: State, s': State, e: Entry)
    requires s.removed <= |s.log| && s'.log == s.log + [e]
    requires s'.removed == s.removed && s'.returned == s.returned
    ensures Refines(s, s', if e.node == Stub then Skip else Enqueue(e))
  {
    assert s'.log[s.removed..] == s.log[s.removed..] + [e];
    MessagesConcat(s.log[s.removed..], [e]);
    MessagesOne(e);
  }

  /** Moving the tail past a message dequeues it, moving it past the stub is not visible. */
  lemma TailRefines(s: State, s': State)
    requires s.removed < |s.log| && s'.log == s.log && s'.removed == s.removed + 1
    requires s.log[s.removed].node == Stub ==> s'.returned == s.returned
    requires s.log[s.removed].node != Stub ==> s'.returned == s.returned + [s.log[s.removed]]
    ensures Refines(s, s', if s.log[s.removed].node == Stub then Skip else Dequeue)
  {
    TailAdvances(s);
  }

  /** The three shapes of a consumer step: it exchanges the stub, it advances the tail, or it does
      neither. */
  ghost predicate StepShape(s: State, s': State, op: QueueOp)
    requires s.removed < |s.log|
  {
    if s.consumer.StubExchange? then
      && s'.log == s.log + [StubEntry] && s'.removed == s.removed
      && s'.returned == s.returned && op == Skip
    else if s'.removed != s.removed then
      && s'.log == s.log && s'.removed == s.removed + 1
      && (if s.log[s.removed].node == Stub then s'.returned == s.returned && op == Skip
          else s'.returned == s.returned + [s.log[s.removed]] && op == Dequeue)
    else
      s'.log == s.log && s'.returned == s.returned && op == Skip
  }

  /** Whether the consumer holds a message it has popped. */
  function InHand(s: State): nat { if s.consumer.CountDown? || s.consumer.Consume? then 1 else 0 }

  /** How many messages the rest of the current `pop` will take off the queue. */
  ghost function Todo(c: ConsumerPc): nat {
    if c.LoadFirst? || InPop(c) then 1 else 0
  }

  /** The consumer takes a message in hand when it dequeues it and deletes it when it consumes it;
      it leaves the producers, the mode and the contents of messages alone. */
  ghost predicate StepHands(s: State, s': State, op: QueueOp) {
    && s'.producers == s.producers && s'.mode == s.mode && s'.data == s.data
    && (s.mode == Draining || !s.consumer.Consume? ==> s'.processed == s.processed)
    && s'.live == (if s.consumer.Consume? then s.live - {s.consumer.m} else s.live)
    && (s.consumer.Consume? ==> op == Skip)
    && InHand(s') == InHand(s) + (if op.Dequeue? then 1 else 0) - (if s.consumer.Consume? then 1 else 0)
    && (s.consumer != CheckEmpty && s'.consumer != ReturnNull ==>
          Todo(s.consumer) == Todo(s'.consumer) + if op.Dequeue? then 1 else 0)
  }

  lemma LoadFirstShape(s: State)
    requires ConsumerEnabled(s) && s.consumer.LoadFirst? && s.tail == s.log[s.removed].node
    ensures StepShape(s, ConsumerStep(s), OpOf(s, ConsumerMove))
    ensures StepHands(s, ConsumerStep(s), OpOf(s, ConsumerMove))
  {
    hide Pending;
  }

  lemma LoadTailShape(s: State)
    requires ConsumerEnabled(s) && (s.consumer.Reload? || s.consumer.LoadLast?)
    requires s.tail == s.log[s.removed].node && s.consumer.t == s.tail && s.tail.Msg?
    ensures StepShape(s, ConsumerStep(s), OpOf(s, ConsumerMove))
    ensures StepHands(s, ConsumerStep(s), OpOf(s, ConsumerMove))
  {
    hide Pending;
  }

  lemma StubShape(s: State)
    requires ConsumerEnabled(s) && (s.consumer.StubClear? || s.consumer.StubExchange? || s.consumer.StubLink?)
    ensures StepShape(s, ConsumerStep(s), OpOf(s, ConsumerMove))
    ensures StepHands(s, ConsumerStep(s), OpOf(s, ConsumerMove))
  {
    hide Pending;
  }

  lemma IdleShape(s: State)
    requires ConsumerEnabled(s) && (s.consumer.CheckEmpty? || s.consumer.LoadHead? || s.consumer.ReturnNull?)
    ensures StepShape(s, ConsumerStep(s), OpOf(s, ConsumerMove))
    ensures StepHands(s, ConsumerStep(s), OpOf(s, ConsumerMove))
  {
    hide Pending;
  }

  lemma DoneShape(s: State)
    requires ConsumerEnabled(s) && (s.consumer.CountDown? || s.consumer.Consume?)
    ensures StepShape(s, ConsumerStep(s), OpOf(s, ConsumerMove))
    ensures StepHands(s, ConsumerStep(s), OpOf(s, ConsumerMove))
  {
    hide Pending;
  }

  lemma ConsumerShape(s: State)
    requires ConsumerEnabled(s)
    requires s.tail == s.log[s.removed].node
    requires InPop(s.consumer) ==> s.consumer.t == s.tail && s.tail.Msg?
    ensures StepShape(s, ConsumerStep(s), OpOf(s, ConsumerMove))
    ensures StepHands(s, ConsumerStep(s), OpOf(s, ConsumerMove))
  {
    hide ConsumerStep, OpOf;
    if s.consumer.LoadFirst? {
      LoadFirstShape(s);
    } else if s.consumer.Reload? || s.consumer.LoadLast? {
      LoadTailShape(s);
    } else if s.consumer.StubClear? || s.consumer.StubExchange? || s.consumer.StubLink? {
      StubShape(s);
    } else if s.consumer.CountDown? || s.consumer.Consume? {
      DoneShape(s);
    } else {
      IdleShape(s);
    }
  }

  lemma ConsumerRefines(s: State)
    requires Inv(s) && ConsumerEnabled(s)
    ensures ConsumerStep(s).removed <= |ConsumerStep(s).log|
    ensures Refines(s, ConsumerStep(s), OpOf(s, ConsumerMove))
  {
    hide Messages, ConsumerStep;
    var s' := ConsumerStep(s);
    ConsumerShape(s);
    if s.consumer.StubExchange? {
      ExchangeRefines(s, s', StubEntry);
    } else if s'.removed != s.removed {
      TailRefines(s, s');
    }
  }

  /** Every step refines one operation of an atomic first-in, first-out queue. */
  lemma {:induction false} StepRefines(s: State, step: Step)
    requires Inv(s) && Enabled(s, step)
    ensures Apply(s, step).removed <= |Apply(s, step).log|
    ensures Refines(s, Apply(s, step), OpOf(s, step))
  {
    hide Messages, ConsumerStep;
    var s' := Apply(s, step);
    match step
    case PushExchange(p) =>
      assert ProducerOk(s, p);
      ExchangeRefines(s, s', s'.log[|s.log|]);
    case ConsumerMove => ConsumerRefines(s);
    case _ =>
  }

  // ---- Memory ---------------------------------------------------------------------------------

  /** The nodes whose memory a step reads or writes. */
  function Touched(s: State, step: Step): set<Node>
    requires Enabled(s, step)
  {
    match step
    case PushClear(p) => {s.producers[p].n}
    case PushExchange(p) => {s.producers[p].n}
    case PushLink(p) => {s.producers[p].prev}
    case ConsumerMove => (
      match s.consumer
      case LoadFirst => {s.tail}
      case Reload(t) => {t}
      case StubClear(_) => {Stub}
      case StubLink(_, prev, _) => {prev}
      case LoadLast(t) => {t}
      case CountDown(m) => {m}
      case Consume(m) => {m}
      case _ => {}
    )
    case _ => {}
  }

  /** No step of any run touches a message that has been deleted, although messages are deleted as
      soon as they are consumed and their addresses may be handed out again at any time. */
  lemma {:induction false} NoUseAfterFree(steps: seq<Step>, step: Step)
    requires After(steps).Some? && Enabled(After(steps).value, step)
    ensures Touched(After(steps).value, step) <= After(steps).value.live + {Stub}
  {
    ReachableOk(steps);
    var s := After(steps).value;
    match step
    case PushClear(p) => assert ProducerOk(s, p);
    case PushExchange(p) => assert ProducerOk(s, p);
    case PushLink(p) => assert ProducerOk(s, p);
    case _ =>
  }

  /** A message that `pop` returns is not the head, and no thread will link a node behind it. */
  lemma {:induction false} ReturnedIsUnreachable(steps: seq<Step>)
    requires After(steps).Some? && After(steps).value.consumer.CountDown?
    ensures var s := After(steps).value;
            var m := s.consumer.m;
            && m in s.live
            && m != s.head && m != s.tail
            && (forall p :: p in s.producers ==>
                  (s.producers[p].Exchanged? ==> s.producers[p].prev != m && s.producers[p].n != m)
                  && (Holding(s.producers[p]) ==> s.producers[p].n != m))
  {
    ReachableOk(steps);
    var s := After(steps).value;
    forall p | p in s.producers && s.producers[p].Exchanged?
      ensures s.producers[p].prev != s.consumer.m && s.producers[p].n != s.consumer.m
    {
      assert ProducerOk(s, p);
    }
  }

  function HoldingProducers(s: State): set<Producer> {
    set p | p in s.producers && Holding(s.producers[p])
  }

  /** No message is leaked: each allocated one is with its producer, queued, or being consumed. */
  ghost predicate NoLeak(s: State)
    requires s.removed <= |s.log|
  {
    |s.live| == |HoldingProducers(s)| + |Pending(s)| + InHand(s)
  }

  /** A producer takes a message in hand when it creates it and lets go of it in the exchange. */
  lemma ProducerHands(s: State, step: Step)
    requires Enabled(s, step) && step != ConsumerMove
    ensures var s' := Apply(s, step);
            && InHand(s') == InHand(s)
            && match step
               case Create(p, n, _) =>
                 p !in HoldingProducers(s) && HoldingProducers(s') == HoldingProducers(s) + {p}
                 && n !in s.live && s'.live == s.live + {n}
               case PushExchange(p) =>
                 p in HoldingProducers(s) && HoldingProducers(s') == HoldingProducers(s) - {p} && s'.live == s.live
               case _ => HoldingProducers(s') == HoldingProducers(s) && s'.live == s.live
  {
    hide ConsumerStep;
  }

  lemma ProducerLeaksNothing(s: State, step: Step, s': State)
    requires s.removed <= |s.log| && s'.removed <= |s'.log|
    requires NoLeak(s) && Enabled(s, step) && step != ConsumerMove && s' == Apply(s, step)
    requires Refines(s, s', OpOf(s, step))
    ensures NoLeak(s')
  {
    hide ConsumerStep, Pending, HoldingProducers, InHand;
    ProducerHands(s, step);
  }

  lemma ConsumerLeaksNothing(s: State, s': State, op: QueueOp)
    requires s.removed <= |s.log| && s'.removed <= |s'.log| && NoLeak(s) && Refines(s, s', op) && !op.Enqueue?
    requires s.consumer.Consume? ==> s.consumer.m in s.live && op == Skip
    requires StepHands(s, s', op)
    ensures NoLeak(s')
  {
    hide Pending;
    assert HoldingProducers(s') == HoldingProducers(s);
  }

  lemma StepLeaksNothing(s: State, step: Step)
    requires Inv(s) && NoLeak(s) && Enabled(s, step)
    ensures Apply(s, step).removed <= |Apply(s, step).log| && NoLeak(Apply(s, step))
  {
    hide Pending, NoLeak, ConsumerStep, LinksOk, ProducersOk, HistoryOk, SizeOk, CallOk;
    StepRefines(s, step);
    if step == ConsumerMove {
      ConsumerShape(s);
      ConsumerLeaksNothing(s, ConsumerStep(s), OpOf(s, ConsumerMove));
    } else {
      ProducerLeaksNothing(s, step, Apply(s, step));
    }
  }

  lemma {:induction false} NothingLeaks(steps: seq<Step>)
    requires After(steps).Some?
    ensures After(steps).value.removed <= |After(steps).value.log| && NoLeak(After(steps).value)
  {
    ReachableOk(steps);
    if steps == [] {
      assert Init.log[0..] == Init.log;
      MessagesOne(StubEntry);
    } else {
      ReachableOk(steps[..|steps| - 1]);
      NothingLeaks(steps[..|steps| - 1]);
      StepLeaksNothing(After(steps[..|steps| - 1]).value, steps[|steps| - 1]);
    }
  }

  // ---- The result of pop ----------------------------------------------------------------------

  /** `pop` returns null only when the queue was empty as the call began or a push overlapped it,
      it returns a message only when the queue was not empty then, and the message is the next one
      in exchange order. */
  lemma {:induction false} PopResult(steps: seq<Step>)
    requires After(steps).Some?
    ensures var s := After(steps).value;
            && (s.consumer == ReturnNull ==> s.call.empty || s.call.overlap)
            && (s.consumer.CountDown? ==>
                  && !s.call.empty
                  && 0 < |s.returned| <= |Pushed(s)|
                  && s.consumer.m == Pushed(s)[|s.returned| - 1].node)
  {
    ReachableOk(steps);
    SplitOfPushed(After(steps).value);
  }

  // ---- mq_size --------------------------------------------------------------------------------

  /** The counter never wraps, and lags behind the queue by exactly the pushes not yet counted,
      less a message already popped but not yet subtracted. */
  lemma {:induction false} SizeIdentity(steps: seq<Step>)
    requires After(steps).Some?
    ensures var s := After(steps).value;
            && s.removed <= |s.log|
            && |Pending(s)| == s.size + |Uncounted(s)| - (if s.consumer.CountDown? then 1 else 0)
            && s.size >= 0
            && (s.consumer.CountDown? && ConsumerEnabled(s) ==> ConsumerStep(s).size == s.size - 1)
  {
    ReachableOk(steps);
    var s := After(steps).value;
    SplitOfPushed(s);
  }

  /** The consumer that calls `pop` without asking `empty` first. */
  function UncheckedPop(s: State): State
    requires s.consumer == CheckEmpty
  {
    s.(consumer := LoadFirst)
  }

  /** `n` moves of the consumer with no other thread in between. */
  function ConsumerMoves(s: State, n: nat): Option<State>
    decreases n
  {
    if n == 0 then Some(s)
    else if ConsumerEnabled(s) then ConsumerMoves(ConsumerStep(s), n - 1) else None
  }

  lemma {:induction false} MovesCompose(s: State, a: nat, b: nat)
    requires ConsumerMoves(s, a).Some?
    ensures ConsumerMoves(s, a + b) == ConsumerMoves(ConsumerMoves(s, a).value, b)
    decreases a
  {
    if a > 0 {
      MovesCompose(ConsumerStep(s), a - 1, b);
    }
  }

  const OnePush := [Create(0, Msg(0), Increment(1, 1)), PushClear(0), PushExchange(0), PushLink(0)]

  /** The queue after these steps. */
  const OnePushed :=
    State(Msg(0), Stub, map[Stub := Msg(0)], map[Msg(0) := Increment(1, 1)], {Msg(0)}, 0,
          map[0 := Linked], CheckEmpty, Processing,
          [StubEntry, Entry(Msg(0), Increment(1, 1), 0)], 0, [], [], Call(true, true))

  lemma OneMoreStep(steps: seq<Step>, step: Step)
    requires After(steps).Some? && Enabled(After(steps).value, step)
    ensures After(steps + [step]) == Some(Apply(After(steps).value, step))
  {
    hide Apply;
    assert (steps + [step])[..|steps|] == steps;
  }

  lemma AfterOnePush()
    ensures After(OnePush) == Some(OnePushed)
  {
    hide ConsumerStep;
    OneMoreStep([], OnePush[0]);
    assert [] + [OnePush[0]] == OnePush[..1];
    OneMoreStep(OnePush[..1], OnePush[1]);
    assert OnePush[..1] + [OnePush[1]] == OnePush[..2];
    OneMoreStep(OnePush[..2], OnePush[2]);
    assert OnePush[..2] + [OnePush[2]] == OnePush[..3];
    OneMoreStep(OnePush[..3], OnePush[3]);
    assert OnePush[..3] + [OnePush[3]] == OnePush;
    var s := After(OnePush).value;
    assert s.next == OnePushed.next && s.data == OnePushed.data && s.live == OnePushed.live;
    assert s.producers == OnePushed.producers && s.log == OnePushed.log;
  }

  /** From there the lone consumer finds the message unlinked, re-inserts the stub behind it, and
      links the stub. */
  lemma UncheckedPopReachesHead()
    ensures ConsumerMoves(UncheckedPop(OnePushed), 3) ==
            Some(OnePushed.(tail := Msg(0), removed := 1, consumer := StubClear(Msg(0)),
                            call := Call(false, false)))
  {
    hide Messages;
    var s := UncheckedPop(OnePushed);
    assert Pending(s) != [] by {
      TailAdvances(s);
      assert s.log[1..] == [] + [s.log[1]];
      MessagesOne(s.log[1]);
    }
    var s1 := ConsumerStep(s);
    var s2 := ConsumerStep(s1);
    var s3 := ConsumerStep(s2);
    assert ConsumerMoves(s2, 1) == Some(s3);
    assert ConsumerMoves(s1, 2) == Some(s3);
  }

  lemma ReinsertStub(s: State)
    requires s.consumer.StubClear? && s.consumer.t == s.head != Stub && s.removed + 1 == |s.log|
    ensures ConsumerMoves(s, 3).Some?
    ensures var s' := ConsumerMoves(s, 3).value;
            && s'.size == s.size && s'.consumer == LoadLast(s.head) && s.head in s'.next
            && s'.removed + 1 < |s'.log|
  {
    var s1 := ConsumerStep(s);
    var s2 := ConsumerStep(s1);
    var s3 := ConsumerStep(s2);
    assert ConsumerMoves(s2, 1) == Some(s3);
    assert ConsumerMoves(s1, 2) == Some(s3);
  }

  lemma CountDownOfZero(s: State)
    requires s.size == 0 && s.consumer.LoadLast? && s.consumer.t in s.next && s.removed + 1 < |s.log|
    ensures ConsumerMoves(s, 2).Some? && ConsumerMoves(s, 2).value.size == SizeMax
  {
    var s1 := ConsumerStep(s);
    assert ConsumerMoves(s1, 1) == Some(ConsumerStep(s1));
  }

  /** Without that check the counter does wrap: one producer that has linked its message but not
      yet counted it, and one `pop`. */
  lemma UncheckedPopWraps()
    ensures After(OnePush) == Some(OnePushed)
    ensures OnePushed.consumer == CheckEmpty
    ensures ConsumerMoves(UncheckedPop(OnePushed), 8).Some?
    ensures ConsumerMoves(UncheckedPop(OnePushed), 8).value.size == SizeMax
  {
    hide ConsumerMoves;
    AfterOnePush();
    UncheckedPopReachesHead();
    var s := UncheckedPop(OnePushed);
    ReinsertStub(ConsumerMoves(s, 3).value);
    MovesCompose(s, 3, 3);
    CountDownOfZero(ConsumerMoves(s, 6).value);
    MovesCompose(s, 6, 2);
  }

  // ---- The drain loop -------------------------------------------------------------------------

  /** How many moves the consumer needs at most to be back at its emptiness check. */
  function Rank(c: ConsumerPc): nat {
    match c
    case CheckEmpty => 0
    case LoadFirst => 9
    case Reload(_) => 8
    case LoadHead(_) => 7
    case StubClear(_) => 6
    case StubExchange(_) => 5
    case StubLink(_, _, _) => 4
    case LoadLast(_) => 3
    case CountDown(_) => 2
    case Consume(_) => 1
    case ReturnNull => 1
  }

  /** The consumer alone in the middle of a `pop` that is going to find a message. */
  ghost predicate Popping(s: State)
    requires s.removed <= |s.log|
  {
    && s.producers == map[]
    && s.consumer != CheckEmpty && s.consumer != ReturnNull
    && (InPop(s.consumer) || s.consumer.LoadFirst? ==> Pending(s) != [])
    && (s.consumer.LoadHead? || s.consumer.StubClear? || s.consumer.StubExchange? ==>
          s.removed + 1 == |s.log|)
    && (s.consumer.StubLink? ==> s.removed + 2 == |s.log|)
    && (s.consumer.LoadLast? ==> s.tail in s.next)
  }

  /** The part of the invariant that decides which way a lone consumer goes. */
  ghost predicate Alone(s: State) {
    && ConsumerEnabled(s)
    && s.producers == map[]
    && s.tail == s.log[s.removed].node
    && s.head == s.log[|s.log| - 1].node
    && (InPop(s.consumer) ==> s.consumer.t == s.tail && s.tail.Msg?)
    && (s.consumer.StubLink? ==>
          0 < s.consumer.pos == |s.log| - 1 && s.consumer.prev == s.log[s.consumer.pos - 1].node)
    && (s.removed + 1 < |s.log| && !s.consumer.StubLink? ==> s.tail in s.next)
    && (s.removed + 1 < |s.log| ==> s.head != s.tail)
  }

  lemma AloneIfQuiet(s: State)
    requires Inv(s) && s.producers == map[]
    requires s.consumer.StubLink? ==> s.removed + 2 == |s.log|
    ensures Alone(s)
  {
    if s.removed + 1 < |s.log| {
      assert LinkOk(s, s.removed);
    }
  }

  lemma PopBegins(s: State)
    requires Alone(s) && Popping(s) && s.consumer.LoadFirst?
    ensures ConsumerStep(s).removed <= |ConsumerStep(s).log|
    ensures Popping(ConsumerStep(s)) && Rank(ConsumerStep(s).consumer) < Rank(s.consumer)
  {
    hide Messages;
    if s.tail == Stub {
      TailAdvances(s);
      NothingLeft(s);
    }
  }

  lemma PopLoadsTail(s: State)
    requires Alone(s) && Popping(s) && (s.consumer.Reload? || s.consumer.LoadLast?)
    ensures ConsumerStep(s).removed <= |ConsumerStep(s).log|
    ensures Popping(ConsumerStep(s)) && Rank(ConsumerStep(s).consumer) < Rank(s.consumer)
  {
    hide Messages;
  }

  lemma PopReinserts(s: State)
    requires Alone(s) && Popping(s)
    requires s.consumer.LoadHead? || s.consumer.StubClear? || s.consumer.StubExchange? || s.consumer.StubLink?
    ensures ConsumerStep(s).removed <= |ConsumerStep(s).log|
    ensures Popping(ConsumerStep(s)) && Rank(ConsumerStep(s).consumer) < Rank(s.consumer)
  {
    hide Messages;
    if s.consumer.StubExchange? {
      ExchangeRefines(s, ConsumerStep(s), StubEntry);
    }
  }

  lemma PopGoesOn(s: State)
    requires Alone(s) && Popping(s) && !s.consumer.LoadFirst?
    ensures ConsumerStep(s).removed <= |ConsumerStep(s).log|
    ensures ConsumerStep(s).consumer != CheckEmpty ==> Popping(ConsumerStep(s))
    ensures Rank(ConsumerStep(s).consumer) < Rank(s.consumer)
  {
    hide Pending;
    if s.consumer.Reload? || s.consumer.LoadLast? {
      PopLoadsTail(s);
    } else if InPop(s.consumer) {
      PopReinserts(s);
    }
  }

  ghost predicate SameBut(s: State, s': State, popped: nat)
    requires s.removed <= |s.log| && s'.removed <= |s'.log| && popped <= |Pending(s)|
  {
    && s'.producers == map[]
    && s'.mode == s.mode
    && (s.mode == Draining ==> s'.processed == s.processed)
    && s'.returned == s.returned + Pending(s)[..popped]
    && Pending(s') == Pending(s)[popped..]
  }

  lemma PoppingStep(s: State)
    requires Inv(s) && NoLeak(s) && Popping(s)
    ensures var s' := ConsumerStep(s);
            && Inv(s') && NoLeak(s')
            && (s'.consumer != CheckEmpty ==> Popping(s'))
            && Rank(s'.consumer) < Rank(s.consumer)
  {
    hide ConsumerStep, Messages, NoLeak, Alone;
    AloneIfQuiet(s);
    if s.consumer.LoadFirst? {
      PopBegins(s);
    } else {
      PopGoesOn(s);
    }
    StepOk(s, ConsumerMove);
    StepLeaksNothing(s, ConsumerMove);
  }

  lemma PoppingStepResult(s: State)
    requires Inv(s) && Popping(s)
    requires ConsumerStep(s).consumer != ReturnNull
    ensures ConsumerStep(s).removed <= |ConsumerStep(s).log|
    ensures Todo(ConsumerStep(s).consumer) <= Todo(s.consumer)
    ensures var d := Todo(s.consumer) - Todo(ConsumerStep(s).consumer);
            d <= |Pending(s)| && SameBut(s, ConsumerStep(s), d)
  {
    hide Pending, ConsumerStep, OpOf, LinksOk, ProducersOk, HistoryOk, SizeOk, CallOk;
    ConsumerRefines(s);
    ConsumerShape(s);
  }

  lemma SameButCompose(s: State, s1: State, s2: State, a: nat, b: nat)
    requires s.removed <= |s.log| && s1.removed <= |s1.log| && s2.removed <= |s2.log|
    requires a <= |Pending(s)| && SameBut(s, s1, a)
    requires b <= |Pending(s1)| && SameBut(s1, s2, b)
    ensures a + b <= |Pending(s)| && SameBut(s, s2, a + b)
  {
    hide Pending;
    assert Pending(s)[..a] + Pending(s)[a..][..b] == Pending(s)[..a + b];
    assert Pending(s)[a..][b..] == Pending(s)[a + b..];
  }

  lemma OneMove(s: State, n: nat)
    requires ConsumerEnabled(s)
    ensures ConsumerMoves(s, n + 1) == ConsumerMoves(ConsumerStep(s), n)
    ensures ConsumerMoves(s, 0) == Some(s)
  {
    hide ConsumerStep;
  }

  /** The consumer is never stuck. */
  lemma NeverStuck(s: State)
    requires Inv(s)
    ensures s.removed <= |s.log| && ConsumerEnabled(s)
  {
  }

  /** A `pop` begun with no producer about and a message queued ends with that message deleted. */
  lemma {:induction false} FinishPop(s: State) returns (n: nat, s': State)
    requires Inv(s) && NoLeak(s) && Popping(s)
    ensures ConsumerMoves(s, n) == Some(s')
    ensures Inv(s') && NoLeak(s') && s'.consumer == CheckEmpty
    ensures Todo(s.consumer) <= |Pending(s)| && SameBut(s, s', Todo(s.consumer))
    decreases Rank(s.consumer)
  {
    hide Inv, NoLeak, Pending, SameBut, Popping, Todo, Rank, ConsumerMoves, ConsumerStep, ConsumerEnabled;
    NeverStuck(s);
    PoppingStep(s);
    var s1 := ConsumerStep(s);
    NeverStuck(s1);
    StepInPop(s);
    PoppingStepResult(s);
    if s1.consumer == CheckEmpty {
      n, s' := 1, s1;
      OneMove(s, 0);
      OneMove(s1, 0);
      TodoAtRest();
    } else {
      n, s' := FinishPop(s1);
      NeverStuck(s');
      SameButCompose(s, s1, s', Todo(s.consumer) - Todo(s1.consumer), Todo(s1.consumer));
      OneMove(s, n);
      n := n + 1;
    }
  }

  lemma TodoAtRest()
    ensures Todo(CheckEmpty) == 0
  {
  }

  lemma StepInPop(s: State)
    requires ConsumerEnabled(s) && ConsumerStep(s).removed <= |ConsumerStep(s).log|
    requires ConsumerStep(s).consumer == CheckEmpty || Popping(ConsumerStep(s))
    ensures ConsumerStep(s).consumer != ReturnNull
  {
    hide ConsumerStep;
  }

  /** Every move brings the consumer closer to its emptiness check, unless it is there. */
  lemma MoveRanks(s: State)
    requires ConsumerEnabled(s) && s.consumer != CheckEmpty
    ensures Rank(ConsumerStep(s).consumer) < Rank(s.consumer)
  {
    hide Pending;
    match s.consumer
    case LoadFirst =>
    case Reload(_) =>
    case LoadHead(_) =>
    case StubClear(_) =>
    case StubExchange(_) =>
    case StubLink(_, _, _) =>
    case LoadLast(_) =>
    case ReturnNull =>
    case CountDown(_) =>
    case Consume(_) =>
  }

  /** Wherever in a `pop` the lone consumer is, it gets back to its emptiness check. */
  lemma {:induction false} BackToCheck(s: State) returns (n: nat, s': State)
    requires Inv(s) && NoLeak(s) && s.producers == map[]
    ensures ConsumerMoves(s, n) == Some(s')
    ensures Inv(s') && NoLeak(s') && s'.consumer == CheckEmpty
    ensures s'.producers == map[] && s'.mode == s.mode
    decreases Rank(s.consumer)
  {
    hide ConsumerStep, ConsumerEnabled, ConsumerMoves, Messages, NoLeak;
    hide LinksOk, ProducersOk, HistoryOk, SizeOk, CallOk;
    NeverStuck(s);
    OneMove(s, 0);
    if s.consumer == CheckEmpty {
      n, s' := 0, s;
    } else {
      MoveRanks(s);
      ConsumerShape(s);
      StepOk(s, ConsumerMove);
      StepLeaksNothing(s, ConsumerMove);
      n, s' := BackToCheck(ConsumerStep(s));
      OneMove(s, n);
      n := n + 1;
    }
  }

  /** How many of the steps are the consumer's. */
  function MovesIn(steps: seq<Step>): nat {
    if steps == [] then 0
    else MovesIn(steps[..|steps| - 1]) + if steps[|steps| - 1] == ConsumerMove then 1 else 0
  }

  /** The consumer is back at its emptiness check at some point of these further steps. */
  ghost predicate ReachesCheck(steps: seq<Step>, more: seq<Step>) {
    exists k ::
      && 0 <= k <= |more|
      && After(steps + more[..k]).Some?
      && After(steps + more[..k]).value.consumer == CheckEmpty
  }

  lemma ProducerLeavesConsumer(s: State, step: Step)
    requires Enabled(s, step) && step != ConsumerMove
    ensures Apply(s, step).consumer == s.consumer
  {
  }

  lemma {:induction false} RankFalls(steps: seq<Step>, more: seq<Step>)
    requires After(steps + more).Some?
    ensures After(steps).Some?
    ensures ReachesCheck(steps, more)
            || Rank(After(steps + more).value.consumer) + MovesIn(more) <= Rank(After(steps).value.consumer)
  {
    hide Apply, Enabled, Rank;
    if more == [] {
      assert steps + more == steps;
    } else {
      var init, step := more[..|more| - 1], more[|more| - 1];
      assert (steps + more)[..|steps + more| - 1] == steps + init;
      RankFalls(steps, init);
      var s := After(steps + init).value;
      if ReachesCheck(steps, init) {
        var k :| 0 <= k <= |init| && After(steps + init[..k]).Some?
                 && After(steps + init[..k]).value.consumer == CheckEmpty;
        assert more[..k] == init[..k];
      } else if step == ConsumerMove {
        assert init[..|init|] == init;
        ReachableOk(steps + init);
        NeverStuck(s);
        MoveRanksInRun(s);
      } else {
        ProducerLeavesConsumer(s, step);
      }
    }
  }

  lemma MoveRanksInRun(s: State)
    requires Inv(s) && Enabled(s, ConsumerMove) && s.consumer != CheckEmpty
    ensures Rank(Apply(s, ConsumerMove).consumer) < Rank(s.consumer)
  {
    MoveRanks(s);
  }

  /** `pop` is wait-free: whatever the producers do meanwhile, nine moves of its own bring the
      consumer from anywhere back to its emptiness check, and it always has a move to make. */
  lemma {:induction false} PopIsWaitFree(steps: seq<Step>, more: seq<Step>)
    requires After(steps + more).Some? && MovesIn(more) >= 9
    ensures ReachesCheck(steps, more)
    ensures Enabled(After(steps + more).value, ConsumerMove)
  {
    hide After, Inv, ConsumerEnabled;
    RankFalls(steps, more);
    ReachableOk(steps + more);
    NeverStuck(After(steps + more).value);
    assert more[..|more|] == more;
  }

  /** At rest the counter is the length of the queue, and only queued messages are in memory. */
  lemma AtRest(s: State)
    requires Inv(s) && NoLeak(s) && s.producers == map[] && s.consumer == CheckEmpty
    ensures |Pending(s)| == s.size == |s.live|
  {
    SplitOfPushed(s);
    assert Uncounted(s) == {};
    assert HoldingProducers(s) == {};
  }

  lemma PopOne(s: State) returns (n: nat, s': State)
    requires Inv(s) && NoLeak(s) && s.producers == map[] && s.consumer == CheckEmpty && s.size > 0
    ensures ConsumerMoves(s, n) == Some(s')
    ensures Inv(s') && NoLeak(s') && s'.consumer == CheckEmpty
    ensures |Pending(s)| > 0 && SameBut(s, s', 1)
  {
    AtRest(s);
    var s1 := ConsumerStep(s);
    StepOk(s, ConsumerMove);
    StepLeaksNothing(s, ConsumerMove);
    n, s' := FinishPop(s1);
    n := n + 1;
  }

  /** With no producer about, the consumer at its emptiness check drains the queue: it returns
      the remaining messages, as many as `mq_size` says, each once and in exchange order, deletes
      them all, handling none of them once it is shut down, and stops with the counter at zero and no
      message left in memory. */
  lemma {:induction false} DrainTerminates(s: State) returns (n: nat, s': State)
    requires Inv(s) && NoLeak(s) && s.producers == map[] && s.consumer == CheckEmpty
    ensures ConsumerMoves(s, n) == Some(s')
    ensures Inv(s') && s'.consumer == CheckEmpty && s'.size == 0 && s'.live == {}
    ensures |Pending(s)| == s.size && SameBut(s, s', s.size)
    decreases s.size
  {
    hide ConsumerStep, Messages, NoLeak, LinksOk, ProducersOk, HistoryOk, SizeOk, CallOk;
    AtRest(s);
    if s.size == 0 {
      n, s' := 0, s;
    } else {
      var a, s1 := PopOne(s);
      AtRest(s1);
      n, s' := DrainTerminates(s1);
      MovesCompose(s, a, n);
      n := a + n;
      SameButCompose(s, s1, s', 1, s1.size);
    }
  }
}
