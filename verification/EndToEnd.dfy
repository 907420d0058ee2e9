/** From the programs of the producers, through the queue, to the counter. */
module EndToEnd {
  import opened Wrappers
  import opened Events
  import opened EventQueueProtocol
  import opened QueueInvariant
  import opened QueueTheorems
  import opened Counter

  /** An event and the producer it comes from. */
  datatype Parcel = Parcel(sender: Producer, event: Event)

  /** What the producers create, in the order in which they create it. */
  function CreatedIn(steps: seq<Step>): seq<Parcel> {
    if steps == [] then []
    else CreatedIn(steps[..|steps| - 1]) +
         match steps[|steps| - 1]
         case Create(p, _, e) => [Parcel(p, e)]
         case _ => []
  }

  lemma CreatedSnoc(steps: seq<Step>, step: Step)
    ensures CreatedIn(steps + [step])
            == CreatedIn(steps) + if step.Create? then [Parcel(step.p, step.e)] else []
  {
    assert (steps + [step])[..|steps|] == steps;
  }

  function Parcels(es: seq<Entry>): seq<Parcel> {
    if es == [] then [] else Parcels(es[..|es| - 1]) + [Parcel(es[|es| - 1].sender, es[|es| - 1].event)]
  }

  /** The events of one producer, in order. */
  function OfProducer(ps: seq<Parcel>, p: Producer): seq<Event> {
    if ps == [] then []
    else OfProducer(ps[..|ps| - 1], p) + if ps[|ps| - 1].sender == p then [ps[|ps| - 1].event] else []
  }

  function EventsIn(ps: seq<Parcel>): seq<Event> {
    if ps == [] then [] else EventsIn(ps[..|ps| - 1]) + [ps[|ps| - 1].event]
  }

  lemma OfProducerSnoc(ps: seq<Parcel>, x: Parcel, p: Producer)
    ensures OfProducer(ps + [x], p) == OfProducer(ps, p) + if x.sender == p then [x.event] else []
  {
    assert (ps + [x])[..|ps|] == ps;
  }

  lemma ParcelsSnoc(es: seq<Entry>, e: Entry)
    ensures Parcels(es + [e]) == Parcels(es) + [Parcel(e.sender, e.event)]
  {
    assert (es + [e])[..|es|] == es;
  }

  /** The event a producer has created but not yet exchanged into the queue. */
  ghost function InHandOf(s: State, p: Producer): seq<Event> {
    if p in s.producers && Holding(s.producers[p]) && s.producers[p].n in s.data
    then [s.data[s.producers[p].n]] else []
  }

  ghost predicate OrderKept(s: State, created: seq<Parcel>, p: Producer) {
    OfProducer(created, p) == OfProducer(Parcels(Pushed(s)), p) + InHandOf(s, p)
  }

  lemma CreateHands(s: State, q: Producer, n: Node, e: Event, p: Producer)
    requires Inv(s) && Enabled(s, Create(q, n, e))
    ensures var s' := Apply(s, Create(q, n, e));
            && Pushed(s') == Pushed(s)
            && InHandOf(s', p) == InHandOf(s, p) + if p == q then [e] else []
  {
    hide LinksOk, ConsumerOk, HistoryOk, SizeOk, CallOk, Messages;
    if p in s.producers {
      assert ProducerOk(s, p);
    }
  }

  lemma CreateKeepsOrder(s: State, created: seq<Parcel>, q: Producer, n: Node, e: Event, p: Producer)
    requires Inv(s) && Enabled(s, Create(q, n, e)) && OrderKept(s, created, p)
    ensures OrderKept(Apply(s, Create(q, n, e)), created + [Parcel(q, e)], p)
  {
    hide Inv, Apply, Pushed, InHandOf;
    CreateHands(s, q, n, e, p);
    OfProducerSnoc(created, Parcel(q, e), p);
  }

  lemma ExchangeHands(s: State, q: Producer, p: Producer)
    requires Inv(s) && Enabled(s, PushExchange(q))
    ensures var s' := Apply(s, PushExchange(q));
            var e := Entry(s.producers[q].n, s.data[s.producers[q].n], q);
            && Pushed(s') == Pushed(s) + [e]
            && InHandOf(s, p) == (if p == q then [e.event] else []) + InHandOf(s', p)
  {
    hide LinksOk, ConsumerOk, HistoryOk, SizeOk, CallOk, Messages;
    var s' := Apply(s, PushExchange(q));
    assert ProducerOk(s, q);
    ExchangeMessages(s, s', s'.log[|s.log|]);
  }

  lemma ExchangeKeepsOrder(s: State, created: seq<Parcel>, q: Producer, p: Producer)
    requires Inv(s) && Enabled(s, PushExchange(q)) && OrderKept(s, created, p)
    ensures OrderKept(Apply(s, PushExchange(q)), created, p)
  {
    hide Inv, Apply, Pushed, InHandOf;
    var e := Entry(s.producers[q].n, s.data[s.producers[q].n], q);
    ExchangeHands(s, q, p);
    ParcelsSnoc(Pushed(s), e);
    OfProducerSnoc(Parcels(Pushed(s)), Parcel(q, e.event), p);
  }

  lemma ConsumerKeeps(s: State)
    requires Inv(s) && ConsumerEnabled(s)
    ensures Pushed(ConsumerStep(s)) == Pushed(s)
    ensures ConsumerStep(s).producers == s.producers && ConsumerStep(s).data == s.data
  {
    hide ConsumerStep, LinksOk, ProducersOk, HistoryOk, SizeOk, CallOk, Messages;
    ConsumerShape(s);
    MessagesOne(StubEntry);
    MessagesConcat(s.log, [StubEntry]);
    assert Messages(s.log) + [] == Messages(s.log);
  }

  lemma StepKeepsOrder(s: State, created: seq<Parcel>, step: Step, p: Producer)
    requires Inv(s) && Enabled(s, step) && !step.Create? && OrderKept(s, created, p)
    ensures OrderKept(Apply(s, step), created, p)
  {
    hide Inv, ConsumerStep, Messages;
    match step
    case PushExchange(q) => ExchangeKeepsOrder(s, created, q, p);
    case ConsumerMove =>
      ConsumerKeeps(s);
    case _ =>
  }

  /** Each producer's messages are exchanged in the order of its program: those exchanged so far,
      and then the one still in its hands. */
  lemma {:induction false} ProgramOrder(steps: seq<Step>, p: Producer)
    requires After(steps).Some?
    ensures OrderKept(After(steps).value, CreatedIn(steps), p)
  {
    if steps == [] {
      MessagesOne(StubEntry);
    } else {
      var init, step := steps[..|steps| - 1], steps[|steps| - 1];
      ReachableOk(init);
      ProgramOrder(init, p);
      match step
      case Create(q, n, e) => CreateKeepsOrder(After(init).value, CreatedIn(init), q, n, e, p);
      case _ =>
        assert CreatedIn(steps) == CreatedIn(init);
        StepKeepsOrder(After(init).value, CreatedIn(init), step, p);
    }
  }

  // ---- From orders to multisets and sums ------------------------------------------------------

  lemma {:induction false} CountOfProducer(ps: seq<Parcel>, x: Parcel)
    ensures multiset(ps)[x] == multiset(OfProducer(ps, x.sender))[x.event]
  {
    if ps != [] {
      CountOfProducer(ps[..|ps| - 1], x);
      assert ps == ps[..|ps| - 1] + [ps[|ps| - 1]];
    }
  }

  /** When no producer is about, what was exchanged is what was created. */
  lemma {:induction false} AllExchanged(steps: seq<Step>)
    requires After(steps).Some? && After(steps).value.producers == map[]
    ensures multiset(Parcels(Pushed(After(steps).value))) == multiset(CreatedIn(steps))
  {
    var a, b := Parcels(Pushed(After(steps).value)), CreatedIn(steps);
    forall x: Parcel ensures multiset(a)[x] == multiset(b)[x] {
      ProgramOrder(steps, x.sender);
      CountOfProducer(a, x);
      CountOfProducer(b, x);
    }
  }

  lemma {:induction false} EventsOfParcels(es: seq<Entry>)
    ensures EventsIn(Parcels(es)) == EventsOf(es)
  {
    if es != [] {
      var init, e := es[..|es| - 1], es[|es| - 1];
      EventsOfParcels(init);
      assert (Parcels(init) + [Parcel(e.sender, e.event)])[..|Parcels(init)|] == Parcels(init);
    }
  }

  lemma EventsInSnoc(ps: seq<Parcel>, x: Parcel)
    ensures EventsIn(ps + [x]) == EventsIn(ps) + [x.event]
  {
    assert (ps + [x])[..|ps|] == ps;
  }

  lemma {:induction false} EventsInConcat(ps: seq<Parcel>, qs: seq<Parcel>)
    ensures EventsIn(ps + qs) == EventsIn(ps) + EventsIn(qs)
  {
    if qs == [] {
      assert ps + qs == ps;
    } else {
      var init, x := qs[..|qs| - 1], qs[|qs| - 1];
      EventsInConcat(ps, init);
      EventsInSnoc(ps + init, x);
      assert ps + qs == ps + init + [x];
    }
  }

  lemma EventsInRemoved(l: seq<Parcel>, x: Parcel, r: seq<Parcel>)
    ensures multiset(EventsIn(l + [x] + r)) == multiset(EventsIn(l + r)) + multiset{x.event}
  {
    EventsInConcat(l + [x], r);
    EventsInSnoc(l, x);
    EventsInConcat(l, r);
  }

  lemma Removed<T>(l: seq<T>, x: T, r: seq<T>)
    ensures multiset(l + r) == multiset(l + [x] + r) - multiset{x}
  {
  }

  lemma {:induction false} EventsOfPermutation(a: seq<Parcel>, b: seq<Parcel>)
    requires multiset(a) == multiset(b)
    ensures multiset(EventsIn(a)) == multiset(EventsIn(b))
    decreases |a|
  {
    assert |multiset(a)| == |a| && |multiset(b)| == |b|;
    if a != [] {
      hide EventsIn;
      var x, a' := a[|a| - 1], a[..|a| - 1];
      assert a == a' + [x] + [];
      assert x in multiset(b);
      var i :| 0 <= i < |b| && b[i] == x;
      var l, r := b[..i], b[i + 1..];
      assert b == l + [x] + r;
      Removed(a', x, []);
      Removed(l, x, r);
      assert a' + [] == a';
      EventsOfPermutation(a', l + r);
      EventsInRemoved(a', x, []);
      EventsInRemoved(l, x, r);
    }
  }

  // ---- The end-to-end theorem -----------------------------------------------------------------

  /** The processor at its emptiness check, all producers done, nothing left to pop. */
  ghost predicate Settled(s: State) {
    s.producers == map[] && s.consumer == CheckEmpty && s.mode == Processing && s.size == 0
  }

  /** The processor has handled every event that was ever created, each once. */
  lemma {:induction false} SettledHandledAll(steps: seq<Step>)
    requires After(steps).Some? && Settled(After(steps).value)
    ensures multiset(After(steps).value.processed) == multiset(EventsIn(CreatedIn(steps)))
  {
    var s := After(steps).value;
    ReachableOk(steps);
    NothingLeaks(steps);
    AtRest(s);
    SplitOfPushed(s);
    assert s.returned == Pushed(s);
    EventsOfParcels(Pushed(s));
    AllExchanged(steps);
    EventsOfPermutation(Parcels(Pushed(s)), CreatedIn(steps));
  }

  /** However the producers interleaved: when they are done and the processor has emptied the queue,
      the counter is at the sum of all deltas and at the latest time, and its statistics were handed
      one update more than there were events, in non-decreasing time. */
  lemma {:induction false} CounterEndToEnd(steps: seq<Step>)
    requires After(steps).Some? && Settled(After(steps).value)
    requires Orderless(EventsIn(CreatedIn(steps))) && EventsIn(CreatedIn(steps)) != []
    ensures var events := EventsIn(CreatedIn(steps));
            var counter := Fold(After(steps).value.processed);
            && counter.value == Added(events) - Taken(events)
            && IsLatest(events, counter.timestamp)
            && |counter.updates| == |events| + 1
            && TimesInOrder(counter.updates)
  {
    SettledHandledAll(steps);
    FoldOfPermutation(EventsIn(CreatedIn(steps)), After(steps).value.processed);
  }

  /** And whatever the times: the counter accounts for every event that was created exactly when, in
      the order in which they were handled, no time of zero made it start over. */
  lemma {:induction false} CounterCountsAllIff(steps: seq<Step>)
    requires After(steps).Some? && Settled(After(steps).value) && CreatedIn(steps) != []
    ensures var handled := After(steps).value.processed;
            |Fold(handled).updates| == |CreatedIn(steps)| + 1 <==> !Forgets(handled)
  {
    var handled := After(steps).value.processed;
    SettledHandledAll(steps);
    assert |multiset(handled)| == |multiset(EventsIn(CreatedIn(steps)))|;
    EventsInLength(CreatedIn(steps));
    AllCountedIff(handled);
  }

  lemma {:induction false} EventsInLength(ps: seq<Parcel>)
    ensures |EventsIn(ps)| == |ps|
  {
    if ps != [] {
      EventsInLength(ps[..|ps| - 1]);
    }
  }

  function Repeat(n: nat): seq<Step> {
    if n == 0 then [] else Repeat(n - 1) + [ConsumerMove]
  }

  lemma {:induction false} MovesAreSteps(steps: seq<Step>, n: nat)
    requires After(steps).Some? && ConsumerMoves(After(steps).value, n).Some?
    ensures After(steps + Repeat(n)) == ConsumerMoves(After(steps).value, n)
    ensures CreatedIn(steps + Repeat(n)) == CreatedIn(steps)
    decreases n
  {
    hide ConsumerStep, ConsumerEnabled;
    if n == 0 {
      assert steps + Repeat(0) == steps;
    } else {
      var s := After(steps).value;
      PrefixOfMoves(s, n);
      MovesAreSteps(steps, n - 1);
      MovesCompose(s, n - 1, 1);
      LastMove(ConsumerMoves(s, n - 1).value);
      OneMoreStep(steps + Repeat(n - 1), ConsumerMove);
      CreatedSnoc(steps + Repeat(n - 1), ConsumerMove);
      assert steps + Repeat(n) == steps + Repeat(n - 1) + [ConsumerMove];
    }
  }

  lemma LastMove(s: State)
    ensures ConsumerMoves(s, 1) == if ConsumerEnabled(s) then Some(ConsumerStep(s)) else None
  {
    if ConsumerEnabled(s) {
      assert ConsumerMoves(ConsumerStep(s), 0) == Some(ConsumerStep(s));
    }
  }

  lemma {:induction false} PrefixOfMoves(s: State, n: nat)
    requires n > 0 && ConsumerMoves(s, n).Some?
    ensures ConsumerMoves(s, n - 1).Some?
    decreases n
  {
    if n > 1 {
      PrefixOfMoves(ConsumerStep(s), n - 1);
    }
  }

  /** Once the producers are done, letting the processor run is enough to settle the queue, wherever
      in a `pop` it was. */
  lemma {:induction false} ProcessorSettles(steps: seq<Step>) returns (n: nat)
    requires After(steps).Some?
    requires After(steps).value.producers == map[] && After(steps).value.mode == Processing
    ensures After(steps + Repeat(n)).Some? && Settled(After(steps + Repeat(n)).value)
    ensures CreatedIn(steps + Repeat(n)) == CreatedIn(steps)
  {
    hide Inv, NoLeak, Pending, ConsumerMoves, ConsumerEnabled, CreatedIn, Repeat;
    ReachableOk(steps);
    NothingLeaks(steps);
    var a, s1 := BackToCheck(After(steps).value);
    NeverStuck(s1);
    var b, s2 := DrainTerminates(s1);
    MovesCompose(After(steps).value, a, b);
    n := a + b;
    MovesAreSteps(steps, n);
  }

  lemma CreatedInOnePush()
    ensures CreatedIn(OnePush + [PushCount(0)]) == [Parcel(0, Increment(1, 1))]
  {
    assert CreatedIn([]) == [];
    hide CreatedIn;
    CreatedSnoc([], OnePush[0]);
    assert [] + [OnePush[0]] == OnePush[..1];
    CreatedSnoc(OnePush[..1], OnePush[1]);
    assert OnePush[..1] + [OnePush[1]] == OnePush[..2];
    CreatedSnoc(OnePush[..2], OnePush[2]);
    assert OnePush[..2] + [OnePush[2]] == OnePush[..3];
    CreatedSnoc(OnePush[..3], OnePush[3]);
    assert OnePush[..3] + [OnePush[3]] == OnePush;
    CreatedSnoc(OnePush, PushCount(0));
  }

  lemma SumOfOne()
    ensures Added([Increment(1, 1)]) - Taken([Increment(1, 1)]) == 1
  {
    assert [Increment(1, 1)][..0] == [];
  }

  /** For one: a single increment of one, pushed by one producer, is handled and leaves the counter
      at one. */
  lemma OneIncrementArrives() returns (steps: seq<Step>)
    ensures After(steps).Some? && Settled(After(steps).value)
    ensures CreatedIn(steps) == [Parcel(0, Increment(1, 1))]
    ensures Fold(After(steps).value.processed).value == 1
  {
    var pushed := OnePush + [PushCount(0)];
    AfterOnePush();
    OneMoreStep(OnePush, PushCount(0));
    assert After(pushed).value.producers == map[];
    CreatedInOnePush();
    var n := ProcessorSettles(pushed);
    steps := pushed + Repeat(n);
    var one := [Increment(1, 1)];
    assert EventsIn(CreatedIn(steps)) == one by {
      EventsInSnoc([], Parcel(0, one[0]));
      assert [] + [Parcel(0, one[0])] == CreatedIn(steps);
      assert [] + [one[0]] == one;
    }
    CounterEndToEnd(steps);
    SumOfOne();
  }
}
