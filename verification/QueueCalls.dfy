/** What single calls of `push` and `pop` amount to within a run, and which memory they depend on. */
module QueueCalls {
  import opened Wrappers
  import opened Events
  import opened EventQueueProtocol
  import opened QueueInvariant
  import opened QueueTheorems

  // ---- A call of pop --------------------------------------------------------------------------

  /** The state after the first `n` steps of a run that is possible. */
  ghost function StateAt(steps: seq<Step>, n: nat): State
    requires n <= |steps| && After(steps[..n]).Some?
  {
    After(steps[..n]).value
  }

  ghost predicate Possible(steps: seq<Step>) {
    forall n :: 0 <= n <= |steps| ==> After(steps[..n]).Some?
  }

  lemma {:induction false} PrefixesPossible(steps: seq<Step>)
    requires After(steps).Some?
    ensures Possible(steps)
  {
    assert steps[..|steps|] == steps;
    if steps != [] {
      var init := steps[..|steps| - 1];
      PrefixesPossible(init);
      forall n | 0 <= n < |steps| ensures After(steps[..n]).Some? {
        assert steps[..n] == init[..n];
      }
    }
  }

  lemma StateAfter(steps: seq<Step>, n: nat)
    requires n < |steps| && Possible(steps)
    ensures Enabled(StateAt(steps, n), steps[n]) && StateAt(steps, n + 1) == Apply(StateAt(steps, n), steps[n])
  {
    hide Enabled, Apply;
    assert steps[..n + 1][..n] == steps[..n];
  }

  /** The consumer has begun a call of `pop` with its step `k` and is still in it after `n` steps. */
  ghost predicate InCall(steps: seq<Step>, k: nat, n: nat)
    requires k < n <= |steps| && Possible(steps)
  {
    && StateAt(steps, k).consumer == LoadFirst && steps[k] == ConsumerMove
    && (forall j :: k < j <= n ==> InPop(StateAt(steps, j).consumer) || StateAt(steps, j).consumer == ReturnNull)
  }

  /** Some push stood between its exchange and its link when the call began, or exchanged during it. */
  ghost predicate Overlapped(steps: seq<Step>, k: nat, n: nat)
    requires k < n <= |steps| && Possible(steps)
  {
    || (exists p :: p in StateAt(steps, k).producers && StateAt(steps, k).producers[p].Exchanged?)
    || (exists j :: k < j < n && steps[j].PushExchange?)
  }

  lemma OverlappedMore(steps: seq<Step>, k: nat, n: nat)
    requires k < n < |steps| && Possible(steps)
    ensures Overlapped(steps, k, n + 1) <==> Overlapped(steps, k, n) || steps[n].PushExchange?
  {
  }

  lemma CallBegins(s: State)
    requires ConsumerEnabled(s) && s.consumer == LoadFirst
    ensures ConsumerStep(s).call == CallNow(s)
  {
  }

  lemma CallGoesOn(s: State, step: Step)
    requires Enabled(s, step) && s.consumer != LoadFirst
    ensures Apply(s, step).call == if step.PushExchange? then s.call.(overlap := true) else s.call
  {
    hide Pending;
  }

  /** What the history of the call remembers is what happened in the run. */
  lemma {:induction false} CallRemembers(steps: seq<Step>, k: nat, n: nat)
    requires k < n <= |steps| && Possible(steps) && InCall(steps, k, n)
    requires StateAt(steps, k).removed <= |StateAt(steps, k).log|
    ensures StateAt(steps, n).call.empty <==> Pending(StateAt(steps, k)) == []
    ensures StateAt(steps, n).call.overlap <==> Overlapped(steps, k, n)
    decreases n
  {
    hide Pending, Apply, Enabled, ConsumerStep, After;
    StateAfter(steps, n - 1);
    if n == k + 1 {
      CallStarts(steps, k);
    } else {
      CallRemembers(steps, k, n - 1);
      OverlappedMore(steps, k, n - 1);
      CallGoesOn(StateAt(steps, n - 1), steps[n - 1]);
    }
  }

  lemma CallStarts(steps: seq<Step>, k: nat)
    requires k < |steps| && Possible(steps)
    requires StateAt(steps, k).consumer == LoadFirst && steps[k] == ConsumerMove
    requires StateAt(steps, k).removed <= |StateAt(steps, k).log|
    ensures StateAt(steps, k + 1).call.empty <==> Pending(StateAt(steps, k)) == []
    ensures StateAt(steps, k + 1).call.overlap <==> Overlapped(steps, k, k + 1)
  {
    hide Pending, ConsumerStep, After;
    StateAfter(steps, k);
    CallBegins(StateAt(steps, k));
  }

  /** A call of `pop` that comes to return null found the queue empty as it began, or some push
      overlapped it. */
  lemma {:induction false} NullMeansEmptyOrOverlapped(steps: seq<Step>, k: nat)
    requires After(steps).Some? && k < |steps|
    ensures Possible(steps)
    ensures InCall(steps, k, |steps|) && After(steps).value.consumer == ReturnNull ==>
              && StateAt(steps, k).removed <= |StateAt(steps, k).log|
              && (Pending(StateAt(steps, k)) == [] || Overlapped(steps, k, |steps|))
  {
    PrefixesPossible(steps);
    assert steps[..|steps|] == steps;
    ReachableOk(steps[..k]);
    ReachableOk(steps);
    if InCall(steps, k, |steps|) && After(steps).value.consumer == ReturnNull {
      CallRemembers(steps, k, |steps|);
    }
  }

  /** A step that does not make `pop` return a message at most adds to what is queued. */
  lemma StepAddsOnly(s: State, step: Step)
    requires Inv(s) && Enabled(s, step) && !Apply(s, step).consumer.CountDown?
    ensures s.removed <= |s.log| && Apply(s, step).removed <= |Apply(s, step).log|
    ensures Pending(s) <= Pending(Apply(s, step)) && Apply(s, step).returned == s.returned
  {
    hide Pending, ConsumerStep, LinksOk, ProducersOk, HistoryOk, SizeOk, CallOk;
    StepRefines(s, step);
  }

  /** During a call nothing is taken off the queue. */
  lemma {:induction false} CallKeeps(steps: seq<Step>, k: nat, n: nat)
    requires k < n <= |steps| && Possible(steps) && InCall(steps, k, n)
    ensures StateAt(steps, k).removed <= |StateAt(steps, k).log|
    ensures StateAt(steps, n).removed <= |StateAt(steps, n).log|
    ensures Pending(StateAt(steps, k)) <= Pending(StateAt(steps, n))
    ensures StateAt(steps, n).returned == StateAt(steps, k).returned
    decreases n
  {
    hide Pending, Apply, Enabled, ConsumerStep, After, Inv;
    StateAfter(steps, n - 1);
    ReachableOk(steps[..n - 1]);
    StepAddsOnly(StateAt(steps, n - 1), steps[n - 1]);
    if k + 1 < n {
      CallKeeps(steps, k, n - 1);
    }
  }

  /** The step that makes `pop` return a message takes off the oldest. */
  lemma ReturnTakesOldest(s: State, step: Step)
    requires Inv(s) && Enabled(s, step) && !s.consumer.CountDown? && Apply(s, step).consumer.CountDown?
    ensures s.removed <= |s.log| && Pending(s) != []
    ensures Apply(s, step).returned == s.returned + [Pending(s)[0]]
    ensures Apply(s, step).consumer.m == Pending(s)[0].node
    ensures step == ConsumerMove && (s.consumer == LoadFirst || !s.call.empty)
    ensures s.consumer == LoadFirst || InPop(s.consumer)
  {
    hide Pending, ConsumerStep, LinksOk, ProducersOk, HistoryOk, SizeOk;
    StepRefines(s, step);
    OnlyThePopReturns(s, step);
    StepOk(s, step);
    ReturnedIsHeld(Apply(s, step));
  }

  lemma OnlyThePopReturns(s: State, step: Step)
    requires Enabled(s, step) && !s.consumer.CountDown? && Apply(s, step).consumer.CountDown?
    ensures step == ConsumerMove && (s.consumer == LoadFirst || InPop(s.consumer))
  {
    hide Pending;
  }

  lemma ReturnedIsHeld(s: State)
    requires Inv(s) && s.consumer.CountDown?
    ensures |s.returned| > 0 && s.consumer.m == s.returned[|s.returned| - 1].node
  {
  }

  /** A call of `pop` that returns a message, with its last step, found the queue not empty as it
      began, and returns the message that was the oldest then. */
  lemma {:induction false} MessageIsTheOldest(steps: seq<Step>, k: nat)
    requires After(steps).Some? && k < |steps|
    ensures Possible(steps)
    ensures && StateAt(steps, k).consumer == LoadFirst && steps[k] == ConsumerMove
            && (k + 1 < |steps| ==> InCall(steps, k, |steps| - 1))
            && After(steps).value.consumer.CountDown?
            ==> && StateAt(steps, k).removed <= |StateAt(steps, k).log|
                && Pending(StateAt(steps, k)) != []
                && After(steps).value.consumer.m == Pending(StateAt(steps, k))[0].node
                && After(steps).value.returned == StateAt(steps, k).returned + [Pending(StateAt(steps, k))[0]]
  {
    hide Pending, Apply, Enabled, ConsumerStep, Inv;
    PrefixesPossible(steps);
    assert steps[..|steps|] == steps;
    var last := |steps| - 1;
    StateAfter(steps, last);
    ReachableOk(steps[..last]);
    var s := StateAt(steps, last);
    if && StateAt(steps, k).consumer == LoadFirst && steps[k] == ConsumerMove
       && (k < last ==> InCall(steps, k, last)) && After(steps).value.consumer.CountDown?
    {
      ReturnTakesOldest(s, steps[last]);
      if k < last {
        CallKeeps(steps, k, last);
        CallRemembers(steps, k, last);
      }
    }
  }

  /** While it is not shut down, the processor has handled the events of the messages that `pop`
      returned, in that order, all but the one that it still has in hand. */
  lemma {:induction false} HandledInOrder(steps: seq<Step>)
    requires After(steps).Some? && After(steps).value.mode == Processing
    ensures var s := After(steps).value;
            && |s.returned| == |s.processed| + (if s.consumer.CountDown? || s.consumer.Consume? then 1 else 0)
            && forall i :: 0 <= i < |s.processed| ==> s.processed[i] == s.returned[i].event
  {
    ReachableOk(steps);
  }

  // ---- A call of push -------------------------------------------------------------------------

  /** The steps of one push, from the creation of its message on. */
  function PushSteps(p: Producer, n: Node, e: Event): seq<Step> {
    [Create(p, n, e), PushClear(p), PushExchange(p), PushLink(p), PushCount(p)]
  }

  /** The steps that are left of a push. */
  function StepsLeft(p: Producer, pc: ProducerPc): seq<Step> {
    match pc
    case Created(_) => [PushClear(p), PushExchange(p), PushLink(p), PushCount(p)]
    case Cleared(_) => [PushExchange(p), PushLink(p), PushCount(p)]
    case Exchanged(_, _, _) => [PushLink(p), PushCount(p)]
    case Linked => [PushCount(p)]
  }

  lemma NextOfPush(s: State, p: Producer)
    requires Inv(s) && p in s.producers
    ensures var left := StepsLeft(p, s.producers[p]);
            && Enabled(s, left[0])
            && if |left| == 1 then p !in Apply(s, left[0]).producers
               else p in Apply(s, left[0]).producers
                    && StepsLeft(p, Apply(s, left[0]).producers[p]) == left[1..]
  {
    hide ConsumerStep, ChainOk, LinksOk, ConsumerOk, HistoryOk, SizeOk, CallOk, OutOfChain, LinkPending;
    assert ProducerOk(s, p);
  }

  /** `push` is wait-free: wherever a producer is in it, its own next steps, four at most, are possible
      one after the other and bring it to the end. */
  lemma {:induction false} PushIsWaitFree(steps: seq<Step>, p: Producer)
    requires After(steps).Some? && p in After(steps).value.producers
    ensures var left := StepsLeft(p, After(steps).value.producers[p]);
            && |left| <= 4
            && After(steps + left).Some? && p !in After(steps + left).value.producers
    decreases |StepsLeft(p, After(steps).value.producers[p])|
  {
    hide Inv, Apply, Enabled;
    ReachableOk(steps);
    var s := After(steps).value;
    var left := StepsLeft(p, s.producers[p]);
    NextOfPush(s, p);
    OneMoreStep(steps, left[0]);
    var more := steps + [left[0]];
    if |left| == 1 {
      assert steps + left == more;
    } else {
      PushIsWaitFree(more, p);
      assert more + left[1..] == steps + left;
    }
  }

  /** A thread outside `push` can always push a message, at any address that is free. */
  lemma {:induction false} PushIsAlwaysPossible(steps: seq<Step>, p: Producer, n: Node, e: Event)
    requires After(steps).Some? && p !in After(steps).value.producers
    requires n.Msg? && n !in After(steps).value.live
    ensures After(steps + PushSteps(p, n, e)).Some?
    ensures p !in After(steps + PushSteps(p, n, e)).value.producers
  {
    var first := Create(p, n, e);
    OneMoreStep(steps, first);
    PushIsWaitFree(steps + [first], p);
    assert steps + [first] + StepsLeft(p, Created(n)) == steps + PushSteps(p, n, e);
  }

  // ---- Memory ---------------------------------------------------------------------------------

  /** The same state but for what is in the memory of one node. */
  function WithMemory(s: State, n: Node, link: Option<Node>, event: Option<Event>): State {
    s.(next := if link.Some? then s.next[n := link.value] else s.next - {n},
       data := if event.Some? then s.data[n := event.value] else s.data - {n})
  }

  /** Whatever the node holds, the step is possible, does the same, and leaves the node as it is. */
  ghost predicate Irrelevant(s: State, step: Step, n: Node, link: Option<Node>, event: Option<Event>)
    requires Enabled(s, step)
  {
    var t := WithMemory(s, n, link, event);
    && Enabled(t, step) && Touched(t, step) == Touched(s, step)
    && Apply(t, step) == WithMemory(Apply(s, step), n, link, event)
  }

  lemma SameLog(s: State, t: State)
    requires s.log == t.log && s.removed == t.removed <= |s.log|
    ensures Pending(s) == Pending(t)
  {
  }

  lemma SameMemory(a: State, b: State)
    requires a == b.(next := a.next, data := a.data)
    requires forall k :: k in a.next <==> k in b.next
    requires forall k :: k in a.next ==> a.next[k] == b.next[k]
    requires forall k :: k in a.data <==> k in b.data
    requires forall k :: k in a.data ==> a.data[k] == b.data[k]
    ensures a == b
  {
    assert a.next == b.next && a.data == b.data;
  }

  lemma UntouchedByLinks(s: State, step: Step, n: Node, link: Option<Node>, event: Option<Event>)
    requires Enabled(s, step) && (step.PushClear? || step.PushLink?) && n !in Touched(s, step)
    ensures Irrelevant(s, step, n, link, event)
  {
    hide ConsumerStep;
    SameMemory(Apply(WithMemory(s, n, link, event), step), WithMemory(Apply(s, step), n, link, event));
  }

  lemma UntouchedByCreate(s: State, step: Step, n: Node, link: Option<Node>, event: Option<Event>)
    requires Enabled(s, step) && step.Create? && step.n != n
    ensures Irrelevant(s, step, n, link, event)
  {
    hide ConsumerStep;
    SameMemory(Apply(WithMemory(s, n, link, event), step), WithMemory(Apply(s, step), n, link, event));
  }

  lemma UntouchedByCounts(s: State, step: Step, n: Node, link: Option<Node>, event: Option<Event>)
    requires Enabled(s, step) && (step.PushExchange? || step.PushCount? || step.Shutdown?)
    requires n !in Touched(s, step)
    ensures Irrelevant(s, step, n, link, event)
  {
    hide ConsumerStep;
  }

  lemma UntouchedByStubLoad(s: State, n: Node, link: Option<Node>, event: Option<Event>)
    requires ConsumerEnabled(s) && n !in Touched(s, ConsumerMove) && s.consumer.LoadFirst? && s.tail == Stub
    ensures Irrelevant(s, ConsumerMove, n, link, event)
  {
    hide Pending, CallNow;
    var t := WithMemory(s, n, link, event);
    SameCallNow(t, s);
    assert n != Stub;
    if Stub in s.next {
      assert Stub in t.next && t.next[Stub] == s.next[Stub];
    } else {
      assert Stub !in t.next;
    }
  }

  lemma UntouchedByFirstLoad(s: State, n: Node, link: Option<Node>, event: Option<Event>)
    requires ConsumerEnabled(s) && n !in Touched(s, ConsumerMove) && s.consumer.LoadFirst? && s.tail != Stub
    ensures Irrelevant(s, ConsumerMove, n, link, event)
  {
    hide Pending, CallNow;
    SameCallNow(WithMemory(s, n, link, event), s);
  }

  lemma SameCallNow(s: State, t: State)
    requires s.log == t.log && s.removed == t.removed <= |s.log| && s.producers == t.producers
    ensures CallNow(s) == CallNow(t)
  {
    SameLog(s, t);
  }

  lemma UntouchedByTailLoad(s: State, n: Node, link: Option<Node>, event: Option<Event>)
    requires ConsumerEnabled(s) && n !in Touched(s, ConsumerMove) && (s.consumer.Reload? || s.consumer.LoadLast?)
    ensures Irrelevant(s, ConsumerMove, n, link, event)
  {
    hide Pending;
    var t := WithMemory(s, n, link, event);
    var tail := s.consumer.t;
    assert n != tail;
    if tail in s.next {
      assert tail in t.next && t.next[tail] == s.next[tail];
    } else {
      assert tail !in t.next;
    }
  }

  lemma UntouchedByStores(s: State, n: Node, link: Option<Node>, event: Option<Event>)
    requires ConsumerEnabled(s) && n !in Touched(s, ConsumerMove)
    requires s.consumer.StubClear? || s.consumer.StubExchange? || s.consumer.StubLink?
    ensures Irrelevant(s, ConsumerMove, n, link, event)
  {
    hide Pending;
    var t := WithMemory(s, n, link, event);
    SameMemory(ConsumerStep(t), WithMemory(ConsumerStep(s), n, link, event));
  }

  lemma UntouchedByMessageDone(s: State, n: Node, link: Option<Node>, event: Option<Event>)
    requires ConsumerEnabled(s) && n !in Touched(s, ConsumerMove) && (s.consumer.CountDown? || s.consumer.Consume?)
    ensures Irrelevant(s, ConsumerMove, n, link, event)
  {
    hide Pending;
  }

  lemma UntouchedByHeadLoad(s: State, n: Node, link: Option<Node>, event: Option<Event>)
    requires ConsumerEnabled(s) && s.consumer.LoadHead?
    ensures Irrelevant(s, ConsumerMove, n, link, event)
  {
    hide Pending;
  }

  lemma UntouchedByIdle(s: State, n: Node, link: Option<Node>, event: Option<Event>)
    requires ConsumerEnabled(s) && (s.consumer.CheckEmpty? || s.consumer.ReturnNull?)
    ensures Irrelevant(s, ConsumerMove, n, link, event)
  {
    hide Pending;
  }

  /** `Touched` names all the memory that a step depends on or changes: what any other node holds is
      irrelevant to the step. A creation also writes the new message. */
  lemma {:induction false} UntouchedIsIrrelevant(s: State, step: Step, n: Node, link: Option<Node>,
                                                 event: Option<Event>)
    requires Enabled(s, step) && n !in Touched(s, step) && !(step.Create? && step.n == n)
    ensures Irrelevant(s, step, n, link, event)
  {
    hide Irrelevant, ConsumerStep, Touched;
    if step.Create? {
      UntouchedByCreate(s, step, n, link, event);
    } else if step.PushClear? || step.PushLink? {
      UntouchedByLinks(s, step, n, link, event);
    } else if step != ConsumerMove {
      UntouchedByCounts(s, step, n, link, event);
    } else if s.consumer.LoadFirst? && s.tail == Stub {
      UntouchedByStubLoad(s, n, link, event);
    } else if s.consumer.LoadFirst? {
      UntouchedByFirstLoad(s, n, link, event);
    } else if s.consumer.Reload? || s.consumer.LoadLast? {
      UntouchedByTailLoad(s, n, link, event);
    } else if s.consumer.StubClear? || s.consumer.StubExchange? || s.consumer.StubLink? {
      UntouchedByStores(s, n, link, event);
    } else if s.consumer.CountDown? || s.consumer.Consume? {
      UntouchedByMessageDone(s, n, link, event);
    } else if s.consumer.LoadHead? {
      UntouchedByHeadLoad(s, n, link, event);
    } else {
      UntouchedByIdle(s, n, link, event);
    }
  }
}
