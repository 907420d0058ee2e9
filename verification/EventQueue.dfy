/**
 The event queue and its wrapper as the sequential code they are when no other thread is about:
 a linked list of nodes, updated in place, with a stub that is put back into it.
 */
module EventQueue {
  import opened Events
  import opened Statistics
  import opened Counter

  class QueueNode {
    const event: Event
    var next: QueueNode?

    constructor (event: Event)
      ensures this.event == event && next == null
    {
      this.event := event;
      next := null;
    }
  }

  /** The nodes of the chain other than the stub. */
  ghost function Without(chain: seq<QueueNode>, stub: QueueNode): seq<QueueNode> {
    if chain == [] then []
    else Without(chain[..|chain| - 1], stub)
         + if chain[|chain| - 1] == stub then [] else [chain[|chain| - 1]]
  }

  lemma WithoutSnoc(chain: seq<QueueNode>, n: QueueNode, stub: QueueNode)
    ensures Without(chain + [n], stub) == Without(chain, stub) + if n == stub then [] else [n]
  {
    assert (chain + [n])[..|chain|] == chain;
  }

  lemma {:induction false} WithoutHead(chain: seq<QueueNode>, stub: QueueNode)
    requires chain != []
    ensures Without(chain, stub) == (if chain[0] == stub then [] else [chain[0]]) + Without(chain[1..], stub)
  {
    if |chain| > 1 {
      var init, n := chain[..|chain| - 1], chain[|chain| - 1];
      WithoutHead(init, stub);
      assert chain[1..] == init[1..] + [n];
      WithoutSnoc(init[1..], n, stub);
    }
  }

  class LinkedQueue {
    var head: QueueNode
    var tail: QueueNode
    const stub: QueueNode

    /** The nodes from the tail to the head: the exchange order that is not yet consumed. */
    ghost var chain: seq<QueueNode>

    ghost predicate Valid()
      reads this, chain
    {
      && |chain| > 0
      && tail == chain[0]
      && head == chain[|chain| - 1]
      && (forall i, j :: 0 <= i < j < |chain| ==> chain[i] != chain[j])
      && (forall i :: 0 <= i < |chain| - 1 ==> chain[i].next == chain[i + 1])
      && head.next == null
    }

    ghost function Contents(): seq<QueueNode>
      reads this
    {
      Without(chain, stub)
    }

    ghost function Footprint(): set<object>
      reads this
    {
      {this, stub} + set n | n in chain
    }

    constructor ()
      ensures Valid() && Contents() == [] && fresh(Footprint())
    {
      var s := new QueueNode(Event.Increment(0, 0));
      stub := s;
      head := s;
      tail := s;
      chain := [s];
      new;
      WithoutSnoc([], stub, stub);
      assert [] + [stub] == chain;
    }

    method Push(n: QueueNode)
      requires Valid() && n !in chain
      modifies `head, `chain, n`next, head`next
      ensures Valid() && chain == old(chain) + [n]
      ensures Contents() == old(Contents()) + if n == stub then [] else [n]
    {
      WithoutSnoc(chain, n, stub);
      n.next := null;
      var prev := head;
      head := n;
      prev.next := n;
      chain := chain + [n];
    }

    /** `m_tail_node = next; return tail;` or past the stub without the return. */
    method AdvanceTail()
      requires Valid() && tail.next != null
      modifies `tail, `chain
      ensures Valid() && |old(chain)| > 1 && chain == old(chain)[1..]
      ensures old(tail) !in chain
      ensures old(Contents()) == (if old(tail) == stub then [] else [old(tail)]) + Contents()
    {
      WithoutHead(chain, stub);
      assert |chain| > 1;
      tail := tail.next;
      chain := chain[1..];
    }

    lemma TailLink()
      requires Valid()
      ensures tail.next == null <==> chain == [tail]
    {
      assert |chain| > 1 ==> chain[0].next == chain[1];
    }

    /** With no push in progress `pop` returns null exactly on the empty queue, and otherwise takes
        off the oldest message; the stub is never returned. */
    method Pop() returns (m: QueueNode?)
      requires Valid()
      modifies `head, `tail, `chain, stub`next, head`next
      ensures Valid()
      ensures m == null <==> old(Contents()) == []
      ensures m == null ==> Contents() == []
      ensures m != null ==> m != stub && m !in chain && old(Contents()) == [m] + Contents()
      ensures forall n :: n in chain ==> n in old(chain) || n == stub
    {
      var t := tail;
      var next := t.next;
      if t == stub {
        if next == null {
          TailLink();
          WithoutHead(chain, stub);
          return null;
        }
        AdvanceTail();
        t := next;
        next := t.next;
      }
      if next != null {
        AdvanceTail();
        return t;
      }
      TailLink();
      if t != head {
        return null;
      }
      Push(stub);
      next := t.next;
      if next != null {
        AdvanceTail();
        return t;
      }
      return null;
    }
  }

  /** The wrapper with the counter of messages. */
  class MessageQueue {
    const queue: LinkedQueue
    var mqSize: nat

    ghost predicate Valid()
      reads this, queue, queue.chain
    {
      queue.Valid() && mqSize == |queue.Contents()|
    }

    constructor ()
      ensures Valid() && queue.Contents() == [] && fresh(queue) && fresh(queue.Footprint())
    {
      queue := new LinkedQueue();
      mqSize := 0;
    }

    method Push(n: QueueNode)
      requires Valid() && n !in queue.chain && n != queue.stub
      modifies `mqSize, queue, n`next, queue.head`next
      ensures Valid() && queue.chain == old(queue.chain) + [n]
      ensures queue.Contents() == old(queue.Contents()) + [n]
    {
      queue.Push(n);
      mqSize := mqSize + 1;
    }

    method Pop() returns (m: QueueNode?)
      requires Valid()
      modifies `mqSize, queue, queue.stub`next, queue.head`next
      ensures Valid()
      ensures m == null <==> old(queue.Contents()) == []
      ensures m == null ==> queue.Contents() == []
      ensures m != null ==> m !in queue.chain && old(queue.Contents()) == [m] + queue.Contents()
      ensures forall n :: n in queue.chain ==> n in old(queue.chain) || n == queue.stub
    {
      m := queue.Pop();
      if m != null {
        mqSize := mqSize - 1;
      }
    }

    /** The drain loop of `finalize`: it runs exactly as often as the counter says, deletes every
        remaining message once, in order, and leaves the queue empty. */
    method Drain() returns (ghost deleted: seq<QueueNode>, rounds: nat)
      requires Valid()
      modifies this, queue, queue.Footprint()
      ensures Valid() && queue.Contents() == [] && mqSize == 0
      ensures deleted == old(queue.Contents()) && rounds == old(mqSize)
    {
      deleted, rounds := [], 0;
      while mqSize != 0
        invariant Valid()
        invariant deleted + queue.Contents() == old(queue.Contents())
        invariant rounds + mqSize == old(mqSize)
        invariant forall n :: n in queue.chain ==> n in old(queue.chain) || n == queue.stub
        decreases mqSize
      {
        var m := Pop();
        deleted := deleted + [m];
        rounds := rounds + 1;
      }
    }
  }

  function EventsOfNodes(nodes: seq<QueueNode>): seq<Event> {
    if nodes == [] then [] else [nodes[0].event] + EventsOfNodes(nodes[1..])
  }

  /** The counter after more events. */
  function FoldFrom(s: CounterState, events: seq<Event>): CounterState
    decreases |events|
  {
    if events == [] then s else FoldFrom(Handled(s, events[0]), events[1..])
  }

  function TimesOfNodes(nodes: seq<QueueNode>): (r: seq<int>)
    ensures |r| == |nodes|
    ensures forall i :: 0 <= i < |nodes| ==> r[i] == nodes[i].event.timestamp
  {
    if nodes == [] then [] else TimesOfNodes(nodes[..|nodes| - 1]) + [nodes[|nodes| - 1].event.timestamp]
  }

  /** The greatest of `start` and the times. */
  function LatestOf(start: int, times: seq<int>): (r: int)
    ensures start <= r && forall i :: 0 <= i < |times| ==> times[i] <= r
    ensures r == start || exists i :: 0 <= i < |times| && times[i] == r
  {
    if times == [] then start else Later(LatestOf(start, times[..|times| - 1]), times[|times| - 1])
  }

  lemma LatestOfSnoc(start: int, times: seq<int>, t: int)
    ensures LatestOf(start, times + [t]) == Later(LatestOf(start, times), t)
  {
    assert (times + [t])[..|times|] == times;
  }

  lemma LatestOneMore(start: int, nodes: seq<QueueNode>, n: nat, clock: seq<int>)
    requires n < |nodes| && n < |clock|
    ensures LatestOf(start, TimesOfNodes(nodes[..n + 1]) + clock[n + 1..n + 1])
            == Later(LatestOf(start, TimesOfNodes(nodes[..n]) + clock[n..n]), nodes[n].event.timestamp)
  {
    assert nodes[..n + 1][..n] == nodes[..n];
    LatestOfSnoc(start, TimesOfNodes(nodes[..n]), nodes[n].event.timestamp);
    assert TimesOfNodes(nodes[..n]) + clock[n..n] == TimesOfNodes(nodes[..n]);
    assert TimesOfNodes(nodes[..n + 1]) + clock[n + 1..n + 1]
        == TimesOfNodes(nodes[..n]) + [nodes[n].event.timestamp];
  }

  lemma {:induction false} FoldFromSnoc(s: CounterState, events: seq<Event>, e: Event)
    ensures FoldFrom(s, events + [e]) == Handled(FoldFrom(s, events), e)
    decreases |events|
  {
    if events == [] {
      assert events + [e] == [e];
    } else {
      assert (events + [e])[1..] == events[1..] + [e];
      FoldFromSnoc(Handled(s, events[0]), events[1..], e);
    }
  }

  lemma {:induction false} EventsOfNodesSnoc(nodes: seq<QueueNode>, n: QueueNode)
    ensures EventsOfNodes(nodes + [n]) == EventsOfNodes(nodes) + [n.event]
  {
    if nodes == [] {
      assert nodes + [n] == [n];
    } else {
      assert (nodes + [n])[1..] == nodes[1..] + [n];
      EventsOfNodesSnoc(nodes[1..], n);
    }
  }

  lemma FoldOneMore(s: CounterState, nodes: seq<QueueNode>, n: nat)
    requires n < |nodes|
    ensures FoldFrom(s, EventsOfNodes(nodes[..n + 1]))
            == Handled(FoldFrom(s, EventsOfNodes(nodes[..n])), nodes[n].event)
  {
    assert nodes[..n + 1] == nodes[..n] + [nodes[n]];
    EventsOfNodesSnoc(nodes[..n], nodes[n]);
    FoldFromSnoc(s, EventsOfNodes(nodes[..n]), nodes[n].event);
  }

  /** What `i` rounds make of the counter and of the last message time, `n` of them with a message. */
  ghost predicate HandledSoFar(c0: CounterState, t0: int, nodes: seq<QueueNode>, clock: seq<int>, i: nat, n: nat,
                               c: CounterState, t: int)
    requires n <= |nodes| && n <= i <= |clock|
  {
    && c == FoldFrom(c0, EventsOfNodes(nodes[..n]))
    && t == LatestOf(t0, TimesOfNodes(nodes[..n]) + clock[n..i])
  }

  lemma HandledStart(c: CounterState, t: int, nodes: seq<QueueNode>, clock: seq<int>)
    ensures HandledSoFar(c, t, nodes, clock, 0, 0, c, t)
  {
    assert nodes[..0] == [] && clock[0..0] == [];
  }

  lemma HandledMessage(c0: CounterState, t0: int, nodes: seq<QueueNode>, clock: seq<int>, n: nat,
                       c: CounterState, t: int)
    requires n < |nodes| && n < |clock| && HandledSoFar(c0, t0, nodes, clock, n, n, c, t)
    ensures HandledSoFar(c0, t0, nodes, clock, n + 1, n + 1,
                         Handled(c, nodes[n].event), Later(t, nodes[n].event.timestamp))
  {
    FoldOneMore(c0, nodes, n);
    LatestOneMore(t0, nodes, n, clock);
  }

  lemma HandledIdle(c0: CounterState, t0: int, nodes: seq<QueueNode>, clock: seq<int>, i: nat, n: nat,
                    c: CounterState, t: int)
    requires n <= |nodes| && n <= i < |clock| && HandledSoFar(c0, t0, nodes, clock, i, n, c, t)
    ensures HandledSoFar(c0, t0, nodes, clock, i + 1, n, c, Later(t, clock[i]))
  {
    hide FoldFrom, EventsOfNodes, TimesOfNodes, LatestOf;
    var times := TimesOfNodes(nodes[..n]) + clock[n..i];
    LatestOfSnoc(t0, times, clock[i]);
    assert times + [clock[i]] == TimesOfNodes(nodes[..n]) + clock[n..i + 1];
  }

  function Rest(nodes: seq<QueueNode>): seq<QueueNode> { if nodes == [] then [] else nodes[1..] }

  /** What a round makes of the counter, and of the last message time. */
  function CounterAfter(c: CounterState, nodes: seq<QueueNode>): CounterState {
    if nodes == [] then c else Handled(c, nodes[0].event)
  }

  function TimeAfter(t: int, nodes: seq<QueueNode>, now: int): int {
    Later(t, if nodes == [] then now else nodes[0].event.timestamp)
  }

  lemma HandledRound(c0: CounterState, t0: int, nodes: seq<QueueNode>, clock: seq<int>, i: nat, n: nat,
                     c: CounterState, t: int)
    requires i < |clock| && n == (if i < |nodes| then i else |nodes|)
    requires HandledSoFar(c0, t0, nodes, clock, i, n, c, t)
    ensures var n' := if n < |nodes| then n + 1 else n;
            && Rest(nodes[n..]) == nodes[n'..]
            && HandledSoFar(c0, t0, nodes, clock, i + 1, n',
                            CounterAfter(c, nodes[n..]), TimeAfter(t, nodes[n..], clock[i]))
  {
    hide HandledSoFar;
    if n < |nodes| {
      HandledMessage(c0, t0, nodes, clock, n, c, t);
    } else {
      HandledIdle(c0, t0, nodes, clock, i, n, c, t);
    }
  }

  lemma HandledInAll(c0: CounterState, t0: int, nodes: seq<QueueNode>, clock: seq<int>, n: nat,
                     c: CounterState, t: int)
    requires n <= |nodes| && n <= |clock| && HandledSoFar(c0, t0, nodes, clock, |clock|, n, c, t)
    ensures c == FoldFrom(c0, EventsOfNodes(nodes[..n]))
    ensures t == LatestOf(t0, TimesOfNodes(nodes[..n]) + clock[n..])
  {
    assert clock[n..|clock|] == clock[n..];
  }

  /** The processor thread, with one counter behind all messages. */
  class Processor {
    const messages: MessageQueue
    const counter: CounterMetric
    var lastMessageTimestamp: int

    ghost predicate Valid()
      reads this, messages, messages.queue, messages.queue.chain, counter, counter.values
    {
      messages.Valid() && counter.Valid()
    }

    constructor (messages: MessageQueue, counter: CounterMetric)
      requires messages.Valid() && counter.Valid()
      ensures Valid() && this.messages == messages && this.counter == counter && lastMessageTimestamp == 0
    {
      this.messages := messages;
      this.counter := counter;
      lastMessageTimestamp := 0;
    }

    method ProcessMessageQueue()
      requires Valid()
      modifies this, messages, messages.queue, messages.queue.stub, messages.queue.head, counter, counter.values
      ensures Valid()
      ensures forall n :: n in messages.queue.chain ==> n in old(messages.queue.chain) || n == messages.queue.stub
      ensures var before, after := old(messages.queue.Contents()), messages.queue.Contents();
              if before == [] then
                && after == [] && counter.View() == old(counter.View())
                && lastMessageTimestamp == old(lastMessageTimestamp)
              else
                && after == before[1..]
                && counter.View() == Handled(old(counter.View()), before[0].event)
                && lastMessageTimestamp == Later(old(lastMessageTimestamp), before[0].event.timestamp)
    {
      var m := messages.Pop();
      if m != null {
        lastMessageTimestamp := Later(lastMessageTimestamp, m.event.timestamp);
        counter.Process(m.event);
      }
    }

    /** One round of the processor loop, at the clock reading `now`. */
    method Round(now: int)
      requires Valid()
      modifies this, messages, messages.queue, messages.queue.Footprint(), counter, counter.values
      ensures Valid()
      ensures messages.queue.Footprint() <= old(messages.queue.Footprint())
      ensures messages.queue.Contents() == Rest(old(messages.queue.Contents()))
      ensures counter.View() == CounterAfter(old(counter.View()), old(messages.queue.Contents()))
      ensures lastMessageTimestamp
              == TimeAfter(old(lastMessageTimestamp), old(messages.queue.Contents()), now)
    {
      if messages.mqSize != 0 {
        ProcessMessageQueue();
      } else {
        lastMessageTimestamp := Later(lastMessageTimestamp, now);
      }
    }

    /** `run_processor` while the library stays enabled for as many rounds as there are readings of
        the clock: it handles the messages in order, and all of them if there are enough rounds. */
    method Run(clock: seq<int>)
      requires Valid()
      modifies this, messages, messages.queue, messages.queue.Footprint(), counter, counter.values
      ensures Valid()
      ensures var before := old(messages.queue.Contents());
              var n := if |clock| < |before| then |clock| else |before|;
              && messages.queue.Contents() == before[n..]
              && counter.View() == FoldFrom(old(counter.View()), EventsOfNodes(before[..n]))
              && lastMessageTimestamp == LatestOf(old(lastMessageTimestamp), TimesOfNodes(before[..n]) + clock[n..])
    {
      hide HandledSoFar, FoldFrom, LatestOf, Handled, EventsOfNodes, TimesOfNodes, Rest, CounterAfter, TimeAfter;
      hide LinkedQueue.Valid, MessageQueue.Valid, LinkedQueue.Footprint, CounterMetric.View, CounterMetric.Valid;
      ghost var before, c0, t0 := messages.queue.Contents(), counter.View(), lastMessageTimestamp;
      ghost var n: nat := 0;
      HandledStart(c0, t0, before, clock);
      for i := 0 to |clock|
        invariant Valid()
        invariant n <= |before| && n == (if i < |before| then i else |before|)
        invariant messages.queue.Contents() == before[n..]
        invariant HandledSoFar(c0, t0, before, clock, i, n, counter.View(), lastMessageTimestamp)
        invariant messages.queue.Footprint() <= old(messages.queue.Footprint())
      {
        HandledRound(c0, t0, before, clock, i, n, counter.View(), lastMessageTimestamp);
        Round(clock[i]);
        n := if n < |before| then n + 1 else n;
      }
      HandledInAll(c0, t0, before, clock, n, counter.View(), lastMessageTimestamp);
    }
  }

  /** From an unset counter this is the fold of the counter. */
  lemma {:induction false} FoldFromUnset(events: seq<Event>)
    ensures FoldFrom(Unset, events) == Fold(events)
  {
    if events != [] {
      var init, e := events[..|events| - 1], events[|events| - 1];
      FoldFromUnset(init);
      FoldFromSnoc(Unset, init, e);
      assert events == init + [e];
    }
  }
}
