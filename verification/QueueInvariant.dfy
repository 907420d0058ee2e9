/** Every step of every thread keeps the invariant of the queue. */
module QueueInvariant {
  import opened Wrappers
  import opened Events
  import opened EventQueueProtocol

  lemma InitOk()
    ensures Inv(Init)
  {
    MessagesOne(StubEntry);
    assert Init.log[..0] == [];
  }

  /** Links stay as good as they were when no step touched them or their owners. */
  lemma LinksKept(s: State, s': State)
    requires Inv(s)
    requires s'.log == s.log && s'.head == s.head && s.removed <= s'.removed < |s'.log|
    requires forall i :: s.removed <= i < |s.log| ==>
               (s.log[i].node in s'.next <==> s.log[i].node in s.next)
    requires forall i :: s.removed <= i < |s.log| && s.log[i].node in s.next ==>
               s'.next[s.log[i].node] == s.next[s.log[i].node]
    requires forall p :: p in s.producers && s.producers[p].Exchanged? ==>
               p in s'.producers && s'.producers[p] == s.producers[p]
    requires s.consumer.StubLink? ==> s'.consumer == s.consumer
    ensures LinksOk(s')
  {
    forall i | s'.removed <= i < |s'.log| - 1 ensures LinkOk(s', i) {
      assert LinkOk(s, i);
    }
    assert s.head == s.log[|s.log| - 1].node;
  }

  lemma CreateProducers(s: State, p: Producer, n: Node, e: Event)
    requires Inv(s) && Enabled(s, Create(p, n, e))
    ensures ProducersOk(Apply(s, Create(p, n, e)))
  {
    var s' := Apply(s, Create(p, n, e));
    forall q | q in s'.producers ensures ProducerOk(s', q) {
      assert q in s.producers ==> ProducerOk(s, q);
    }
  }

  lemma CreateRest(s: State, p: Producer, n: Node, e: Event)
    requires Inv(s) && Enabled(s, Create(p, n, e))
    ensures var s' := Apply(s, Create(p, n, e));
            ChainOk(s') && ConsumerOk(s') && HistoryOk(s') && SizeOk(s') && CallOk(s')
  {
    hide LinksOk, Messages;
    var s' := Apply(s, Create(p, n, e));
    assert Uncounted(s') == Uncounted(s);
  }

  lemma CreateOk(s: State, p: Producer, n: Node, e: Event)
    requires Inv(s) && Enabled(s, Create(p, n, e))
    ensures Inv(Apply(s, Create(p, n, e)))
  {
    hide ProducersOk, ConsumerOk, HistoryOk, SizeOk, CallOk, Messages;
    var s' := Apply(s, Create(p, n, e));
    CreateProducers(s, p, n, e);
    CreateRest(s, p, n, e);
    LinksKept(s, s');
  }

  lemma PushClearProducers(s: State, p: Producer)
    requires Inv(s) && Enabled(s, PushClear(p))
    ensures ProducersOk(Apply(s, PushClear(p)))
  {
    var s' := Apply(s, PushClear(p));
    forall q | q in s'.producers ensures ProducerOk(s', q) {
      assert q in s.producers ==> ProducerOk(s, q);
    }
  }

  lemma PushClearRest(s: State, p: Producer)
    requires Inv(s) && Enabled(s, PushClear(p))
    ensures var s' := Apply(s, PushClear(p));
            ChainOk(s') && ConsumerOk(s') && HistoryOk(s') && SizeOk(s') && CallOk(s')
  {
    hide LinksOk, Messages;
    var s' := Apply(s, PushClear(p));
    assert Uncounted(s') == Uncounted(s);
  }

  lemma PushClearOk(s: State, p: Producer)
    requires Inv(s) && Enabled(s, PushClear(p))
    ensures Inv(Apply(s, PushClear(p)))
  {
    assert ProducerOk(s, p);
    hide ProducersOk, ConsumerOk, HistoryOk, SizeOk, CallOk, Messages;
    var s' := Apply(s, PushClear(p));
    PushClearProducers(s, p);
    PushClearRest(s, p);
    LinksKept(s, s');
  }

  /** The exchange appends one node whose predecessor, the old head, has a null link. */
  lemma ExchangeLinks(s: State, s': State, e: Entry)
    requires Inv(s)
    requires s'.log == s.log + [e] && s'.removed == s.removed && s'.next == s.next
    requires s'.head == e.node && e.node !in s.next
    requires forall p :: p in s.producers && s.producers[p].Exchanged? ==>
               p in s'.producers && s'.producers[p] == s.producers[p]
    requires s.consumer.StubLink? ==> s'.consumer == s.consumer
    requires Owned(s', |s.log|)
    ensures LinksOk(s')
  {
    forall i | s'.removed <= i < |s'.log| - 1 ensures LinkOk(s', i) {
      if i < |s.log| - 1 {
        assert LinkOk(s, i);
      }
    }
  }

  lemma ExchangeMessages(s: State, s': State, e: Entry)
    requires s.removed <= |s.log| && s'.log == s.log + [e]
    ensures Pushed(s') == Pushed(s) + if e.node == Stub then [] else [e]
    ensures Messages(s'.log[..s.removed]) == Messages(s.log[..s.removed])
  {
    MessagesOne(e);
    MessagesConcat(s.log, [e]);
    assert s'.log[..s.removed] == s.log[..s.removed];
  }

  lemma PushExchangeProducers(s: State, p: Producer)
    requires Inv(s) && Enabled(s, PushExchange(p))
    ensures ProducersOk(Apply(s, PushExchange(p)))
  {
    var s' := Apply(s, PushExchange(p));
    forall q | q in s'.producers ensures ProducerOk(s', q) {
      assert q in s.producers ==> ProducerOk(s, q);
    }
  }

  lemma PushExchangeChain(s: State, p: Producer)
    requires Inv(s) && Enabled(s, PushExchange(p))
    ensures ChainOk(Apply(s, PushExchange(p))) && ConsumerOk(Apply(s, PushExchange(p)))
  {
    hide LinksOk, HistoryOk, SizeOk, CallOk, Messages;
    assert ProducerOk(s, p);
  }

  lemma PushExchangeHistory(s: State, p: Producer)
    requires Inv(s) && Enabled(s, PushExchange(p))
    ensures var s' := Apply(s, PushExchange(p));
            HistoryOk(s') && SizeOk(s') && CallOk(s')
  {
    assert ProducerOk(s, p);
    hide LinksOk, ProducersOk, ConsumerOk, Messages;
    var s' := Apply(s, PushExchange(p));
    ExchangeMessages(s, s', s'.log[|s.log|]);
    assert Uncounted(s') == Uncounted(s) + {p};
  }

  lemma PushExchangeOk(s: State, p: Producer)
    requires Inv(s) && Enabled(s, PushExchange(p))
    ensures Inv(Apply(s, PushExchange(p)))
  {
    assert ProducerOk(s, p);
    hide ProducersOk, ConsumerOk, HistoryOk, SizeOk, CallOk, Messages;
    var s' := Apply(s, PushExchange(p));
    PushExchangeProducers(s, p);
    PushExchangeChain(s, p);
    PushExchangeHistory(s, p);
    var e := s'.log[|s.log|];
    ExchangeLinks(s, s', e);
  }

  /** The link is written into its own place and into no other. */
  lemma LinkWritten(s: State, s': State, n: Node, prev: Node, pos: nat)
    requires Inv(s) && LinkPending(s, n, prev, pos)
    requires s'.log == s.log && s'.removed == s.removed && s'.head == s.head
    requires s'.next == s.next[prev := n]
    requires forall p :: p in s.producers && s.producers[p].Exchanged? && s.producers[p].pos != pos ==>
               p in s'.producers && s'.producers[p] == s.producers[p]
    requires s.consumer.StubLink? && s.consumer.pos != pos ==> s'.consumer == s.consumer
    ensures LinksOk(s')
  {
    forall i | s'.removed <= i < |s'.log| - 1 ensures LinkOk(s', i) {
      assert LinkOk(s, i);
    }
  }

  lemma PushLinkProducers(s: State, p: Producer)
    requires Inv(s) && Enabled(s, PushLink(p))
    ensures ProducersOk(Apply(s, PushLink(p)))
  {
    var s' := Apply(s, PushLink(p));
    forall q | q in s'.producers ensures ProducerOk(s', q) {
      assert q in s.producers ==> ProducerOk(s, q);
    }
  }

  lemma PushLinkRest(s: State, p: Producer)
    requires Inv(s) && Enabled(s, PushLink(p))
    ensures var s' := Apply(s, PushLink(p));
            ChainOk(s') && ConsumerOk(s') && HistoryOk(s') && SizeOk(s') && CallOk(s')
  {
    hide LinksOk, Messages;
    var s' := Apply(s, PushLink(p));
    assert Uncounted(s') == Uncounted(s);
  }

  lemma PushLinkOk(s: State, p: Producer)
    requires Inv(s) && Enabled(s, PushLink(p))
    ensures Inv(Apply(s, PushLink(p)))
  {
    assert ProducerOk(s, p);
    hide ProducersOk, ConsumerOk, HistoryOk, SizeOk, CallOk, Messages;
    var s' := Apply(s, PushLink(p));
    PushLinkProducers(s, p);
    PushLinkRest(s, p);
    var pc := s.producers[p];
    LinkWritten(s, s', pc.n, pc.prev, pc.pos);
  }

  lemma PushCountProducers(s: State, p: Producer)
    requires Inv(s) && Enabled(s, PushCount(p))
    ensures ProducersOk(Apply(s, PushCount(p)))
  {
    var s' := Apply(s, PushCount(p));
    forall q | q in s'.producers ensures ProducerOk(s', q) {
      assert q in s.producers ==> ProducerOk(s, q);
    }
  }

  lemma PushCountRest(s: State, p: Producer)
    requires Inv(s) && Enabled(s, PushCount(p))
    ensures var s' := Apply(s, PushCount(p));
            ChainOk(s') && ConsumerOk(s') && HistoryOk(s') && SizeOk(s') && CallOk(s')
  {
    hide LinksOk, Messages;
    var s' := Apply(s, PushCount(p));
    assert Uncounted(s') == Uncounted(s) - {p};
  }

  lemma PushCountOk(s: State, p: Producer)
    requires Inv(s) && Enabled(s, PushCount(p))
    ensures Inv(Apply(s, PushCount(p)))
  {
    hide ProducersOk, ConsumerOk, HistoryOk, SizeOk, CallOk, Messages;
    var s' := Apply(s, PushCount(p));
    PushCountProducers(s, p);
    PushCountRest(s, p);
    LinksKept(s, s');
  }

  // ---- The consumer ---------------------------------------------------------------------------

  /** What advancing the tail by one node does to the split of the exchange order. */
  lemma TailAdvances(s: State)
    requires s.removed < |s.log|
    ensures var e := s.log[s.removed];
            var m := if e.node == Stub then [] else [e];
            && Messages(s.log[..s.removed + 1]) == Messages(s.log[..s.removed]) + m
            && Messages(s.log[s.removed..]) == m + Messages(s.log[s.removed + 1..])
  {
    var e := s.log[s.removed];
    MessagesOne(e);
    assert s.log[..s.removed + 1] == s.log[..s.removed] + [e];
    MessagesConcat(s.log[..s.removed], [e]);
    assert s.log[s.removed..] == [e] + s.log[s.removed + 1..];
    MessagesConcat([e], s.log[s.removed + 1..]);
  }

  lemma NothingLeft(s: State)
    requires s.removed < |s.log|
    ensures s.removed + 1 == |s.log| ==> Messages(s.log[s.removed + 1..]) == []
  {
    assert s.removed + 1 == |s.log| ==> s.log[s.removed + 1..] == [];
  }

  /** A non-null link out of the tail leads to the next node of the chain. */
  lemma TailLink(s: State)
    requires Inv(s) && s.tail in s.next
    ensures s.removed + 1 < |s.log| && s.next[s.tail] == s.log[s.removed + 1].node
  {
    if s.removed + 1 < |s.log| {
      assert LinkOk(s, s.removed);
    }
  }

  /** Producers are untouched when the tail leaves a node whose link is set. */
  lemma TailProducers(s: State, s': State)
    requires Inv(s) && s.tail in s.next
    requires s'.log == s.log && s'.removed == s.removed + 1 && s'.producers == s.producers
    requires s'.next == s.next && s'.live == s.live && s'.data == s.data
    ensures ProducersOk(s')
  {
    forall q | q in s'.producers ensures ProducerOk(s', q) {
      assert ProducerOk(s, q);
    }
  }

  lemma ReturnTailRest(s: State, c: ConsumerPc)
    requires Inv(s.(consumer := c)) && s.tail.Msg? && s.tail in s.next
    requires c.LoadFirst? || c.Reload? || c.LoadLast?
    requires !s.call.empty
    ensures var s' := ReturnTail(s, s.tail);
            ChainOk(s') && HistoryOk(s') && SizeOk(s') && CallOk(s')
  {
    hide ProducersOk, Messages;
    var before := s.(consumer := c);
    TailLink(before);
    TailAdvances(s);
    var s' := ReturnTail(s, s.tail);
    assert Uncounted(s') == Uncounted(before);
    assert Pushed(s') == Pushed(before);
    assert s'.returned[..|s'.returned| - 1] == s.returned;
  }

  lemma ReturnTailOk(s: State, c: ConsumerPc)
    requires Inv(s.(consumer := c)) && s.tail.Msg? && s.tail in s.next
    requires c.LoadFirst? || c.Reload? || c.LoadLast?
    requires !s.call.empty
    ensures Inv(ReturnTail(s, s.tail))
  {
    var before := s.(consumer := c);
    var s' := ReturnTail(s, s.tail);
    ReturnTailRest(s, c);
    LinksKept(before, s');
    TailProducers(before, s');
    forall p | p in s'.producers && Holding(s'.producers[p]) ensures s'.producers[p].n != s.tail {
      assert ProducerOk(before, p);
    }
  }

  /** A step that changes only the consumer's place, its counters and its history. */
  lemma QuietStep(s: State, s': State)
    requires Inv(s) && !s.consumer.StubLink?
    requires s' == s.(consumer := s'.consumer, size := s'.size, call := s'.call, mode := s'.mode)
    ensures ChainOk(s') && LinksOk(s') && ProducersOk(s')
    ensures Uncounted(s') == Uncounted(s) && Pushed(s') == Pushed(s)
  {
    LinksKept(s, s');
    forall q | q in s'.producers ensures ProducerOk(s', q) {
      assert ProducerOk(s, q);
    }
  }

  /** `m_tail_node = next` past the stub. */
  lemma SkipStubOk(s: State)
    requires Inv(s) && s.consumer.LoadFirst? && s.tail == Stub && Stub in s.next
    ensures Inv(ConsumerStep(s))
  {
    hide ProducersOk, Messages;
    var s' := ConsumerStep(s);
    TailLink(s);
    TailAdvances(s);
    LinksKept(s, s');
    TailProducers(s, s');
    assert Uncounted(s') == Uncounted(s);
    assert s.log[s.removed..][1..] == s.log[s.removed + 1..];
    TailAdvances(s.(removed := s.removed + 1));
  }

  lemma LoadFirstQuiet(s: State)
    requires Inv(s) && s.consumer.LoadFirst? && s.tail !in s.next
    ensures Inv(ConsumerStep(s))
  {
    hide Messages, ProducersOk;
    var s' := ConsumerStep(s);
    QuietStep(s, s');
    TailAdvances(s);
    NothingLeft(s);
    if s.removed + 1 < |s.log| {
      assert LinkOk(s, s.removed);
    }
  }

  lemma LoadFirstReturns(s: State)
    requires Inv(s) && s.consumer.LoadFirst? && s.tail != Stub && s.tail in s.next
    ensures Inv(ConsumerStep(s))
  {
    hide Messages, ProducersOk, ReturnTail;
    var s1 := s.(call := CallNow(s));
    assert Inv(s1) && !s1.call.empty by {
      QuietStep(s, s1);
      TailAdvances(s);
    }
    assert s1.(consumer := LoadFirst) == s1;
    ReturnTailOk(s1, LoadFirst);
  }

  lemma ReloadOk(s: State)
    requires Inv(s) && s.consumer.Reload?
    ensures Inv(ConsumerStep(s))
  {
    hide ProducersOk, Messages, ReturnTail;
    var s' := ConsumerStep(s);
    if s.tail in s.next {
      assert s.(consumer := s.consumer) == s;
      ReturnTailOk(s, s.consumer);
    } else {
      QuietStep(s, s');
      if s.removed + 1 < |s.log| {
        assert LinkOk(s, s.removed);
      }
    }
  }

  lemma LoadHeadOk(s: State)
    requires Inv(s) && s.consumer.LoadHead?
    ensures Inv(ConsumerStep(s))
  {
    hide LinksOk, ProducersOk, Messages;
    QuietStep(s, ConsumerStep(s));
  }

  /** The stub is nowhere in the chain when its link is cleared, so no live link is lost. */
  lemma StubClearOk(s: State)
    requires Inv(s) && s.consumer.StubClear?
    ensures Inv(ConsumerStep(s))
  {
    hide Messages;
    var s' := ConsumerStep(s);
    LinksKept(s, s');
    forall q | q in s'.producers ensures ProducerOk(s', q) {
      assert ProducerOk(s, q);
    }
    assert Uncounted(s') == Uncounted(s);
  }

  lemma StubExchangeProducers(s: State)
    requires Inv(s) && s.consumer.StubExchange?
    ensures ProducersOk(ConsumerStep(s)) && ChainOk(ConsumerStep(s))
  {
    hide LinksOk, HistoryOk, SizeOk, CallOk, Messages;
    var s' := ConsumerStep(s);
    forall q | q in s'.producers ensures ProducerOk(s', q) {
      assert ProducerOk(s, q);
    }
  }

  lemma StubExchangeHistory(s: State)
    requires Inv(s) && s.consumer.StubExchange?
    ensures HistoryOk(ConsumerStep(s)) && SizeOk(ConsumerStep(s)) && CallOk(ConsumerStep(s))
  {
    hide LinksOk, ProducersOk, Messages;
    var s' := ConsumerStep(s);
    ExchangeMessages(s, s', StubEntry);
    assert Messages(s.log) + [] == Messages(s.log);
    assert Uncounted(s') == Uncounted(s);
  }

  lemma StubExchangeOk(s: State)
    requires Inv(s) && s.consumer.StubExchange?
    ensures Inv(ConsumerStep(s))
  {
    hide ProducersOk, HistoryOk, SizeOk, CallOk, Messages;
    StubExchangeProducers(s);
    StubExchangeHistory(s);
    ExchangeLinks(s, ConsumerStep(s), StubEntry);
  }

  lemma StubLinkOk(s: State)
    requires Inv(s) && s.consumer.StubLink?
    ensures Inv(ConsumerStep(s))
  {
    hide Messages;
    var s' := ConsumerStep(s);
    forall p | p in s.producers && s.producers[p].Exchanged? ensures s.producers[p].pos != s.consumer.pos {
      assert ProducerOk(s, p);
    }
    LinkWritten(s, s', Stub, s.consumer.prev, s.consumer.pos);
    forall q | q in s'.producers ensures ProducerOk(s', q) {
      assert ProducerOk(s, q);
    }
    assert Uncounted(s') == Uncounted(s);
  }

  lemma LoadLastOk(s: State)
    requires Inv(s) && s.consumer.LoadLast?
    ensures Inv(ConsumerStep(s))
  {
    hide ProducersOk, Messages, ReturnTail;
    if s.tail in s.next {
      assert s.(consumer := s.consumer) == s;
      ReturnTailOk(s, s.consumer);
    } else {
      QuietStep(s, ConsumerStep(s));
      assert LinkOk(s, s.removed);
    }
  }

  /** The counter is at least one here, so the decrement does not wrap. */
  lemma CountDownOk(s: State)
    requires Inv(s) && s.consumer.CountDown?
    ensures Inv(ConsumerStep(s))
    ensures ConsumerStep(s).size == s.size - 1
  {
    hide LinksOk, ProducersOk, Messages;
    QuietStep(s, ConsumerStep(s));
  }

  /** Deleting the message in hand takes it from no producer and out of no chain. */
  lemma ConsumeProducers(s: State)
    requires Inv(s) && s.consumer.Consume?
    ensures ProducersOk(ConsumerStep(s)) && ChainOk(ConsumerStep(s))
  {
    hide LinksOk, HistoryOk, SizeOk, CallOk, Messages;
    var s' := ConsumerStep(s);
    forall q | q in s'.producers ensures ProducerOk(s', q) {
      assert ProducerOk(s, q);
    }
  }

  lemma ConsumeOk(s: State)
    requires Inv(s) && s.consumer.Consume?
    ensures Inv(ConsumerStep(s))
  {
    hide ProducersOk, Messages;
    var s' := ConsumerStep(s);
    ConsumeProducers(s);
    LinksKept(s, s');
    assert Uncounted(s') == Uncounted(s);
    assert s.returned == s.returned[..|s.returned| - 1] + [s.returned[|s.returned| - 1]];
  }

  lemma IdleOk(s: State)
    requires Inv(s) && (s.consumer.CheckEmpty? || s.consumer.ReturnNull?)
    ensures Inv(ConsumerStep(s))
  {
    hide LinksOk, ProducersOk, Messages;
    QuietStep(s, ConsumerStep(s));
  }

  lemma ConsumerMoveOk(s: State)
    requires Inv(s) && ConsumerEnabled(s)
    ensures Inv(ConsumerStep(s))
  {
    hide Inv, ConsumerStep;
    match s.consumer
    case CheckEmpty => IdleOk(s);
    case LoadFirst =>
      if s.tail !in s.next {
        LoadFirstQuiet(s);
      } else if s.tail == Stub {
        SkipStubOk(s);
      } else {
        LoadFirstReturns(s);
      }
    case Reload(_) => ReloadOk(s);
    case LoadHead(_) => LoadHeadOk(s);
    case StubClear(_) => StubClearOk(s);
    case StubExchange(_) => StubExchangeOk(s);
    case StubLink(_, _, _) => StubLinkOk(s);
    case LoadLast(_) => LoadLastOk(s);
    case ReturnNull => IdleOk(s);
    case CountDown(_) => CountDownOk(s);
    case Consume(_) => ConsumeOk(s);
  }
}
