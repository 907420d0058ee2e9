/**
 The lock-free multi-producer, single-consumer event queue as a transition system.
 Every atomic load, store or exchange of the original is one step; the steps of any number of
 producers and of the one consumer interleave freely and are sequentially consistent.
 */
module EventQueueProtocol {
  import opened Wrappers
  import opened Events

  /** The stub lives inside the queue object; a message is identified by its address. */
  datatype Node = Stub | Msg(address: nat)

  type Producer = nat

  /** One exchange of the head: the node, what the message says, and who exchanged it. */
  datatype Entry = Entry(node: Node, event: Event, sender: Producer)

  /** Where a producer stands inside the wrapper `push`; a producer outside it is not in the map.
      `pos` is history: the index of the exchanged node in `log`. */
  datatype ProducerPc =
    | Created(n: Node)
    | Cleared(n: Node)
    | Exchanged(n: Node, prev: Node, pos: nat)
    | Linked

  /** Where the consumer stands: the emptiness check, the body of `pop`, and what follows it. */
  datatype ConsumerPc =
    | CheckEmpty
    | LoadFirst
    | Reload(t: Node)
    | LoadHead(t: Node)
    | StubClear(t: Node)
    | StubExchange(t: Node)
    | StubLink(t: Node, prev: Node, pos: nat)
    | LoadLast(t: Node)
    | ReturnNull
    | CountDown(m: Node)
    | Consume(m: Node)

  /** The processor loop handles what it pops; the loop in `finalize` only deletes it. */
  datatype Mode = Processing | Draining

  /** History of the current call of `pop`: was the queue empty when it began, and did some push
      stand between its exchange and its link, or perform its exchange, during the call? */
  datatype Call = Call(empty: bool, overlap: bool)

  datatype State = State(
    // shared memory; a node without a `next` entry has a null link
    head: Node,
    tail: Node,
    next: map<Node, Node>,
    data: map<Node, Event>,
    live: set<Node>,
    size: int,
    // threads
    producers: map<Producer, ProducerPc>,
    consumer: ConsumerPc,
    mode: Mode,
    // history: nodes in exchange order, how many of them the tail has left behind,
    // the entries `pop` returned and the events the processor handled
    log: seq<Entry>,
    removed: nat,
    returned: seq<Entry>,
    processed: seq<Event>,
    call: Call
  )

  const SizeMax := 0xFFFF_FFFF_FFFF_FFFF
  const StubEntry := Entry(Stub, Increment(0, 0), 0)

  const Init := State(
    Stub, Stub, map[], map[], {}, 0, map[], CheckEmpty, Processing,
    [StubEntry], 0, [], [], Call(true, false))

  datatype Step =
    | Create(p: Producer, n: Node, e: Event)
    | PushClear(p: Producer)
    | PushExchange(p: Producer)
    | PushLink(p: Producer)
    | PushCount(p: Producer)
    | ConsumerMove
    | Shutdown

  predicate Enabled(s: State, step: Step) {
    match step
    case Create(p, n, e) => p !in s.producers && n.Msg? && n !in s.live
    case PushClear(p) => p in s.producers && s.producers[p].Created?
    case PushExchange(p) =>
      p in s.producers && s.producers[p].Cleared? && s.producers[p].n in s.data
    case PushLink(p) => p in s.producers && s.producers[p].Exchanged?
    case PushCount(p) => p in s.producers && s.producers[p].Linked?
    case ConsumerMove => ConsumerEnabled(s)
    case Shutdown => s.consumer == CheckEmpty
  }

  /** Always true in reachable states: the consumer is never stuck. */
  predicate ConsumerEnabled(s: State) {
    && s.removed < |s.log|
    && (s.consumer.Consume? ==> s.consumer.m in s.data)
  }

  function Apply(s: State, step: Step): State
    requires Enabled(s, step)
  {
    match step
    case Create(p, n, e) =>
      s.(live := s.live + {n}, data := s.data[n := e], producers := s.producers[p := Created(n)])
    case PushClear(p) =>
      var n := s.producers[p].n;
      s.(next := s.next - {n}, producers := s.producers[p := Cleared(n)])
    case PushExchange(p) =>
      var n := s.producers[p].n;
      s.(head := n,
         log := s.log + [Entry(n, s.data[n], p)],
         call := s.call.(overlap := true),
         producers := s.producers[p := Exchanged(n, s.head, |s.log|)])
    case PushLink(p) =>
      var pc := s.producers[p];
      s.(next := s.next[pc.prev := pc.n], producers := s.producers[p := Linked])
    case PushCount(p) =>
      s.(size := s.size + 1, producers := s.producers - {p})
    case ConsumerMove => ConsumerStep(s)
    case Shutdown => s.(mode := Draining)
  }

  /** `m_tail_node = next; return tail;` */
  function ReturnTail(s: State, t: Node): State
    requires t in s.next && s.removed < |s.log|
  {
    s.(tail := s.next[t], removed := s.removed + 1, returned := s.returned + [s.log[s.removed]],
       consumer := CountDown(t))
  }

  /** A call of `pop` begins: is the queue empty, and is some push between its exchange and its link? */
  function CallNow(s: State): Call
    requires s.removed <= |s.log|
  {
    Call(Pending(s) == [], exists p :: p in s.producers && s.producers[p].Exchanged?)
  }

  function ConsumerStep(s: State): State
    requires ConsumerEnabled(s)
  {
    match s.consumer
    case CheckEmpty => if s.size == 0 then s else s.(consumer := LoadFirst)
    case LoadFirst =>
      var s' := s.(call := CallNow(s));
      if s.tail == Stub then
        if Stub !in s.next then
          s'.(consumer := ReturnNull)
        else
          s'.(tail := s.next[Stub], removed := s.removed + 1, consumer := Reload(s.next[Stub]))
      else if s.tail in s.next then ReturnTail(s', s.tail)
      else s'.(consumer := LoadHead(s.tail))
    case Reload(t) => if t in s.next then ReturnTail(s, t) else s.(consumer := LoadHead(t))
    case LoadHead(t) => if t != s.head then s.(consumer := ReturnNull) else s.(consumer := StubClear(t))
    case StubClear(t) => s.(next := s.next - {Stub}, consumer := StubExchange(t))
    case StubExchange(t) =>
      s.(head := Stub, log := s.log + [StubEntry], consumer := StubLink(t, s.head, |s.log|))
    case StubLink(t, prev, pos) => s.(next := s.next[prev := Stub], consumer := LoadLast(t))
    case LoadLast(t) => if t in s.next then ReturnTail(s, t) else s.(consumer := ReturnNull)
    case ReturnNull => s.(consumer := CheckEmpty)
    case CountDown(m) =>
      s.(size := if s.size == 0 then SizeMax else s.size - 1, consumer := Consume(m))
    case Consume(m) =>
      s.(live := s.live - {m},
         processed := if s.mode == Processing then s.processed + [s.data[m]] else s.processed,
         consumer := CheckEmpty)
  }

  // ---- Runs -----------------------------------------------------------------------------------

  /** The state that these steps, taken in this order, lead to from the constructor; `None` when
      some thread is not ready for its step. */
  function After(steps: seq<Step>): Option<State> {
    if steps == [] then Some(Init)
    else
      var before := After(steps[..|steps| - 1]);
      if before.Some? && Enabled(before.value, steps[|steps| - 1])
      then Some(Apply(before.value, steps[|steps| - 1])) else None
  }

  // ---- The abstract queue ---------------------------------------------------------------------

  /** The message entries of a stretch of the exchange order. */
  function Messages(log: seq<Entry>): seq<Entry> {
    if log == [] then []
    else Messages(log[..|log| - 1]) + if log[|log| - 1].node == Stub then [] else [log[|log| - 1]]
  }

  function Pushed(s: State): seq<Entry> { Messages(s.log) }

  function Pending(s: State): seq<Entry>
    requires s.removed <= |s.log|
  {
    Messages(s.log[s.removed..])
  }

  lemma {:induction false} MessagesConcat(a: seq<Entry>, b: seq<Entry>)
    ensures Messages(a + b) == Messages(a) + Messages(b)
  {
    if b == [] {
      assert a + b == a;
    } else {
      var c := b[..|b| - 1];
      assert (a + b)[..|a + b| - 1] == a + c;
      MessagesConcat(a, c);
    }
  }

  lemma MessagesOne(e: Entry)
    ensures Messages([e]) == if e.node == Stub then [] else [e]
  {
    assert [e][..0] == [];
    assert Messages([e][..0]) == [];
  }

  // ---- The invariant --------------------------------------------------------------------------

  ghost predicate OutOfChain(s: State, n: Node) {
    forall i :: s.removed <= i < |s.log| ==> s.log[i].node != n
  }

  /** The chain runs from the tail to the head, and no node is in it twice. */
  ghost predicate ChainOk(s: State) {
    && s.removed < |s.log|
    && s.tail == s.log[s.removed].node
    && s.head == s.log[|s.log| - 1].node
    && (forall i, j :: s.removed <= i < j < |s.log| ==> s.log[i].node != s.log[j].node)
    && Stub !in s.live
    && (forall i :: s.removed <= i < |s.log| && s.log[i].node != Stub ==>
          && s.log[i].node in s.live
          && s.log[i].node in s.data
          && s.data[s.log[i].node] == s.log[i].event)
  }

  /** Some thread stands between its exchange and its link and will set the link into `log[pos]`. */
  ghost predicate Owned(s: State, pos: nat)
    requires 0 < pos < |s.log|
  {
    if s.log[pos].node == Stub then
      s.consumer.StubLink? && s.consumer.pos == pos
    else
      && s.log[pos].sender in s.producers
      && s.producers[s.log[pos].sender].Exchanged?
      && s.producers[s.log[pos].sender].pos == pos
  }

  /** The link out of `log[i]` is set, or is null and owned by a thread about to set it. */
  ghost predicate LinkOk(s: State, i: nat)
    requires i + 1 < |s.log|
  {
    if s.log[i].node in s.next then s.next[s.log[i].node] == s.log[i + 1].node
    else Owned(s, i + 1)
  }

  ghost predicate LinksOk(s: State)
    requires s.removed < |s.log|
  {
    && s.head !in s.next
    && (forall i :: s.removed <= i < |s.log| - 1 ==> LinkOk(s, i))
  }

  predicate Holding(pc: ProducerPc) { pc.Created? || pc.Cleared? }

  /** A link still to be written: both of its ends are in the chain, next to each other. */
  ghost predicate LinkPending(s: State, n: Node, prev: Node, pos: nat) {
    && s.removed < pos < |s.log|
    && s.log[pos].node == n
    && s.log[pos - 1].node == prev
    && prev !in s.next
  }

  ghost predicate ProducersOk(s: State) {
    && (forall p :: p in s.producers ==> ProducerOk(s, p))
    && (forall p, q :: && p in s.producers && Holding(s.producers[p])
                       && q in s.producers && Holding(s.producers[q])
                       && p != q
                       ==> s.producers[p].n != s.producers[q].n)
  }

  ghost predicate ProducerOk(s: State, p: Producer)
    requires p in s.producers
  {
    match s.producers[p]
    case Created(n) => HeldOk(s, n)
    case Cleared(n) => HeldOk(s, n) && n !in s.next
    case Exchanged(n, prev, pos) => n.Msg? && LinkPending(s, n, prev, pos) && s.log[pos].sender == p
    case Linked => true
  }

  /** A message not yet exchanged: allocated, written, and nowhere in the chain. */
  ghost predicate HeldOk(s: State, n: Node) {
    n.Msg? && n in s.live && n in s.data && OutOfChain(s, n)
  }

  ghost predicate InPop(c: ConsumerPc) {
    c.Reload? || c.LoadHead? || c.StubClear? || c.StubExchange? || c.StubLink? || c.LoadLast?
  }

  ghost predicate ConsumerOk(s: State)
    requires s.removed < |s.log|
  {
    && (InPop(s.consumer) ==> s.consumer.t == s.tail && s.tail.Msg?)
    && (s.consumer.StubClear? || s.consumer.StubExchange? ==> OutOfChain(s, Stub))
    && (s.consumer.StubExchange? ==> Stub !in s.next)
    && (s.consumer.StubLink? ==> LinkPending(s, Stub, s.consumer.prev, s.consumer.pos))
    && (s.consumer.LoadLast? ==> s.removed + 1 < |s.log|)
    && (s.consumer.CountDown? || s.consumer.Consume? ==> ResultOk(s, s.consumer.m))
  }

  /** A message that `pop` handed out: allocated, out of the chain, in no producer's hands. */
  ghost predicate ResultOk(s: State, m: Node) {
    && HeldOk(s, m)
    && (forall p :: p in s.producers && Holding(s.producers[p]) ==> s.producers[p].n != m)
    && |s.returned| > 0
    && s.returned[|s.returned| - 1].node == m
    && s.data[m] == s.returned[|s.returned| - 1].event
  }

  function EventsOf(es: seq<Entry>): (r: seq<Event>)
    ensures |r| == |es|
    ensures forall i :: 0 <= i < |es| ==> r[i] == es[i].event
  {
    if es == [] then [] else EventsOf(es[..|es| - 1]) + [es[|es| - 1].event]
  }

  ghost predicate HistoryOk(s: State)
    requires s.removed < |s.log|
  {
    && s.returned == Messages(s.log[..s.removed])
    && (s.mode == Processing ==>
          if s.consumer.CountDown? || s.consumer.Consume? then
            |s.returned| > 0 && s.processed == EventsOf(s.returned[..|s.returned| - 1])
          else s.processed == EventsOf(s.returned))
  }

  /** Producers whose message is in the chain, or was, but is not yet counted in `mq_size`. */
  function Uncounted(s: State): set<Producer> {
    set p | p in s.producers && (s.producers[p].Exchanged? || s.producers[p].Linked?)
  }

  ghost predicate SizeOk(s: State) {
    && |Pushed(s)| - |s.returned| == s.size + |Uncounted(s)| - (if s.consumer.CountDown? then 1 else 0)
    && s.size >= 0
    && (InPop(s.consumer) || s.consumer.LoadFirst? || s.consumer.CountDown? ==> s.size >= 1)
  }

  /** What the call history knows while `pop` runs and when it returns. */
  ghost predicate CallOk(s: State)
    requires s.removed < |s.log|
  {
    && (InPop(s.consumer) ==>
          && (forall p :: p in s.producers && s.producers[p].Exchanged? ==> s.call.overlap)
          && !s.call.empty)
    && (s.consumer.LoadHead? && s.removed + 1 < |s.log| ==> s.call.overlap)
    && (s.consumer == ReturnNull ==> s.call.empty || s.call.overlap)
    && (s.consumer.CountDown? ==> !s.call.empty)
  }

  ghost predicate Inv(s: State) {
    && ChainOk(s)
    && LinksOk(s)
    && ProducersOk(s)
    && ConsumerOk(s)
    && HistoryOk(s)
    && SizeOk(s)
    && CallOk(s)
  }
}
