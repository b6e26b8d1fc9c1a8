/**
 The intrusive multi-producer single-consumer queue, one atomic memory access per step.
 Nodes are addresses; the null link is the absence of a key in `link`.
 */
module IntrusiveQueue {
  import opened Machines
  import opened Sequences

  type Node = nat
  type Thread = nat

  // The queue's own node, and the consumer's identity when it enqueues that node.
  const DUMMY: Node := 0
  const CONSUMER: Thread := 0

  /** Where a thread stands inside one Enqueue call: its next access is the link store,
      the exchange of `_head`, or the store into the previous head. */
  datatype EnqueuePc =
    | Ready(input: Node)
    | Linked(input: Node)
    | Swapped(input: Node, prevHead: Node)

  /** Where the consumer stands inside one Dequeue call, with the locals still in use. */
  datatype ConsumerPc =
    | Idle
    | AtNext(tail: Node)
    | AtSkip(next: Node)
    | AtSecondNext(tail: Node)
    | AtAdvance(tail: Node, next: Node)
    | AtHeadCheck(tail: Node)
    | AtEnqueue(tail: Node)
    | AtRelink(tail: Node)

  datatype Outcome = NoCall | Refused | Returned(node: Node)

  /** The shared memory, the locals of the threads inside Enqueue, and one history variable:
      `chain`, the nodes from tail to head in exchange order. */
  datatype Queue = Queue(head: Node, tail: Node, link: map<Node, Node>, calls: map<Thread, EnqueuePc>, chain: seq<Node>)

  /** `pushed` and `taken` record the non-dummy nodes exchanged and the nodes returned; `gap` records whether
      the current or last Dequeue met a moment at which the queue was empty or a producer was between its
      exchange and its link store. */
  datatype State = State(q: Queue, consumer: ConsumerPc, outcome: Outcome, pushed: seq<Node>, taken: seq<Node>, gap: bool)

  datatype Action = Begin(thread: Thread, input: Node) | Produce(thread: Thread) | Consume

  const Initial := State(Queue(DUMMY, DUMMY, map[], map[], [DUMMY]), Idle, NoCall, [], [], false)

  function WithoutDummy(s: seq<Node>): (r: seq<Node>)
  {
    if s == [] then []
    else (if s[0] == DUMMY then [] else [s[0]]) + WithoutDummy(s[1..])
  }

  /** The elements in the queue, oldest first. */
  function Contents(q: Queue): seq<Node> { WithoutDummy(q.chain) }

  predicate ProducerMidPush(q: Queue) {
    exists t | t in q.calls :: t != CONSUMER && q.calls[t].Swapped?
  }

  predicate Gap(q: Queue) { Contents(q) == [] || ProducerMidPush(q) }

  /** What the caller of Enqueue owes: a node of its own that is in no queue position and in no other call. */
  predicate MayEnqueue(q: Queue, t: Thread, input: Node) {
    && t != CONSUMER && t !in q.calls
    && input != DUMMY && input !in q.chain
    && forall u | u in q.calls :: q.calls[u].input != input
  }

  function EnqueueStep(q: Queue, t: Thread): Queue
    requires t in q.calls
  {
    match q.calls[t]
    case Ready(x) => q.(link := q.link - {x}, calls := q.calls[t := Linked(x)])
    case Linked(x) => q.(head := x, calls := q.calls[t := Swapped(x, q.head)], chain := q.chain + [x])
    case Swapped(x, prevHead) => q.(link := q.link[prevHead := x], calls := q.calls - {t})
  }

  /** `_tail.store(next)`: the old tail leaves the chain. */
  function MoveTail(q: Queue, next: Node): Queue {
    q.(tail := next, chain := if q.chain == [] then [] else q.chain[1..])
  }

  function ProduceStep(s: State, t: Thread): State
    requires t in s.q.calls
  {
    var call := s.q.calls[t];
    s.(q := EnqueueStep(s.q, t),
       pushed := if call.Linked? && call.input != DUMMY then s.pushed + [call.input] else s.pushed)
  }

  function Refuse(s: State): State { s.(consumer := Idle, outcome := Refused) }

  function DequeueStep(s: State): State {
    match s.consumer
    case Idle => s.(consumer := AtNext(s.q.tail))
    case AtNext(tail) =>
      if tail == DUMMY then
        if tail !in s.q.link then Refuse(s) else s.(consumer := AtSkip(s.q.link[tail]))
      else if tail in s.q.link then s.(consumer := AtAdvance(tail, s.q.link[tail]))
      else s.(consumer := AtHeadCheck(tail))
    case AtSkip(next) => s.(q := MoveTail(s.q, next), consumer := AtSecondNext(next))
    case AtSecondNext(tail) =>
      if tail in s.q.link then s.(consumer := AtAdvance(tail, s.q.link[tail]))
      else s.(consumer := AtHeadCheck(tail))
    case AtAdvance(tail, next) =>
      s.(q := MoveTail(s.q, next), consumer := Idle, outcome := Returned(tail), taken := s.taken + [tail])
    case AtHeadCheck(tail) =>
      if tail != s.q.head then Refuse(s)
      else s.(consumer := AtEnqueue(tail), q := s.q.(calls := s.q.calls[CONSUMER := Ready(DUMMY)]))
    case AtEnqueue(tail) =>
      if CONSUMER !in s.q.calls then s
      else
        var s' := ProduceStep(s, CONSUMER);
        if CONSUMER in s'.q.calls then s' else s'.(consumer := AtRelink(tail))
    case AtRelink(tail) =>
      if tail in s.q.link then s.(consumer := AtAdvance(tail, s.q.link[tail])) else Refuse(s)
  }

  /** An action that its thread cannot take in this state changes nothing. */
  function Act(s: State, a: Action): State {
    match a
    case Begin(t, input) =>
      if MayEnqueue(s.q, t, input) then s.(q := s.q.(calls := s.q.calls[t := Ready(input)])) else s
    case Produce(t) => if t != CONSUMER && t in s.q.calls then ProduceStep(s, t) else s
    case Consume => DequeueStep(s)
  }

  function Step(s: State, a: Action): State {
    var s' := Act(s, a);
    if s.consumer.Idle? && s'.consumer.Idle? then s'
    else s'.(gap := (if s.consumer.Idle? then Gap(s.q) else s.gap) || Gap(s'.q))
  }

  /** The state after a schedule that starts from the constructor. */
  function After(schedule: seq<Action>): State { Run(Step, Initial, schedule) }

  // ---------- the invariant ----------

  /** Node `x` stands right behind node `p` in the chain, at position `i`. */
  predicate FollowsAt(chain: seq<Node>, i: nat, p: Node, x: Node) {
    0 < i < |chain| && chain[i-1] == p && chain[i] == x
  }

  ghost predicate Follows(chain: seq<Node>, p: Node, x: Node) { exists i: nat :: FollowsAt(chain, i, p, x) }

  predicate OwedBy(q: Queue, t: Thread, p: Node, x: Node) {
    t in q.calls && q.calls[t] == Swapped(x, p)
  }

  ghost predicate Owed(q: Queue, p: Node, x: Node) { exists t :: OwedBy(q, t, p, x) }

  /** The link into position `i` is written and right, or it is missing and some enqueuer
      that has exchanged but not yet stored owes it. */
  ghost predicate LinkOk(q: Queue, i: nat) {
    0 < i < |q.chain| ==>
      var p, x := q.chain[i-1], q.chain[i];
      if p in q.link then q.link[p] == x else Owed(q, p, x)
  }

  ghost predicate ChainOk(q: Queue) {
    && |q.chain| > 0 && q.chain[0] == q.tail && q.chain[|q.chain|-1] == q.head
    && Distinct(q.chain)
    && q.head !in q.link
    && forall i: nat :: LinkOk(q, i)
  }

  ghost predicate CallOk(q: Queue, t: Thread)
    requires t in q.calls
  {
    && (q.calls[t].input == DUMMY <==> t == CONSUMER)
    && match q.calls[t]
       case Ready(x) => x !in q.chain
       case Linked(x) => x !in q.chain && x !in q.link
       case Swapped(x, p) => p !in q.link && Follows(q.chain, p, x)
  }

  ghost predicate CallsOk(q: Queue) {
    && (forall t | t in q.calls :: CallOk(q, t))
    && (forall t, u | t in q.calls && u in q.calls && t != u :: q.calls[t].input != q.calls[u].input)
  }

  ghost predicate ConsumerOk(s: State) {
    && (CONSUMER in s.q.calls <==> s.consumer.AtEnqueue?)
    && match s.consumer
       case Idle => s.outcome.Refused? ==> s.gap
       case AtNext(tail) => tail == s.q.tail
       case AtSkip(next) => s.q.tail == DUMMY && DUMMY in s.q.link && s.q.link[DUMMY] == next
       case AtSecondNext(tail) => tail == s.q.tail != DUMMY
       case AtAdvance(tail, next) => tail == s.q.tail != DUMMY && tail in s.q.link && s.q.link[tail] == next
       case AtHeadCheck(tail) => tail == s.q.tail != DUMMY && (|s.q.chain| == 1 || s.gap)
       case AtEnqueue(tail) => tail == s.q.tail != DUMMY
       case AtRelink(tail) => tail == s.q.tail != DUMMY && |s.q.chain| > 1
  }

  ghost predicate QueueOk(q: Queue) { ChainOk(q) && CallsOk(q) }

  ghost predicate Inv(s: State) {
    QueueOk(s.q) && ConsumerOk(s) && s.pushed == s.taken + Contents(s.q)
  }

  lemma OnlyDummyIsEmpty()
    ensures WithoutDummy([DUMMY]) == []
  {
    assert [DUMMY][1..] == [];
  }

  lemma InitialInv()
    ensures Inv(Initial)
  {
    OnlyDummyIsEmpty();
  }

  lemma {:induction false} WithoutDummyAppend(s: seq<Node>, x: Node)
    ensures WithoutDummy(s + [x]) == WithoutDummy(s) + (if x == DUMMY then [] else [x])
  {
    if s == [] {
      WithoutDummyFirst([x]);
    } else {
      WithoutDummyFirst(s);
      WithoutDummyFirst(s + [x]);
      assert (s + [x])[1..] == s[1..] + [x] && (s + [x])[0] == s[0];
      hide WithoutDummy;
      WithoutDummyAppend(s[1..], x);
      Behind(if s[0] == DUMMY then [] else [s[0]], WithoutDummy(s[1..]), if x == DUMMY then [] else [x]);
    }
  }

  lemma WithoutDummyFirst(s: seq<Node>)
    requires s != []
    ensures WithoutDummy(s) == (if s[0] == DUMMY then [] else [s[0]]) + WithoutDummy(s[1..])
  {
  }

  /** The link store at the start of Enqueue: the node is still private. */
  lemma LinkInitKeeps(q: Queue, t: Thread)
    requires QueueOk(q) && t in q.calls && q.calls[t].Ready?
    ensures QueueOk(EnqueueStep(q, t))
  {
    var q' := EnqueueStep(q, t);
    assert CallOk(q, t);
    forall i: nat ensures LinkOk(q', i) {
      assert LinkOk(q, i);
      if 0 < i < |q.chain| && q.chain[i-1] !in q.link {
        var u :| OwedBy(q, u, q.chain[i-1], q.chain[i]);
        assert OwedBy(q', u, q.chain[i-1], q.chain[i]);
      }
    }
    forall u | u in q.calls ensures CallOk(q', u) { assert CallOk(q, u); }
  }

  /** The exchange of `_head`: the node joins the chain and its caller owes one link. */
  lemma ExchangeKeeps(q: Queue, t: Thread)
    requires QueueOk(q) && t in q.calls && q.calls[t].Linked?
    ensures QueueOk(EnqueueStep(q, t))
  {
    var q' := EnqueueStep(q, t);
    var n := |q.chain|;
    assert CallOk(q, t);
    forall i: nat ensures LinkOk(q', i) {
      assert LinkOk(q, i);
      if i == n {
        assert OwedBy(q', t, q'.chain[i-1], q'.chain[i]);
      } else if 0 < i < n && q.chain[i-1] !in q.link {
        var u :| OwedBy(q, u, q.chain[i-1], q.chain[i]);
        assert OwedBy(q', u, q'.chain[i-1], q'.chain[i]);
      }
    }
    forall u | u in q.calls ensures CallOk(q', u) {
      assert CallOk(q, u);
      if u == t {
        assert FollowsAt(q'.chain, n, q.head, q'.calls[t].input);
      } else if q.calls[u].Swapped? {
        var i: nat :| FollowsAt(q.chain, i, q.calls[u].prevHead, q.calls[u].input);
        assert FollowsAt(q'.chain, i, q.calls[u].prevHead, q.calls[u].input);
      }
    }
  }

  /** The store into the previous head: the owed link becomes right. */
  lemma PublishKeeps(q: Queue, t: Thread)
    requires QueueOk(q) && t in q.calls && q.calls[t].Swapped?
    ensures QueueOk(EnqueueStep(q, t))
  {
    var q' := EnqueueStep(q, t);
    var x, p := q.calls[t].input, q.calls[t].prevHead;
    assert CallOk(q, t);
    var k: nat :| FollowsAt(q.chain, k, p, x);
    forall i: nat ensures LinkOk(q', i) {
      assert LinkOk(q, i);
      if 0 < i < |q.chain| && i != k && q.chain[i-1] !in q.link {
        var u :| OwedBy(q, u, q.chain[i-1], q.chain[i]);
        assert OwedBy(q', u, q.chain[i-1], q.chain[i]);
      }
    }
    forall u | u in q'.calls ensures CallOk(q', u) {
      assert CallOk(q, u);
      if q.calls[u].Swapped? {
        var i: nat :| FollowsAt(q.chain, i, q.calls[u].prevHead, q.calls[u].input);
        assert i != k;
        assert FollowsAt(q'.chain, i, q.calls[u].prevHead, q.calls[u].input);
      }
    }
  }

  /** The store of `_tail`: the oldest node leaves, and no enqueuer still owes its link. */
  lemma MoveTailKeeps(q: Queue, next: Node)
    requires QueueOk(q) && q.tail in q.link && q.link[q.tail] == next
    ensures QueueOk(MoveTail(q, next)) && q.tail !in MoveTail(q, next).chain
    ensures forall u | u in q.calls && q.calls[u].Swapped? :: q.calls[u].prevHead != q.tail
  {
    var q' := MoveTail(q, next);
    assert LinkOk(q, 1);
    forall i: nat ensures LinkOk(q', i) {
      assert LinkOk(q, i + 1);
      if 0 < i < |q'.chain| && q'.chain[i-1] !in q.link {
        var u :| OwedBy(q, u, q.chain[i], q.chain[i+1]);
        assert OwedBy(q', u, q'.chain[i-1], q'.chain[i]);
      }
    }
    forall u | u in q'.calls ensures CallOk(q', u) {
      assert CallOk(q, u);
      if q.calls[u].Swapped? {
        var i: nat :| FollowsAt(q.chain, i, q.calls[u].prevHead, q.calls[u].input);
        assert i != 1;
        assert FollowsAt(q'.chain, i-1, q.calls[u].prevHead, q.calls[u].input);
      }
    }
  }

  /** Any step of an Enqueue call keeps the queue, and records the node exactly when it joins the contents. */
  lemma ProduceStepKeeps(s: State, t: Thread)
    requires QueueOk(s.q) && t in s.q.calls && s.pushed == s.taken + Contents(s.q)
    ensures var s' := ProduceStep(s, t); QueueOk(s'.q) && s'.pushed == s'.taken + Contents(s'.q)
  {
    match s.q.calls[t]
    case Ready(_) => LinkInitKeeps(s.q, t);
    case Linked(x) => ExchangeKeeps(s.q, t); WithoutDummyAppend(s.q.chain, x);
    case Swapped(_, _) => PublishKeeps(s.q, t);
  }

  /** A new call whose node is nowhere in the queue. */
  lemma NewCallKeeps(q: Queue, t: Thread, input: Node)
    requires QueueOk(q) && t !in q.calls && input !in q.chain
    requires input == DUMMY <==> t == CONSUMER
    requires forall u | u in q.calls :: q.calls[u].input != input
    ensures QueueOk(q.(calls := q.calls[t := Ready(input)]))
  {
    var q' := q.(calls := q.calls[t := Ready(input)]);
    forall i: nat ensures LinkOk(q', i) {
      assert LinkOk(q, i);
      if 0 < i < |q.chain| && q.chain[i-1] !in q.link {
        var u :| OwedBy(q, u, q.chain[i-1], q.chain[i]);
        assert OwedBy(q', u, q.chain[i-1], q.chain[i]);
      }
    }
    forall u | u in q'.calls ensures CallOk(q', u) {
      if u != t { assert CallOk(q, u); }
    }
  }

  lemma BeginKeeps(s: State, t: Thread, input: Node)
    requires Inv(s)
    ensures Inv(Step(s, Begin(t, input)))
  {
    if MayEnqueue(s.q, t, input) { NewCallKeeps(s.q, t, input); }
  }

  lemma ProduceKeeps(s: State, t: Thread)
    requires Inv(s)
    ensures Inv(Step(s, Produce(t)))
  {
    if t != CONSUMER && t in s.q.calls {
      var s' := Step(s, Produce(t));
      ProduceStepKeeps(s, t);
      if |s'.q.chain| > |s.q.chain| {
        assert s'.q.calls[t].Swapped?;
        assert ProducerMidPush(s'.q);
      }
    }
  }

  /** A link missing at the tail, when the tail is the dummy or not the last node, means an empty queue or
      a producer between its exchange and its store, unless the consumer itself is enqueuing. */
  lemma MissingTailLinkIsGap(q: Queue)
    requires QueueOk(q) && CONSUMER !in q.calls
    requires q.tail !in q.link && (|q.chain| > 1 || q.tail == DUMMY)
    ensures Gap(q)
  {
    if |q.chain| == 1 {
      assert q.chain == [DUMMY];
      OnlyDummyIsEmpty();
      return;
    }
    assert LinkOk(q, 1);
    var t :| OwedBy(q, t, q.chain[0], q.chain[1]);
    assert t != CONSUMER && q.calls[t].Swapped?;
  }

  lemma MoveTailStepKeeps(s: State)
    requires Inv(s) && (s.consumer.AtSkip? || s.consumer.AtAdvance?)
    ensures Inv(Step(s, Consume))
  {
    MoveTailKeeps(s.q, s.consumer.next);
    assert LinkOk(s.q, 1) && s.q.chain[1] == s.consumer.next;
  }

  lemma DummyStepKeeps(s: State)
    requires Inv(s) && (s.consumer.AtHeadCheck? || s.consumer.AtEnqueue?)
    ensures Inv(Step(s, Consume))
  {
    if s.consumer.AtEnqueue? {
      assert CallOk(s.q, CONSUMER);
      ProduceStepKeeps(s, CONSUMER);
    } else if s.q.tail == s.q.head {
      assert |s.q.chain| == 1;
      assert forall u | u in s.q.calls :: CallOk(s.q, u);
      NewCallKeeps(s.q, CONSUMER, DUMMY);
    }
  }

  lemma ConsumeKeeps(s: State)
    requires Inv(s)
    ensures Inv(Step(s, Consume))
  {
    match s.consumer
    case AtSkip(_) => MoveTailStepKeeps(s);
    case AtAdvance(_, _) => MoveTailStepKeeps(s);
    case AtHeadCheck(_) => DummyStepKeeps(s);
    case AtEnqueue(_) => DummyStepKeeps(s);
    case _ =>
      if s.q.tail !in s.q.link && (|s.q.chain| > 1 || s.q.tail == DUMMY) { MissingTailLinkIsGap(s.q); }
  }

  lemma StepKeeps(s: State, a: Action)
    requires Inv(s)
    ensures Inv(Step(s, a))
  {
    match a
    case Begin(t, input) => BeginKeeps(s, t, input);
    case Produce(t) => ProduceKeeps(s, t);
    case Consume => ConsumeKeeps(s);
  }

  // ---------- all interleavings ----------

  lemma AfterInv(schedule: seq<Action>)
    ensures Inv(After(schedule))
  {
    InitialInv();
    forall s, a | Inv(s) ensures Inv(Step(s, a)) { StepKeeps(s, a); }
    RunKeeps(Step, s => Inv(s), Initial, schedule);
  }

  /** Nothing recorded as exchanged or returned is ever revised. */
  lemma StepGrows(s: State, a: Action)
    ensures s.pushed <= Step(s, a).pushed && s.taken <= Step(s, a).taken
  {
  }

  lemma RunGrows(s: State, schedule: seq<Action>)
    ensures s.pushed <= Run(Step, s, schedule).pushed && s.taken <= Run(Step, s, schedule).taken
  {
    hide Step;
    forall x: State, a | s.pushed <= x.pushed && s.taken <= x.taken
      ensures s.pushed <= Step(x, a).pushed && s.taken <= Step(x, a).taken
    {
      StepGrows(x, a);
    }
    RunKeeps(Step, (x: State) => s.pushed <= x.pushed && s.taken <= x.taken, s, schedule);
  }

  /** The link into position `i` leads there, or one thread, and only one, is still going to write it. */
  ghost predicate LinkedOrOwed(q: Queue, i: nat)
    requires 0 < i < |q.chain|
  {
    var p, x := q.chain[i - 1], q.chain[i];
    if p in q.link then q.link[p] == x
    else Owed(q, p, x) && forall t, u :: OwedBy(q, t, p, x) && OwedBy(q, u, p, x) ==> t == u
  }

  /** The chain in every interleaving: it leads from tail to head, no node stands in it twice, each missing link is owed
      by exactly one thread, and the dummy is never enqueued while it still stands in it. */
  lemma ChainIsSound(schedule: seq<Action>)
    ensures var q := After(schedule).q;
      && |q.chain| > 0 && q.chain[0] == q.tail && q.chain[|q.chain| - 1] == q.head && Distinct(q.chain)
      && (forall i: nat | 0 < i < |q.chain| :: LinkedOrOwed(q, i))
      && (CONSUMER in q.calls && !q.calls[CONSUMER].Swapped? ==> DUMMY !in q.chain)
  {
    AfterInv(schedule);
    var q := After(schedule).q;
    forall i: nat | 0 < i < |q.chain| ensures LinkedOrOwed(q, i) { assert LinkOk(q, i); }
    if CONSUMER in q.calls { assert CallOk(q, CONSUMER); }
  }

  /** The dummy is never returned. */
  lemma DummyStaysInside(schedule: seq<Action>)
    ensures DUMMY !in After(schedule).taken
  {
    AfterInv(schedule);
    hide Step;
    forall s: State, a | DUMMY !in s.pushed ensures DUMMY !in Step(s, a).pushed { PushesNoDummy(s, a); }
    RunKeeps(Step, (s: State) => DUMMY !in s.pushed, Initial, schedule);
    assert After(schedule).pushed == After(schedule).taken + Contents(After(schedule).q);
  }

  lemma PushesNoDummy(s: State, a: Action)
    requires DUMMY !in s.pushed
    ensures DUMMY !in Step(s, a).pushed
  {
  }

  /** FIFO in every interleaving: what Dequeue returned is a prefix of the exchange order, the rest is still queued. */
  lemma DequeueIsFifo(schedule: seq<Action>)
    ensures var s := After(schedule); s.taken <= s.pushed && s.pushed[|s.taken|..] == Contents(s.q)
  {
    AfterInv(schedule);
  }

  /** The nodes whose link an access reads or writes. */
  function Touched(s: State, a: Action): set<Node> {
    match a
    case Begin(_, _) => {}
    case Produce(t) => if t != CONSUMER then TouchedByEnqueue(s.q, t) else {}
    case Consume =>
      match s.consumer
      case AtNext(tail) => {tail}
      case AtSecondNext(tail) => {tail}
      case AtRelink(tail) => {tail}
      case AtEnqueue(_) => TouchedByEnqueue(s.q, CONSUMER)
      case _ => {}
  }

  function TouchedByEnqueue(q: Queue, t: Thread): set<Node> {
    if t !in q.calls then {}
    else
      match q.calls[t]
      case Ready(x) => {x}
      case Linked(_) => {}
      case Swapped(_, prevHead) => {prevHead}
  }

  predicate SameLink(a: map<Node, Node>, b: map<Node, Node>, n: Node) {
    if n in a then n in b && a[n] == b[n] else n !in b
  }

  /** These are all of them: an access changes no other link, and what it does depends on no other link. */
  lemma OnlyTouchedLinksMatter(s: State, a: Action, link: map<Node, Node>)
    requires forall n | n in Touched(s, a) :: SameLink(link, s.q.link, n)
    ensures var r, other := Act(s, a), Act(s.(q := s.q.(link := link)), a);
      && (forall n | n !in Touched(s, a) :: SameLink(r.q.link, s.q.link, n))
      && other == r.(q := r.q.(link := other.q.link))
  {
    OtherLinksStay(s, a);
    match a
    case Begin(_, _) =>
    case Produce(t) => if t in s.q.calls { EnqueueReadsNoLink(s, t, link); }
    case Consume =>
      if s.consumer.AtEnqueue? {
        if CONSUMER in s.q.calls { EnqueueReadsNoLink(s, CONSUMER, link); }
      } else {
        DequeueReadsTouched(s, link);
      }
  }

  lemma OtherLinksStay(s: State, a: Action)
    ensures forall n | n !in Touched(s, a) :: SameLink(Act(s, a).q.link, s.q.link, n)
  {
  }

  lemma EnqueueReadsNoLink(s: State, t: Thread, link: map<Node, Node>)
    requires t in s.q.calls
    ensures var r, other := ProduceStep(s, t), ProduceStep(s.(q := s.q.(link := link)), t);
      other == r.(q := r.q.(link := other.q.link))
  {
  }

  lemma DequeueReadsTouched(s: State, link: map<Node, Node>)
    requires !s.consumer.AtEnqueue? && forall n | n in Touched(s, Consume) :: SameLink(link, s.q.link, n)
    ensures var r, other := DequeueStep(s), DequeueStep(s.(q := s.q.(link := link)));
      other == r.(q := r.q.(link := other.q.link))
  {
    match s.consumer
    case AtNext(tail) => assert SameLink(link, s.q.link, tail);
    case AtSecondNext(tail) => assert SameLink(link, s.q.link, tail);
    case AtRelink(tail) => assert SameLink(link, s.q.link, tail);
    case _ =>
  }

  ghost predicate Spares(q: Queue, t: Thread, n: Node)
    requires t in q.calls
  {
    q.calls[t].input != n && (q.calls[t].Swapped? ==> q.calls[t].prevHead != n)
  }

  /** Node `n` is in no queue position, and no call is going to exchange it or to write its link. */
  ghost predicate Gone(s: State, n: Node) {
    n != DUMMY && n !in s.q.chain && forall t | t in s.q.calls :: Spares(s.q, t, n)
  }

  lemma ProduceKeepsGone(s: State, t: Thread, n: Node)
    requires Inv(s) && Gone(s, n) && t in s.q.calls
    ensures Gone(ProduceStep(s, t), n)
  {
    var r := ProduceStep(s, t);
    assert Spares(s.q, t, n) && s.q.head in s.q.chain;
    forall u | u in r.q.calls ensures Spares(r.q, u, n) { assert u in s.q.calls && Spares(s.q, u, n); }
  }

  lemma BeginKeepsGone(s: State, t: Thread, input: Node, n: Node)
    requires Gone(s, n) && input != n
    ensures Gone(Act(s, Begin(t, input)), n)
  {
    var r := Act(s, Begin(t, input));
    forall u | u in r.q.calls ensures Spares(r.q, u, n) { assert u in s.q.calls ==> Spares(s.q, u, n); }
  }

  lemma ConsumeKeepsGone(s: State, n: Node)
    requires Inv(s) && Gone(s, n)
    ensures Gone(DequeueStep(s), n)
  {
    var r := DequeueStep(s);
    if s.consumer.AtEnqueue? {
      if CONSUMER in s.q.calls { ProduceKeepsGone(s, CONSUMER, n); }
    } else {
      forall u | u in r.q.calls ensures Spares(r.q, u, n) { assert u in s.q.calls ==> Spares(s.q, u, n); }
    }
  }

  lemma StepKeepsGone(s: State, a: Action, n: Node)
    requires Inv(s) && Gone(s, n) && !(a.Begin? && a.input == n)
    ensures Gone(Step(s, a), n)
  {
    match a
    case Begin(t, input) => BeginKeepsGone(s, t, input, n);
    case Produce(t) => if t != CONSUMER && t in s.q.calls { ProduceKeepsGone(s, t, n); }
    case Consume => ConsumeKeepsGone(s, n);
  }

  lemma GoneIsUntouched(s: State, a: Action, n: Node)
    requires Inv(s) && Gone(s, n)
    ensures n !in Touched(s, a)
  {
    if a.Produce? && a.thread in s.q.calls { assert Spares(s.q, a.thread, n); }
    if CONSUMER in s.q.calls { assert Spares(s.q, CONSUMER, n); }
  }

  predicate NotBegun(later: seq<Action>, n: Node) { forall a | a in later :: !(a.Begin? && a.input == n) }

  lemma {:induction false} RunKeepsGone(s: State, later: seq<Action>, n: Node)
    requires Inv(s) && Gone(s, n) && NotBegun(later, n)
    ensures Inv(Run(Step, s, later)) && Gone(Run(Step, s, later), n)
    decreases |later|
  {
    if later != [] {
      assert later[0] in later;
      StepKeeps(s, later[0]);
      StepKeepsGone(s, later[0], n);
      RunKeepsGone(Step(s, later[0]), later[1..], n);
    }
  }

  lemma ReturningGivesGone(s: State)
    requires Inv(s) && s.consumer.AtAdvance?
    ensures var r := Step(s, Consume);
      r.outcome == Returned(s.q.tail) && r.taken == s.taken + [s.q.tail] && Gone(r, s.q.tail)
  {
    MoveTailKeeps(s.q, s.consumer.next);
    forall t | t in s.q.calls ensures Spares(s.q, t, s.q.tail) {
      assert CallOk(s.q, t);
      if s.q.calls[t].Swapped? {
        var i: nat :| FollowsAt(s.q.chain, i, s.q.calls[t].prevHead, s.q.calls[t].input);
        assert i > 0 && s.q.chain[i] != s.q.chain[0];
      }
    }
  }

  /** The action at moment `k` of the schedule makes Dequeue return a node. */
  predicate ReturnsAt(schedule: seq<Action>, k: nat) {
    k < |schedule| && After(schedule[..k + 1]).taken != After(schedule[..k]).taken
  }

  /** Only the consumer's last access, the one that advances the tail, does. */
  lemma OnlyAdvanceReturns(s: State, a: Action)
    ensures Step(s, a).taken != s.taken <==> a == Consume && s.consumer.AtAdvance?
  {
  }

  /** From the moment Dequeue returns a node until the node is enqueued again, in every interleaving, the node is out of
      reach: it is in no queue position, no thread is going to exchange it or write its link, and no access of any thread
      touches it. */
  lemma ReturnedNodeIsFree(schedule: seq<Action>, k: nat, a: Action)
    requires ReturnsAt(schedule, k) && NotBegun(schedule[k + 1..], After(schedule[..k]).q.tail)
    ensures var s, n := After(schedule), After(schedule[..k]).q.tail;
      && After(schedule[..k + 1]).outcome == Returned(n)
      && After(schedule[..k + 1]).taken == After(schedule[..k]).taken + [n]
      && Gone(s, n) && n !in Touched(s, a)
  {
    var s, later := After(schedule[..k]), schedule[k + 1..];
    AfterInv(schedule[..k]);
    assert schedule[..k + 1] == schedule[..k] + [schedule[k]] && schedule == schedule[..k + 1] + later;
    RunOne(Step, Initial, schedule[..k], schedule[k]);
    OnlyAdvanceReturns(s, schedule[k]);
    RunAppend(Step, Initial, schedule[..k + 1], later);
    ReturningGivesGone(s);
    StepKeeps(s, Consume);
    RunKeepsGone(Step(s, Consume), later, s.q.tail);
    GoneIsUntouched(After(schedule), a, s.q.tail);
  }

  predicate InCall(schedule: seq<Action>, k: nat) { k <= |schedule| && !After(schedule[..k]).consumer.Idle? }

  predicate GapAt(schedule: seq<Action>, k: nat) { k <= |schedule| && Gap(After(schedule[..k]).q) }

  predicate FlagAt(schedule: seq<Action>, k: nat) { k <= |schedule| && After(schedule[..k]).gap }

  /** Moment `k` lies in the last Dequeue call, which ended at moment `e`, and the queue then held nothing to take. */
  ghost predicate GapInLastCall(schedule: seq<Action>, k: nat, e: nat) {
    LastCall((j: nat) => InCall(schedule, j), k, e, |schedule|) && GapAt(schedule, k)
  }

  /** Dequeue answers false only if, at some moment of that very call, the queue held no element
      or a producer stood between its exchange of `_head` and its link store. */
  lemma RefusalMeansGap(schedule: seq<Action>)
    requires After(schedule).consumer.Idle? && After(schedule).outcome.Refused?
    ensures exists k: nat, e: nat :: GapInLastCall(schedule, k, e)
  {
    AfterInv(schedule);
    assert schedule[..|schedule|] == schedule;
    forall k: nat | k < |schedule|
      ensures After(schedule[..k+1]) == Step(After(schedule[..k]), schedule[k])
    {
      assert schedule[..k+1] == schedule[..k] + [schedule[k]];
      RunOne(Step, Initial, schedule[..k], schedule[k]);
    }
    FlagMeansMoment((j: nat) => InCall(schedule, j), (j: nat) => GapAt(schedule, j),
                    (j: nat) => FlagAt(schedule, j), |schedule|);
    var k: nat, e: nat :| k <= |schedule| && LastCall((j: nat) => InCall(schedule, j), k, e, |schedule|)
                          && GapAt(schedule, k);
    assert GapInLastCall(schedule, k, e);
  }

  // ---------- Dequeue never waits ----------

  /** The most accesses the consumer still makes in this call. */
  ghost function StepsLeft(s: State): nat {
    match s.consumer
    case Idle => 0
    case AtNext(_) => 9
    case AtSkip(_) => 8
    case AtSecondNext(_) => 7
    case AtHeadCheck(_) => 6
    case AtEnqueue(_) =>
      if CONSUMER !in s.q.calls then 2
      else (match s.q.calls[CONSUMER] case Ready(_) => 5 case Linked(_) => 4 case Swapped(_, _) => 3)
    case AtRelink(_) => 2
    case AtAdvance(_, _) => 1
  }

  lemma ActCounts(s: State, a: Action)
    ensures StepsLeft(Step(s, a)) == StepsLeft(Act(s, a))
  {
    hide Act;
  }

  lemma ConsumeLowers(s: State)
    requires Inv(s) && !s.consumer.Idle?
    ensures StepsLeft(DequeueStep(s)) < StepsLeft(s)
  {
    if s.consumer.AtEnqueue? { assert CONSUMER in s.q.calls; }
  }

  lemma OthersLeave(s: State, a: Action)
    requires a != Consume
    ensures StepsLeft(Act(s, a)) == StepsLeft(s)
  {
  }

  /** Each access of the consumer lowers it, and nobody else changes it. */
  lemma StepsLeftFalls(s: State, a: Action)
    requires Inv(s) && !s.consumer.Idle?
    ensures if a == Consume then StepsLeft(Step(s, a)) < StepsLeft(s) else StepsLeft(Step(s, a)) == StepsLeft(s)
  {
    hide Inv, Step, StepsLeft, DequeueStep;
    ActCounts(s, a);
    if a == Consume { ConsumeLowers(s); } else { OthersLeave(s, a); }
  }

  function Accesses(schedule: seq<Action>): nat {
    if schedule == [] then 0
    else Accesses(schedule[..|schedule| - 1]) + if schedule[|schedule| - 1] == Consume then 1 else 0
  }

  lemma AccessesNext(schedule: seq<Action>, i: nat, k: nat)
    requires i <= k < |schedule|
    ensures Accesses(schedule[i..k + 1]) == Accesses(schedule[i..k]) + if schedule[k] == Consume then 1 else 0
  {
    var part := schedule[i..k + 1];
    assert part[..|part| - 1] == schedule[i..k] && part[|part| - 1] == schedule[k];
  }

  lemma {:induction false} AccessesInCall(schedule: seq<Action>, i: nat, k: nat)
    requires i <= k <= |schedule| && forall m | i <= m <= k :: InCall(schedule, m)
    ensures Accesses(schedule[i..k]) + StepsLeft(After(schedule[..k])) <= StepsLeft(After(schedule[..i]))
    decreases k
  {
    hide Inv, Step, StepsLeft;
    if i < k {
      AccessesInCall(schedule, i, k - 1);
      AccessesNext(schedule, i, k - 1);
      AfterInv(schedule[..k - 1]);
      assert InCall(schedule, k - 1) && schedule[..k] == schedule[..k - 1] + [schedule[k - 1]];
      RunOne(Step, Initial, schedule[..k - 1], schedule[k - 1]);
      StepsLeftFalls(After(schedule[..k - 1]), schedule[k - 1]);
    } else {
      assert schedule[i..k] == [];
    }
  }

  /** Whatever the other threads do, and wherever they stand still, no call makes more than ten accesses. */
  lemma DequeueIsWaitFree(schedule: seq<Action>, i: nat, k: nat)
    requires i < k <= |schedule| && forall m | i < m < k :: InCall(schedule, m)
    ensures Accesses(schedule[i..k]) <= 10
  {
    AccessesNext(schedule, i, k - 1);
    if i + 1 < k {
      AccessesInCall(schedule, i + 1, k - 1);
      assert InCall(schedule, k - 1) && InCall(schedule, i + 1);
      FirstAccess(schedule, i, k - 1);
    } else {
      assert schedule[i..k - 1] == [];
    }
  }

  lemma {:induction false} FirstAccess(schedule: seq<Action>, i: nat, k: nat)
    requires i < k <= |schedule|
    ensures Accesses(schedule[i..k]) <= 1 + Accesses(schedule[i + 1..k])
    decreases k
  {
    AccessesNext(schedule, i, k - 1);
    if i + 1 < k {
      AccessesNext(schedule, i + 1, k - 1);
      FirstAccess(schedule, i, k - 1);
    } else {
      assert schedule[i..k - 1] == [] && schedule[i + 1..k] == [];
    }
  }

  // ---------- Dequeue with no producer in flight ----------

  /** The consumer runs alone until its Dequeue call returns. */
  ghost function FinishCall(s: State): State
    requires Inv(s)
    decreases StepsLeft(s)
  {
    if s.consumer.Idle? then s else ConsumeKeeps(s); FinishCall(Step(s, Consume))
  }

  ghost function Dequeue(s: State): State
    requires Inv(s) && s.consumer.Idle?
  {
    ConsumeKeeps(s); FinishCall(Step(s, Consume))
  }

  ghost predicate NoProducer(s: State) { forall t | t in s.q.calls :: t == CONSUMER }

  lemma AloneTakesNothing(s: State)
    requires Inv(s) && !s.consumer.Idle? && !s.consumer.AtAdvance?
    ensures DequeueStep(s).taken == s.taken && DequeueStep(s).pushed == s.pushed && DequeueStep(s).gap == s.gap
  {
    if s.consumer.AtEnqueue? { assert CallOk(s.q, CONSUMER); }
  }

  lemma AloneStartsNone(s: State)
    requires NoProducer(s)
    ensures NoProducer(DequeueStep(s))
  {
  }

  lemma ConsumeIs(s: State)
    requires !s.consumer.Idle?
    ensures var r, d := Step(s, Consume), DequeueStep(s);
      r.q == d.q && r.taken == d.taken && r.pushed == d.pushed && r.gap == (s.gap || Gap(d.q))
  {
    hide Gap, DequeueStep;
  }

  lemma ContentsAreUntaken(s: State)
    requires Inv(s)
    ensures Contents(s.q) == s.pushed[|s.taken|..]
  {
  }

  lemma NoProducerMidPush(s: State)
    requires Inv(s) && NoProducer(s)
    ensures Gap(s.q) <==> Contents(s.q) == []
  {
  }

  /** A step of the consumer alone that does not return an element changes neither the contents nor the reason to refuse. */
  lemma StepAlone(s: State)
    requires Inv(s) && NoProducer(s) && !s.consumer.Idle? && !s.consumer.AtAdvance?
    requires s.gap ==> Contents(s.q) == []
    ensures var s' := Step(s, Consume);
      && Inv(s') && NoProducer(s') && s'.pushed == s.pushed && s'.taken == s.taken
      && Contents(s'.q) == Contents(s.q) && (s'.gap ==> Contents(s'.q) == [])
  {
    var s' := Step(s, Consume);
    ConsumeKeeps(s);
    hide Inv, Step, DequeueStep, Gap, Contents;
    ConsumeIs(s);
    AloneTakesNothing(s);
    AloneStartsNone(s);
    ContentsAreUntaken(s);
    ContentsAreUntaken(s');
    NoProducerMidPush(s');
  }

  lemma {:induction false} FinishAlone(s: State)
    requires Inv(s) && NoProducer(s) && !s.consumer.Idle?
    requires s.gap ==> Contents(s.q) == []
    ensures var r, c := FinishCall(s), Contents(s.q);
      && Inv(r) && NoProducer(r) && r.consumer.Idle? && r.pushed == s.pushed
      && if c == [] then r.outcome == Refused && Contents(r.q) == []
         else r.outcome == Returned(c[0]) && Contents(r.q) == c[1..] && r.taken == s.taken + [c[0]]
    decreases StepsLeft(s)
  {
    var s' := Step(s, Consume);
    ConsumeKeeps(s);
    if s.consumer.AtAdvance? {
      assert s.q.chain[0] == s.q.tail != DUMMY;
      assert Contents(s.q) == [s.q.tail] + Contents(s'.q);
    } else {
      StepAlone(s);
      if !s'.consumer.Idle? { FinishAlone(s'); }
    }
  }

  /** With no producer in flight Dequeue answers true exactly when the queue is non-empty, and takes the oldest. */
  lemma DequeueAlone(s: State)
    requires Inv(s) && s.consumer.Idle? && s.q.calls == map[]
    ensures var r, c := Dequeue(s), Contents(s.q);
      && Inv(r) && r.consumer.Idle? && r.q.calls == map[] && r.pushed == s.pushed
      && (r.outcome.Returned? <==> c != [])
      && (c == [] ==> r.outcome == Refused && Contents(r.q) == [])
      && (c != [] ==> r.outcome == Returned(c[0]) && Contents(r.q) == c[1..] && r.taken == s.taken + [c[0]])
  {
    ConsumeKeeps(s);
    FinishAlone(Step(s, Consume));
    var r := Dequeue(s);
    assert forall t | t in r.q.calls :: t == CONSUMER;
    assert r.q.calls == map[];
  }

  /** The destructor's loop: Dequeue until it answers false. */
  ghost function Drain(s: State): State
    requires Inv(s) && s.consumer.Idle? && s.q.calls == map[]
    decreases |Contents(s.q)|
  {
    DequeueAlone(s);
    var r := Dequeue(s);
    if r.outcome.Returned? then Drain(r) else r
  }

  /** The destructor of a quiescent queue returns every element exactly once, in order. */
  lemma {:induction false} DrainReturnsAll(s: State)
    requires Inv(s) && s.consumer.Idle? && s.q.calls == map[]
    ensures Drain(s).taken == s.pushed == Drain(s).pushed && Contents(Drain(s).q) == []
    decreases |Contents(s.q)|
  {
    DequeueAlone(s);
    if Dequeue(s).outcome.Returned? { DrainReturnsAll(Dequeue(s)); }
  }
}
