/**
 The allocating multi-producer single-consumer queue, one atomic memory access per step. Every node is
 allocated by Enqueue, at any address that is free at that moment, and deleted by Dequeue or the destructor.
 */
module NonIntrusiveQueue {
  import opened Machines
  import opened Sequences

  type Address = nat
  type Thread = nat

  /** Where a thread stands inside one Enqueue call, after `new Node(input)`: before the exchange
      of `_head`, or before the store into the previous head. */
  datatype EnqueuePc =
    | Ready(node: Address)
    | Swapped(node: Address, prevHead: Address)

  /** Where the consumer stands inside one Dequeue call. */
  datatype ConsumerPc<T> =
    | Idle
    | AtNext(tail: Address)
    | AtData(tail: Address, next: Address)
    | AtStore(tail: Address, next: Address, data: T)
    | AtDelete(tail: Address, data: T)

  datatype Outcome<T> = NoCall | Refused | Returned(data: T)

  /** The memory, the locals of the threads inside Enqueue, and `chain`, the nodes from tail to head in exchange order. */
  datatype Queue<T> = Queue(
    head: Address, tail: Address, link: map<Address, Address>, data: map<Address, T>, live: set<Address>,
    calls: map<Thread, EnqueuePc>, chain: seq<Address>)

  /** `pushed` and `taken` record the data exchanged into the queue and the data dequeued. `gap` records whether the
      current or last Dequeue met a moment at which the queue was empty or a producer was between its exchange and its
      link store. `fault` records whether any thread has touched or deleted a node that was not allocated. */
  datatype State<T> = State(q: Queue<T>, consumer: ConsumerPc<T>, outcome: Outcome<T>,
                            pushed: seq<T>, taken: seq<T>, gap: bool, fault: bool)

  datatype Action<T> = Begin(thread: Thread, node: Address, input: T) | Produce(thread: Thread) | Consume

  /** The constructor: one node whose data is never read. */
  function Initial<T>(front: Address): State<T> {
    State(Queue(front, front, map[], map[], {front}, map[], [front]), Idle, NoCall, [], [], false, false)
  }

  predicate ProducerMidPush<T>(q: Queue<T>) { exists t | t in q.calls :: q.calls[t].Swapped? }

  predicate Gap<T>(q: Queue<T>) { |q.chain| == 1 || ProducerMidPush(q) }

  predicate MayBegin<T>(q: Queue<T>, t: Thread, node: Address) { t !in q.calls && node !in q.live }

  function Allocate<T>(q: Queue<T>, t: Thread, node: Address, input: T): Queue<T> {
    q.(link := q.link - {node}, data := q.data[node := input], live := q.live + {node}, calls := q.calls[t := Ready(node)])
  }

  function EnqueueStep<T>(q: Queue<T>, t: Thread): Queue<T>
    requires t in q.calls
  {
    match q.calls[t]
    case Ready(x) => q.(head := x, calls := q.calls[t := Swapped(x, q.head)], chain := q.chain + [x])
    case Swapped(x, prevHead) => q.(link := q.link[prevHead := x], calls := q.calls - {t})
  }

  function MoveTail<T>(q: Queue<T>, next: Address): Queue<T> {
    q.(tail := next, chain := if q.chain == [] then [] else q.chain[1..])
  }

  function Delete<T>(q: Queue<T>, node: Address): Queue<T> { q.(live := q.live - {node}) }

  function DequeueStep<T>(s: State<T>): State<T> {
    match s.consumer
    case Idle => s.(consumer := AtNext(s.q.tail))
    case AtNext(tail) =>
      if tail !in s.q.link then s.(consumer := Idle, outcome := Refused)
      else s.(consumer := AtData(tail, s.q.link[tail]))
    case AtData(tail, next) =>
      if next !in s.q.data then s else s.(consumer := AtStore(tail, next, s.q.data[next]))
    case AtStore(tail, next, data) =>
      s.(q := MoveTail(s.q, next), taken := s.taken + [data], consumer := AtDelete(tail, data))
    case AtDelete(tail, data) => s.(q := Delete(s.q, tail), consumer := Idle, outcome := Returned(data))
  }

  /** The node that an access dereferences or deletes. */
  function Touched<T>(s: State<T>, a: Action<T>): set<Address> {
    match a
    case Begin(_, _, _) => {}
    case Produce(t) => if t in s.q.calls && s.q.calls[t].Swapped? then {s.q.calls[t].prevHead} else {}
    case Consume =>
      match s.consumer
      case AtNext(tail) => {tail}
      case AtData(_, next) => {next}
      case AtDelete(tail, _) => {tail}
      case _ => {}
  }

  /** An action that its thread cannot take in this state changes nothing. */
  function Act<T>(s: State<T>, a: Action<T>): State<T> {
    match a
    case Begin(t, node, input) => if MayBegin(s.q, t, node) then s.(q := Allocate(s.q, t, node, input)) else s
    case Produce(t) =>
      if t !in s.q.calls then s
      else
        var call := s.q.calls[t];
        s.(q := EnqueueStep(s.q, t),
           pushed := if call.Ready? && call.node in s.q.data then s.pushed + [s.q.data[call.node]] else s.pushed)
    case Consume => DequeueStep(s)
  }

  function Step<T>(s: State<T>, a: Action<T>): State<T> {
    var s' := Act(s, a).(fault := s.fault || !(Touched(s, a) <= s.q.live));
    if s.consumer.Idle? && s'.consumer.Idle? then s'
    else s'.(gap := (if s.consumer.Idle? then Gap(s.q) else s.gap) || Gap(s'.q))
  }

  /** The state after a schedule that starts from the constructor. */
  function After<T>(front: Address, schedule: seq<Action<T>>): State<T> { Run(Step, Initial(front), schedule) }

  /** A step is the action and the bookkeeping of `fault` and `gap`. */
  lemma StepIsAct<T>(s: State<T>, a: Action<T>)
    ensures var r, d := Step(s, a), Act(s, a);
      && r.q == d.q && r.consumer == d.consumer && r.outcome == d.outcome && r.taken == d.taken && r.pushed == d.pushed
      && r.fault == (s.fault || !(Touched(s, a) <= s.q.live))
  {
  }

  // ---------- the invariant ----------

  /** Node `x` stands right behind node `p` in the chain, at position `i`. */
  predicate FollowsAt(chain: seq<Address>, i: nat, p: Address, x: Address) {
    0 < i < |chain| && chain[i-1] == p && chain[i] == x
  }

  ghost predicate Follows(chain: seq<Address>, p: Address, x: Address) { exists i: nat :: FollowsAt(chain, i, p, x) }

  predicate OwedBy<T>(q: Queue<T>, t: Thread, p: Address, x: Address) { t in q.calls && q.calls[t] == Swapped(x, p) }

  ghost predicate Owed<T>(q: Queue<T>, p: Address, x: Address) { exists t :: OwedBy(q, t, p, x) }

  predicate AllocatedBy<T>(q: Queue<T>, t: Thread, x: Address) { t in q.calls && q.calls[t] == Ready(x) }

  ghost predicate Private<T>(q: Queue<T>, x: Address) { exists t :: AllocatedBy(q, t, x) }

  ghost predicate LinkOk<T>(q: Queue<T>, i: nat) {
    0 < i < |q.chain| ==>
      var p, x := q.chain[i-1], q.chain[i];
      if p in q.link then q.link[p] == x else Owed(q, p, x)
  }

  ghost predicate ChainOk<T>(q: Queue<T>) {
    && |q.chain| > 0 && q.chain[0] == q.tail && q.chain[|q.chain|-1] == q.head
    && Distinct(q.chain)
    && q.head !in q.link
    && (forall i | 0 <= i < |q.chain| :: q.chain[i] in q.live)
    && forall i: nat :: LinkOk(q, i)
  }

  ghost predicate CallOk<T>(q: Queue<T>, t: Thread)
    requires t in q.calls
  {
    match q.calls[t]
    case Ready(x) => x !in q.chain && x !in q.link && x in q.live && x in q.data
    case Swapped(x, p) => p !in q.link && Follows(q.chain, p, x)
  }

  ghost predicate QueueOk<T>(q: Queue<T>) {
    && ChainOk(q)
    && (forall t | t in q.calls :: CallOk(q, t))
    && forall t, u | t in q.calls && u in q.calls && t != u :: q.calls[t].node != q.calls[u].node
  }

  /** The node the consumer has taken out of the chain and not yet deleted. */
  function Doomed<T>(s: State<T>): set<Address> { if s.consumer.AtDelete? then {s.consumer.tail} else {} }

  ghost predicate ConsumerOk<T>(s: State<T>) {
    match s.consumer
    case Idle => s.outcome.Refused? ==> s.gap
    case AtNext(tail) => tail == s.q.tail
    case AtData(tail, next) => tail == s.q.tail && tail in s.q.link && s.q.link[tail] == next
    case AtStore(tail, next, data) =>
      && tail == s.q.tail && tail in s.q.link && s.q.link[tail] == next
      && next in s.q.data && s.q.data[next] == data
    case AtDelete(tail, _) =>
      && tail in s.q.live && tail !in s.q.chain
      && forall t | t in s.q.calls :: s.q.calls[t] != Ready(tail) && (s.q.calls[t].Swapped? ==> s.q.calls[t].prevHead != tail)
  }

  /** The node at position `i` holds the `i`-th datum pushed and not yet taken. */
  ghost predicate DatumAt<T>(q: Queue<T>, pushed: seq<T>, taken: seq<T>, i: nat) {
    0 < i < |q.chain| ==>
      && |taken| + i - 1 < |pushed|
      && q.chain[i] in q.data && q.data[q.chain[i]] == pushed[|taken| + i - 1]
  }

  ghost predicate DataOk<T>(q: Queue<T>, pushed: seq<T>, taken: seq<T>) {
    && taken <= pushed && |pushed| == |taken| + |q.chain| - 1
    && forall i: nat :: DatumAt(q, pushed, taken, i)
  }

  ghost predicate Accounted<T>(q: Queue<T>, doomed: set<Address>, a: Address) {
    a in q.chain || Private(q, a) || a in doomed
  }

  /** Every allocated node is in the chain, private to an Enqueue call, or about to be deleted: nothing leaks. */
  ghost predicate NoLeak<T>(q: Queue<T>, doomed: set<Address>) { forall a | a in q.live :: Accounted(q, doomed, a) }

  ghost predicate Inv<T>(s: State<T>) {
    QueueOk(s.q) && ConsumerOk(s) && DataOk(s.q, s.pushed, s.taken) && NoLeak(s.q, Doomed(s)) && !s.fault
  }

  lemma InitialInv<T>(front: Address)
    ensures Inv<T>(Initial(front))
  {
  }

  lemma AllocateKeeps<T>(q: Queue<T>, t: Thread, node: Address, input: T)
    requires QueueOk(q) && MayBegin(q, t, node)
    ensures QueueOk(Allocate(q, t, node, input))
    ensures node !in q.chain && forall x | Private(q, x) :: Private(Allocate(q, t, node, input), x)
  {
    var q' := Allocate(q, t, node, input);
    forall i: nat ensures LinkOk(q', i) {
      assert LinkOk(q, i);
      if 0 < i < |q.chain| && q.chain[i-1] !in q.link {
        var u :| OwedBy(q, u, q.chain[i-1], q.chain[i]);
        assert OwedBy(q', u, q.chain[i-1], q.chain[i]);
      }
    }
    forall u | u in q'.calls ensures CallOk(q', u) && (u != t ==> q'.calls[u].node != node) {
      if u != t {
        assert CallOk(q, u);
        if q.calls[u].Swapped? {
          var i: nat :| FollowsAt(q.chain, i, q.calls[u].prevHead, q.calls[u].node);
          assert q.chain[i] in q.live;
        }
      }
    }
    forall x | Private(q, x) ensures Private(q', x) {
      var u :| AllocatedBy(q, u, x);
      assert AllocatedBy(q', u, x);
    }
  }

  lemma ExchangeKeeps<T>(q: Queue<T>, t: Thread)
    requires QueueOk(q) && t in q.calls && q.calls[t].Ready?
    ensures var q' := EnqueueStep(q, t);
      QueueOk(q') && forall x | Private(q, x) :: Private(q', x) || x in q'.chain
  {
    var q' := EnqueueStep(q, t);
    var n := |q.chain|;
    assert CallOk(q, t);
    forall i: nat ensures LinkOk(q', i) {
      assert LinkOk(q, i);
      if i == n {
        assert OwedBy(q', t, q'.chain[i-1], q'.chain[i]);
      } else if 0 < i < n && q.chain[i-1] !in q.link {
        var u :| OwedBy(q, u, q.chain[i-1], q.chain[i]);
        assert OwedBy(q', u, q'.chain[i-1], q'.chain[i]);
      }
    }
    forall u | u in q.calls ensures CallOk(q', u) {
      assert CallOk(q, u);
      if u == t {
        assert FollowsAt(q'.chain, n, q.head, q'.calls[t].node);
      } else if q.calls[u].Swapped? {
        var i: nat :| FollowsAt(q.chain, i, q.calls[u].prevHead, q.calls[u].node);
        assert FollowsAt(q'.chain, i, q.calls[u].prevHead, q.calls[u].node);
      }
    }
    forall x | Private(q, x) ensures Private(q', x) || x in q'.chain {
      var u :| AllocatedBy(q, u, x);
      if u == t { assert q'.chain[n] == x; } else { assert AllocatedBy(q', u, x); }
    }
  }

  lemma PublishKeeps<T>(q: Queue<T>, t: Thread)
    requires QueueOk(q) && t in q.calls && q.calls[t].Swapped?
    ensures var q' := EnqueueStep(q, t);
      QueueOk(q') && q.calls[t].prevHead in q.live && forall x | Private(q, x) :: Private(q', x)
  {
    var q' := EnqueueStep(q, t);
    assert CallOk(q, t);
    var k: nat :| FollowsAt(q.chain, k, q.calls[t].prevHead, q.calls[t].node);
    forall i: nat ensures LinkOk(q', i) {
      assert LinkOk(q, i);
      if 0 < i < |q.chain| && i != k && q.chain[i-1] !in q.link {
        var u :| OwedBy(q, u, q.chain[i-1], q.chain[i]);
        assert OwedBy(q', u, q.chain[i-1], q.chain[i]);
      }
    }
    forall u | u in q'.calls ensures CallOk(q', u) {
      assert CallOk(q, u);
      if q.calls[u].Swapped? {
        var i: nat :| FollowsAt(q.chain, i, q.calls[u].prevHead, q.calls[u].node);
        assert i != k;
        assert FollowsAt(q'.chain, i, q.calls[u].prevHead, q.calls[u].node);
      }
    }
    forall x | Private(q, x) ensures Private(q', x) {
      var u :| AllocatedBy(q, u, x);
      assert AllocatedBy(q', u, x);
    }
  }

  /** The store of `_tail`: the oldest node leaves, and no enqueuer still owes its link. */
  lemma MoveTailKeeps<T>(q: Queue<T>, next: Address)
    requires QueueOk(q) && q.tail in q.link && q.link[q.tail] == next
    ensures QueueOk(MoveTail(q, next)) && q.tail !in MoveTail(q, next).chain
    ensures forall u | u in q.calls :: q.calls[u] != Ready(q.tail) && (q.calls[u].Swapped? ==> q.calls[u].prevHead != q.tail)
    ensures forall x | Private(q, x) :: Private(MoveTail(q, next), x)
  {
    var q' := MoveTail(q, next);
    assert LinkOk(q, 1);
    forall i: nat ensures LinkOk(q', i) {
      assert LinkOk(q, i + 1);
      if 0 < i < |q'.chain| && q'.chain[i-1] !in q.link {
        var u :| OwedBy(q, u, q.chain[i], q.chain[i+1]);
        assert OwedBy(q', u, q'.chain[i-1], q'.chain[i]);
      }
    }
    forall u | u in q'.calls ensures CallOk(q', u) && q.calls[u] != Ready(q.tail) {
      assert CallOk(q, u);
      if q.calls[u].Swapped? {
        var i: nat :| FollowsAt(q.chain, i, q.calls[u].prevHead, q.calls[u].node);
        assert i != 1;
        assert FollowsAt(q'.chain, i-1, q.calls[u].prevHead, q.calls[u].node);
      }
    }
    forall x | Private(q, x) ensures Private(q', x) {
      var u :| AllocatedBy(q, u, x);
      assert AllocatedBy(q', u, x);
    }
  }

  /** Deleting a node that is neither in the chain nor in any Enqueue call. */
  lemma DeleteKeeps<T>(q: Queue<T>, node: Address)
    requires QueueOk(q) && node !in q.chain
    requires forall t | t in q.calls :: q.calls[t] != Ready(node)
    ensures QueueOk(Delete(q, node)) && forall x | Private(q, x) :: Private(Delete(q, node), x)
  {
    var q' := Delete(q, node);
    forall i: nat ensures LinkOk(q', i) {
      assert LinkOk(q, i);
      if 0 < i < |q.chain| && q.chain[i-1] !in q.link {
        var u :| OwedBy(q, u, q.chain[i-1], q.chain[i]);
        assert OwedBy(q', u, q.chain[i-1], q.chain[i]);
      }
    }
    forall u | u in q.calls ensures CallOk(q', u) { assert CallOk(q, u); }
    forall x | Private(q, x) ensures Private(q', x) {
      var u :| AllocatedBy(q, u, x);
      assert AllocatedBy(q', u, x);
    }
  }

  lemma AllocateKeepsData<T>(q: Queue<T>, t: Thread, node: Address, input: T, pushed: seq<T>, taken: seq<T>, doomed: set<Address>)
    requires QueueOk(q) && MayBegin(q, t, node) && DataOk(q, pushed, taken) && NoLeak(q, doomed)
    ensures var q' := Allocate(q, t, node, input); DataOk(q', pushed, taken) && NoLeak(q', doomed)
  {
    var q' := Allocate(q, t, node, input);
    AllocateKeeps(q, t, node, input);
    forall i: nat ensures DatumAt(q', pushed, taken, i) { assert DatumAt(q, pushed, taken, i); }
    forall a | a in q'.live ensures Accounted(q', doomed, a) {
      if a == node { assert AllocatedBy(q', t, node); } else { assert Accounted(q, doomed, a); }
    }
  }

  lemma ExchangeKeepsData<T>(q: Queue<T>, t: Thread, pushed: seq<T>, taken: seq<T>, doomed: set<Address>)
    requires QueueOk(q) && t in q.calls && q.calls[t].Ready? && DataOk(q, pushed, taken) && NoLeak(q, doomed)
    ensures q.calls[t].node in q.data
    ensures var q' := EnqueueStep(q, t); DataOk(q', pushed + [q.data[q.calls[t].node]], taken) && NoLeak(q', doomed)
  {
    var q', n := EnqueueStep(q, t), |q.chain|;
    assert CallOk(q, t);
    ExchangeKeeps(q, t);
    forall i: nat ensures DatumAt(q', pushed + [q.data[q.calls[t].node]], taken, i) {
      assert DatumAt(q, pushed, taken, i);
      if i == n { assert q'.chain[n] == q.calls[t].node; }
    }
    forall a | a in q'.live ensures Accounted(q', doomed, a) {
      assert Accounted(q, doomed, a);
      if a in q.chain { assert a in q'.chain; }
    }
  }

  lemma PublishKeepsData<T>(q: Queue<T>, t: Thread, pushed: seq<T>, taken: seq<T>, doomed: set<Address>)
    requires QueueOk(q) && t in q.calls && q.calls[t].Swapped? && DataOk(q, pushed, taken) && NoLeak(q, doomed)
    ensures var q' := EnqueueStep(q, t); DataOk(q', pushed, taken) && NoLeak(q', doomed)
  {
    var q' := EnqueueStep(q, t);
    PublishKeeps(q, t);
    forall i: nat ensures DatumAt(q', pushed, taken, i) { assert DatumAt(q, pushed, taken, i); }
    forall a | a in q'.live ensures Accounted(q', doomed, a) { assert Accounted(q, doomed, a); }
  }

  /** What the consumer's locals rely on survives the producers' steps. */
  lemma AllocateKeepsConsumer<T>(s: State<T>, t: Thread, node: Address, input: T)
    requires Inv(s) && MayBegin(s.q, t, node)
    ensures ConsumerOk(s.(q := Allocate(s.q, t, node, input)))
  {
    if s.consumer.AtData? || s.consumer.AtStore? {
      assert LinkOk(s.q, 1) && s.consumer.next == s.q.chain[1];
    }
  }

  lemma EnqueueStepKeepsConsumer<T>(s: State<T>, t: Thread)
    requires Inv(s) && t in s.q.calls
    ensures ConsumerOk(s.(q := EnqueueStep(s.q, t)))
  {
    assert CallOk(s.q, t);
  }

  lemma PrevHeadIsLive<T>(q: Queue<T>, t: Thread)
    requires QueueOk(q) && t in q.calls && q.calls[t].Swapped?
    ensures q.calls[t].prevHead in q.live
  {
    assert CallOk(q, t);
  }

  /** The invariant looks at these parts of the state, and at the flag only while no call runs. */
  lemma InvOfParts<T>(s: State<T>, r: State<T>, t: Thread)
    requires Inv(s) && t in s.q.calls && r == Step(s, Produce(t))
    requires QueueOk(r.q) && DataOk(r.q, r.pushed, r.taken) && NoLeak(r.q, Doomed(s)) && !r.fault
    requires ConsumerOk(s.(q := r.q))
    ensures Inv(r)
  {
    hide QueueOk, DataOk, NoLeak, Gap;
  }

  lemma ProduceKeeps<T>(s: State<T>, t: Thread)
    requires Inv(s) && t in s.q.calls
    ensures Inv(Step(s, Produce(t)))
  {
    var r := Step(s, Produce(t));
    EnqueueStepKeepsConsumer(s, t);
    if s.q.calls[t].Swapped? { PrevHeadIsLive(s.q, t); }
    StepIsAct(s, Produce(t));
    hide QueueOk, DataOk, NoLeak, ConsumerOk, Step;
    if s.q.calls[t].Ready? {
      ExchangeKeeps(s.q, t);
      ExchangeKeepsData(s.q, t, s.pushed, s.taken, Doomed(s));
    } else {
      PublishKeeps(s.q, t);
      PublishKeepsData(s.q, t, s.pushed, s.taken, Doomed(s));
    }
    InvOfParts(s, r, t);
  }

  lemma BeginKeeps<T>(s: State<T>, t: Thread, node: Address, input: T)
    requires Inv(s) && MayBegin(s.q, t, node)
    ensures Inv(Step(s, Begin(t, node, input)))
  {
    AllocateKeepsConsumer(s, t, node, input);
    AllocateKeeps(s.q, t, node, input);
    AllocateKeepsData(s.q, t, node, input, s.pushed, s.taken, Doomed(s));
  }

  /** A link missing at the tail means an empty queue or a producer between its exchange and its store. */
  lemma MissingTailLinkIsGap<T>(q: Queue<T>)
    requires QueueOk(q) && q.tail !in q.link
    ensures Gap(q)
  {
    if |q.chain| > 1 {
      assert LinkOk(q, 1);
      var t :| OwedBy(q, t, q.chain[0], q.chain[1]);
      assert q.calls[t].Swapped?;
    }
  }

  lemma LoadKeeps<T>(s: State<T>)
    requires Inv(s) && (s.consumer.Idle? || s.consumer.AtNext? || s.consumer.AtData?)
    ensures Inv(Step(s, Consume))
  {
    var s' := Step(s, Consume);
    if s.consumer.AtNext? && s.q.tail !in s.q.link { MissingTailLinkIsGap(s.q); }
    if s.consumer.AtData? { assert LinkOk(s.q, 1) && DatumAt(s.q, s.pushed, s.taken, 1); }
  }

  lemma MoveTailShortens<T>(q: Queue<T>, next: Address)
    requires QueueOk(q)
    ensures var c := MoveTail(q, next).chain;
      q.chain == [q.tail] + c && (forall i | 0 <= i < |c| :: c[i] == q.chain[i + 1])
  {
  }

  lemma MoveTailKeepsData<T>(q: Queue<T>, next: Address, pushed: seq<T>, taken: seq<T>)
    requires QueueOk(q) && q.tail in q.link && q.link[q.tail] == next && DataOk(q, pushed, taken) && |q.chain| > 1
    requires q.chain[1] == next
    ensures next in q.data && DataOk(MoveTail(q, next), pushed, taken + [q.data[next]])
  {
    MoveTailShortens(q, next);
    hide QueueOk;
    assert DatumAt(q, pushed, taken, 1);
    var q', taken' := MoveTail(q, next), taken + [q.data[next]];
    forall i: nat ensures DatumAt(q', pushed, taken', i) {
      assert DatumAt(q, pushed, taken, i + 1);
    }
  }

  lemma LinkedTailIsNext<T>(q: Queue<T>, next: Address)
    requires QueueOk(q) && q.tail in q.link && q.link[q.tail] == next
    ensures |q.chain| > 1 && q.chain[1] == next
  {
    assert LinkOk(q, 1);
  }

  lemma MoveTailLeaksNothing<T>(q: Queue<T>, next: Address)
    requires QueueOk(q) && q.tail in q.link && q.link[q.tail] == next && NoLeak(q, {})
    ensures NoLeak(MoveTail(q, next), {q.tail})
  {
    MoveTailKeeps(q, next);
    MoveTailShortens(q, next);
    hide QueueOk;
    var q' := MoveTail(q, next);
    forall a | a in q'.live ensures Accounted(q', {q.tail}, a) {
      assert Accounted(q, {}, a);
    }
  }

  lemma StoreTailKeeps<T>(s: State<T>)
    requires Inv(s) && s.consumer.AtStore?
    ensures Inv(Step(s, Consume))
  {
    hide Gap, MayBegin, QueueOk, DataOk, NoLeak;
    MoveTailKeeps(s.q, s.consumer.next);
    LinkedTailIsNext(s.q, s.consumer.next);
    MoveTailKeepsData(s.q, s.consumer.next, s.pushed, s.taken);
    MoveTailLeaksNothing(s.q, s.consumer.next);
    TailIsLive(s.q);
  }

  lemma TailIsLive<T>(q: Queue<T>)
    requires QueueOk(q)
    ensures q.tail in q.live
  {
  }

  lemma DeleteTailKeeps<T>(s: State<T>)
    requires Inv(s) && s.consumer.AtDelete?
    ensures Inv(Step(s, Consume))
  {
    var s' := Step(s, Consume);
    DeleteKeeps(s.q, s.consumer.tail);
    forall i: nat ensures DatumAt(s'.q, s'.pushed, s'.taken, i) { assert DatumAt(s.q, s.pushed, s.taken, i); }
    forall a | a in s'.q.live ensures Accounted(s'.q, Doomed(s'), a) { assert Accounted(s.q, Doomed(s), a); }
  }

  lemma StepKeeps<T>(s: State<T>, a: Action<T>)
    requires Inv(s)
    ensures Inv(Step(s, a))
  {
    match a
    case Begin(t, node, input) => if MayBegin(s.q, t, node) { BeginKeeps(s, t, node, input); }
    case Produce(t) =>
      if t in s.q.calls { ProduceKeeps(s, t); }
    case Consume =>
      match s.consumer
      case AtStore(_, _, _) => StoreTailKeeps(s);
      case AtDelete(_, _) => DeleteTailKeeps(s);
      case _ => LoadKeeps(s);
  }

  // ---------- all interleavings ----------

  lemma RunKeepsInv<T(!new)>(s: State<T>, schedule: seq<Action<T>>)
    requires Inv(s)
    ensures Inv(Run(Step, s, schedule))
  {
    forall x: State<T>, a | Inv(x) ensures Inv(Step(x, a)) { StepKeeps(x, a); }
    RunKeeps(Step, (x: State<T>) => Inv(x), s, schedule);
  }

  lemma AfterInv<T(!new)>(front: Address, schedule: seq<Action<T>>)
    ensures Inv(After(front, schedule))
  {
    InitialInv<T>(front);
    RunKeepsInv(Initial(front), schedule);
  }

  /** Nothing recorded as exchanged or returned is ever revised. */
  lemma ActGrows<T>(s: State<T>, a: Action<T>)
    ensures s.pushed <= Act(s, a).pushed && s.taken <= Act(s, a).taken
  {
  }

  lemma StepGrows<T>(s: State<T>, a: Action<T>)
    ensures s.pushed <= Step(s, a).pushed && s.taken <= Step(s, a).taken
  {
    hide Step, Act;
    StepIsAct(s, a);
    ActGrows(s, a);
  }

  lemma RunGrows<T(!new)>(s: State<T>, schedule: seq<Action<T>>)
    ensures s.pushed <= Run(Step, s, schedule).pushed && s.taken <= Run(Step, s, schedule).taken
  {
    hide Step;
    forall x: State<T>, a | s.pushed <= x.pushed && s.taken <= x.taken
      ensures s.pushed <= Step(x, a).pushed && s.taken <= Step(x, a).taken
    {
      StepGrows(x, a);
    }
    RunKeeps(Step, (x: State<T>) => s.pushed <= x.pushed && s.taken <= x.taken, s, schedule);
  }

  /** The data in the queue, oldest first. */
  ghost function Contents<T>(q: Queue<T>): seq<T>
    requires |q.chain| > 0 && forall i | 0 < i < |q.chain| :: q.chain[i] in q.data
  {
    seq(|q.chain| - 1, i requires 0 <= i < |q.chain| - 1 => q.data[q.chain[i + 1]])
  }

  lemma ContentsAreUntaken<T>(s: State<T>)
    requires Inv(s)
    ensures forall i | 0 < i < |s.q.chain| :: s.q.chain[i] in s.q.data
    ensures s.pushed == s.taken + Contents(s.q)
  {
    forall i | 0 < i < |s.q.chain| ensures s.q.chain[i] in s.q.data { assert DatumAt(s.q, s.pushed, s.taken, i); }
    forall i | 0 <= i < |s.q.chain| - 1 ensures Contents(s.q)[i] == s.pushed[|s.taken| + i] {
      assert DatumAt(s.q, s.pushed, s.taken, i + 1);
    }
  }

  /** FIFO in every interleaving: the data dequeued, followed by the data in the queue, is the exchange order. */
  lemma DequeueIsFifo<T(!new)>(front: Address, schedule: seq<Action<T>>)
    ensures var s := After(front, schedule);
      && |s.q.chain| > 0 && (forall i | 0 < i < |s.q.chain| :: s.q.chain[i] in s.q.data)
      && s.pushed == s.taken + Contents(s.q)
  {
    AfterInv(front, schedule);
    ContentsAreUntaken(After(front, schedule));
  }

  predicate SameEntry(a: map<Address, Address>, b: map<Address, Address>, n: Address) {
    if n in a then n in b && a[n] == b[n] else n !in b
  }

  /** Nothing else is touched: an access changes and frees no other node, but for the one it allocates, and what it does
      depends on no other link. */
  lemma OnlyTouchedNodesMatter<T>(s: State<T>, a: Action<T>, link: map<Address, Address>)
    requires forall n | n in Touched(s, a) :: SameEntry(link, s.q.link, n)
    ensures var r, other := Act(s, a), Act(s.(q := s.q.(link := link)), a);
      && (forall n | n !in Touched(s, a) && !(a.Begin? && n == a.node) ::
            SameEntry(r.q.link, s.q.link, n) && (n in r.q.live <==> n in s.q.live))
      && other == r.(q := r.q.(link := other.q.link))
  {
    OtherNodesStay(s, a);
    match a
    case Begin(_, _, _) =>
    case Produce(t) => if t in s.q.calls { EnqueueReadsNoLink(s, t, link); }
    case Consume => DequeueReadsTouched(s, link);
  }

  lemma OtherNodesStay<T>(s: State<T>, a: Action<T>)
    ensures forall n | n !in Touched(s, a) && !(a.Begin? && n == a.node) ::
      SameEntry(Act(s, a).q.link, s.q.link, n) && (n in Act(s, a).q.live <==> n in s.q.live)
  {
  }

  lemma EnqueueReadsNoLink<T>(s: State<T>, t: Thread, link: map<Address, Address>)
    requires t in s.q.calls
    ensures var r, other := Act(s, Produce(t)), Act(s.(q := s.q.(link := link)), Produce(t));
      other == r.(q := r.q.(link := other.q.link))
  {
  }

  lemma DequeueReadsTouched<T>(s: State<T>, link: map<Address, Address>)
    requires forall n | n in Touched(s, Consume) :: SameEntry(link, s.q.link, n)
    ensures var r, other := DequeueStep(s), DequeueStep(s.(q := s.q.(link := link)));
      other == r.(q := r.q.(link := other.q.link))
  {
    match s.consumer
    case AtNext(tail) => assert SameEntry(link, s.q.link, tail);
    case _ =>
  }

  /** And what Dequeue does depends on the datum of no other node. */
  lemma OnlyTouchedDataMatter<T>(s: State<T>, data: map<Address, T>)
    requires forall n | n in Touched(s, Consume) :: (n in data <==> n in s.q.data) && (n in data ==> data[n] == s.q.data[n])
    ensures var r, other := DequeueStep(s), DequeueStep(s.(q := s.q.(data := data)));
      r.q.data == s.q.data && other == r.(q := r.q.(data := data))
  {
    match s.consumer
    case AtNext(_) =>
    case AtData(_, next) => assert next in Touched(s, Consume);
    case AtStore(_, _, _) =>
    case AtDelete(_, _) =>
    case Idle =>
  }

  /** No access of any thread, in any interleaving and with any reuse of freed addresses, touches or deletes a node
      that is not allocated; and every allocated node still has an owner that will free it. */
  lemma MemoryIsSafe<T(!new)>(front: Address, schedule: seq<Action<T>>)
    ensures var s := After(front, schedule);
      && !s.fault
      && (forall a | a in s.q.live :: Accounted(s.q, Doomed(s), a))
      && forall a: Action<T> :: Touched(s, a) <= s.q.live
  {
    AfterInv(front, schedule);
    var s := After(front, schedule);
    forall a: Action<T> ensures Touched(s, a) <= s.q.live { StepKeeps(s, a); }
  }

  predicate InCall<T>(front: Address, schedule: seq<Action<T>>, k: nat) {
    k <= |schedule| && !After(front, schedule[..k]).consumer.Idle?
  }

  predicate GapAt<T>(front: Address, schedule: seq<Action<T>>, k: nat) {
    k <= |schedule| && Gap(After(front, schedule[..k]).q)
  }

  predicate FlagAt<T>(front: Address, schedule: seq<Action<T>>, k: nat) {
    k <= |schedule| && After(front, schedule[..k]).gap
  }

  /** Moment `k` lies in the last Dequeue call, which ended at moment `e`, and the queue then held nothing to take. */
  ghost predicate GapInLastCall<T>(front: Address, schedule: seq<Action<T>>, k: nat, e: nat) {
    LastCall((j: nat) => InCall(front, schedule, j), k, e, |schedule|) && GapAt(front, schedule, k)
  }

  lemma StepKeepsFlag<T>(s: State<T>, a: Action<T>)
    ensures var r := Step(s, a);
      r.gap == if s.consumer.Idle? && r.consumer.Idle? then s.gap
               else (if s.consumer.Idle? then Gap(s.q) else s.gap) || Gap(r.q)
  {
  }

  ghost predicate FlagNext<T>(front: Address, schedule: seq<Action<T>>, k: nat)
    requires k < |schedule|
  {
    var s, r := After(front, schedule[..k]), After(front, schedule[..k+1]);
    r.gap == if s.consumer.Idle? && r.consumer.Idle? then s.gap
             else (if s.consumer.Idle? then Gap(s.q) else s.gap) || Gap(r.q)
  }

  lemma FlagIsKept<T(!new)>(front: Address, schedule: seq<Action<T>>)
    requires forall k: nat | k < |schedule| :: FlagNext(front, schedule, k)
    ensures Flagged((j: nat) => InCall(front, schedule, j), (j: nat) => GapAt(front, schedule, j),
                    (j: nat) => FlagAt(front, schedule, j), |schedule|)
  {
    hide Step, Gap;
    assert schedule[..0] == [];
    forall k: nat | k < |schedule|
      ensures FlagAt(front, schedule, k + 1) ==
        if !InCall(front, schedule, k) && !InCall(front, schedule, k + 1) then FlagAt(front, schedule, k)
        else (if InCall(front, schedule, k) then FlagAt(front, schedule, k) else GapAt(front, schedule, k))
             || GapAt(front, schedule, k + 1)
    {
      assert FlagNext(front, schedule, k);
    }
  }

  lemma RefusalHasFlag<T>(s: State<T>)
    requires Inv(s) && s.consumer.Idle? && s.outcome.Refused?
    ensures s.gap
  {
  }

  /** Dequeue answers false only if, at some moment of that very call, the queue held no element
      or a producer stood between its exchange of `_head` and its link store. */
  lemma RefusalMeansGap<T(!new)>(front: Address, schedule: seq<Action<T>>)
    requires After(front, schedule).consumer.Idle? && After(front, schedule).outcome.Refused?
    ensures exists k: nat, e: nat :: GapInLastCall(front, schedule, k, e)
  {
    AfterInv(front, schedule);
    RefusalHasFlag(After(front, schedule));
    hide Step, Inv, Gap;
    assert schedule[..|schedule|] == schedule;
    forall k: nat | k < |schedule|
      ensures FlagNext(front, schedule, k)
    {
      StepKeepsFlag(After(front, schedule[..k]), schedule[k]);
      assert schedule[..k+1] == schedule[..k] + [schedule[k]];
      RunOne(Step, Initial(front), schedule[..k], schedule[k]);
    }
    assert schedule[..0] == [];
    FlagIsKept(front, schedule);
    FlagMeansMoment((j: nat) => InCall(front, schedule, j), (j: nat) => GapAt(front, schedule, j),
                    (j: nat) => FlagAt(front, schedule, j), |schedule|);
    var k: nat, e: nat :| k <= |schedule| && LastCall((j: nat) => InCall(front, schedule, j), k, e, |schedule|)
                          && GapAt(front, schedule, k);
    assert GapInLastCall(front, schedule, k, e);
  }

  // ---------- Dequeue and the destructor with no producer in flight ----------

  ghost predicate Quiet<T>(s: State<T>) { Inv(s) && s.q.calls == map[] }

  /** The consumer alone, from one Dequeue call to its return. */
  ghost function Dequeue<T>(s: State<T>): State<T>
    requires Quiet(s) && s.consumer.Idle?
  {
    Repeat(Step, s, Consume, if s.q.tail in s.q.link then 5 else 2)
  }

  lemma StepAlone<T>(s: State<T>)
    requires Quiet(s)
    ensures Quiet(Step(s, Consume)) && Step(s, Consume).pushed == s.pushed
  {
    StepKeeps(s, Consume);
  }

  lemma {:induction false} StaysQuiet<T>(s: State<T>, n: nat)
    requires Quiet(s)
    ensures Quiet(Repeat(Step, s, Consume, n)) && Repeat(Step, s, Consume, n).pushed == s.pushed
    decreases n
  {
    if n > 0 {
      StepAlone(s);
      hide Step, Quiet;
      StaysQuiet(Step(s, Consume), n - 1);
    }
  }

  /** The five accesses of a call that finds a linked node. */
  lemma FindsNode<T>(s: State<T>)
    requires s.consumer.Idle? && s.q.tail in s.q.link && s.q.link[s.q.tail] in s.q.data
    ensures var d := s.q.data[s.q.link[s.q.tail]];
      var s1 := Step(s, Consume);
      var s2 := Step(s1, Consume);
      var s3 := Step(s2, Consume);
      var s4 := Step(s3, Consume);
      var s5 := Step(s4, Consume);
      && s1.consumer.AtNext? && s2.consumer.AtData? && s3.consumer.AtStore? && s4.consumer.AtDelete? && s4.consumer.data == d
      && Repeat(Step, s, Consume, 5) == s5
      && s5.consumer.Idle? && s5.outcome == Returned(d) && s5.taken == s.taken + [d]
  {
    hide Step;
    var s1 := Step(s, Consume);
    var s2 := Step(s1, Consume);
    var s3 := Step(s2, Consume);
    var s4 := Step(s3, Consume);
    StepIsAct(s, Consume);
    StepIsAct(s1, Consume);
    StepIsAct(s2, Consume);
    StepIsAct(s3, Consume);
    StepIsAct(s4, Consume);
    RepeatFive(Step, s, Consume);
  }

  /** The two accesses of a call that finds no link. */
  lemma FindsNoNode<T>(s: State<T>)
    requires s.consumer.Idle? && s.q.tail !in s.q.link
    ensures var s1 := Step(s, Consume);
      var s2 := Step(s1, Consume);
      && s1.consumer.AtNext? && Repeat(Step, s, Consume, 2) == s2
      && s2.consumer.Idle? && s2.outcome == Refused && s2.taken == s.taken
  {
    hide Step;
    StepIsAct(s, Consume);
    StepIsAct(Step(s, Consume), Consume);
    RepeatTwo(Step, s, Consume);
  }

  /** Outside a step that a producer owes, a linked tail leads to a node with its datum. */
  lemma LinkedTailHasDatum<T>(s: State<T>)
    requires Inv(s) && s.q.tail in s.q.link
    ensures s.q.link[s.q.tail] in s.q.data && |s.taken| < |s.pushed|
         && s.q.data[s.q.link[s.q.tail]] == s.pushed[|s.taken|]
  {
    assert LinkOk(s.q, 1) && DatumAt(s.q, s.pushed, s.taken, 1);
  }

  lemma DequeueAlone<T>(s: State<T>)
    requires Quiet(s) && s.consumer.Idle?
    ensures var r := Dequeue(s);
      && Quiet(r) && r.consumer.Idle? && r.pushed == s.pushed
      && (r.outcome.Returned? <==> |s.taken| < |s.pushed|)
      && (r.outcome.Returned? ==> r.taken == s.taken + [s.pushed[|s.taken|]] && r.outcome.data == s.pushed[|s.taken|])
      && (!r.outcome.Returned? ==> r.outcome.Refused? && r.taken == s.taken)
  {
    if s.q.tail in s.q.link {
      LinkedTailHasDatum(s);
      hide Step;
      FindsNode(s);
      StaysQuiet(s, 5);
    } else {
      MissingTailLinkIsGap(s.q);
      hide Step;
      FindsNoNode(s);
      StaysQuiet(s, 2);
    }
  }

  /** The destructor: Dequeue until it answers false, then delete the node that is left. */
  ghost function Destroy<T>(s: State<T>): State<T>
    requires Quiet(s) && s.consumer.Idle?
    decreases |s.pushed| - |s.taken|
  {
    DequeueAlone(s);
    var r := Dequeue(s);
    if r.outcome.Returned? then Destroy(r)
    else r.(q := Delete(r.q, r.q.head), fault := r.fault || r.q.head !in r.q.live)
  }

  /** Destroying a quiescent queue hands out every datum left, in order, and frees every node:
      none is left allocated, and no access on the way touched or freed a dead one. */
  lemma {:induction false} DestroyFreesAll<T>(s: State<T>)
    requires Quiet(s) && s.consumer.Idle?
    ensures var r := Destroy(s); r.taken == s.pushed == r.pushed && r.q.live == {} && !r.fault
    decreases |s.pushed| - |s.taken|
  {
    DequeueAlone(s);
    var r := Dequeue(s);
    if r.outcome.Returned? {
      DestroyFreesAll(r);
    } else {
      assert |r.q.chain| == 1;
      forall a | a in r.q.live ensures a == r.q.head { assert Accounted(r.q, Doomed(r), a); }
    }
  }
}
