/**
 The code of the allocating queue over its own fields, with the other threads running between
 any two of its atomic accesses. Each access is one step of the machine in `NonIntrusiveQueue`.
 */
module NonIntrusiveQueueCode {
  import opened NonIntrusiveQueue
  import opened Machines

  datatype Link = Null | To(node: Address)

  /** The environment of an Enqueue call by `thread`, or of a Dequeue call when `thread` is `Nobody`. */
  datatype Self = Producer(thread: Thread) | Consumer

  predicate ActsFor<T>(a: Action<T>, self: Self) {
    match a
    case Begin(t, _, _) => self == Producer(t)
    case Produce(t) => self == Producer(t)
    case Consume => self == Consumer
  }

  ghost predicate Spares<T(!new)>(schedule: seq<Action<T>>, self: Self) {
    forall a | a in schedule :: !ActsFor(a, self)
  }

  /** The node a thread has allocated and not yet published keeps its datum. */
  ghost predicate SameDatum<T>(before: map<Address, T>, after: map<Address, T>, call: EnqueuePc) {
    call.Ready? && call.node in before ==> call.node in after && after[call.node] == before[call.node]
  }

  ghost predicate SameLocals<T>(s: State<T>, r: State<T>, self: Self) {
    match self
    case Producer(t) =>
      && (t in s.q.calls <==> t in r.q.calls)
      && (t in s.q.calls ==> r.q.calls[t] == s.q.calls[t] && SameDatum(s.q.data, r.q.data, s.q.calls[t]))
    case Consumer => r.consumer == s.consumer && r.outcome == s.outcome && r.taken == s.taken
  }

  lemma OwnNodeIsLive<T>(s: State<T>, t: Thread)
    requires Inv(s) && t in s.q.calls && s.q.calls[t].Ready?
    ensures s.q.calls[t].node in s.q.live
  {
    assert CallOk(s.q, t);
  }

  lemma BeginKeepsMyLocals<T>(s: State<T>, t: Thread, node: Address, input: T, self: Self)
    requires Inv(s) && self != Producer(t)
    ensures SameLocals(s, Act(s, Begin(t, node, input)), self)
  {
    if self.Producer? && self.thread in s.q.calls && s.q.calls[self.thread].Ready? { OwnNodeIsLive(s, self.thread); }
  }

  lemma ProduceKeepsMyLocals<T>(s: State<T>, t: Thread, self: Self)
    requires self != Producer(t)
    ensures SameLocals(s, Act(s, Produce(t)), self)
  {
  }

  lemma ConsumeKeepsMyLocals<T>(s: State<T>, self: Self)
    requires self != Consumer
    ensures SameLocals(s, Act(s, Consume), self)
  {
  }

  lemma OthersStepKeepsMyLocals<T>(s: State<T>, a: Action<T>, self: Self)
    requires Inv(s) && !ActsFor(a, self)
    ensures SameLocals(s, Step(s, a), self)
  {
    hide Inv, Step, Act;
    StepIsAct(s, a);
    match a
    case Begin(t, node, input) => BeginKeepsMyLocals(s, t, node, input, self);
    case Produce(t) => ProduceKeepsMyLocals(s, t, self);
    case Consume => ConsumeKeepsMyLocals(s, self);
  }

  /** The locals of a suspended thread survive whatever the others do. */
  lemma {:induction false} OthersKeepMyLocals<T(!new)>(s: State<T>, schedule: seq<Action<T>>, self: Self)
    requires Inv(s) && Spares(schedule, self)
    ensures SameLocals(s, Run(Step, s, schedule), self)
    decreases |schedule|
  {
    if schedule != [] {
      assert schedule[0] in schedule;
      OthersStepKeepsMyLocals(s, schedule[0], self);
      StepKeeps(s, schedule[0]);
      OthersKeepMyLocals(Step(s, schedule[0]), schedule[1..], self);
    }
  }

  class MPSCQueueNonIntrusive<T(!new)> {
    const front: Address
    var head: Address
    var tail: Address
    var link: map<Address, Address>
    var data: map<Address, T>
    var live: set<Address>
    // The locals of the threads inside Enqueue and Dequeue, and the history of the run.
    var calls: map<Thread, EnqueuePc>
    var consumer: ConsumerPc<T>
    var chain: seq<Address>
    var outcome: Outcome<T>
    var pushed: seq<T>
    var taken: seq<T>
    var gap: bool
    var fault: bool
    ghost var trace: seq<Action<T>>

    function Model(): State<T>
      reads this
    {
      State(Queue(head, tail, link, data, live, calls, chain), consumer, outcome, pushed, taken, gap, fault)
    }

    /** The fields are those of the machine after the atomic accesses made so far. */
    ghost predicate Valid()
      reads this
    {
      Model() == After(front, trace)
    }

    constructor (node: Address)
      ensures Valid() && Model() == Initial(node) && trace == []
    {
      front, head, tail, link, data, live := node, node, node, map[], map[], {node};
      calls, consumer, chain, outcome := map[], Idle, [node], NoCall;
      pushed, taken, gap, fault, trace := [], [], false, false, [];
    }

    lemma Invariant()
      requires Valid()
      ensures Inv(Model())
    {
      AfterInv(front, trace);
    }

    /** The state after one more access, as the machine has it. */
    lemma NextState(a: Action<T>)
      requires Valid()
      ensures After(front, trace + [a]) == Step(Model(), a)
    {
      RunOne(Step, Initial(front), trace, a);
    }

    /** The locals and the history of the run, as the machine has them. */
    method SetLocals(after: State<T>)
      requires head == after.q.head && tail == after.q.tail && link == after.q.link && calls == after.q.calls
      requires data == after.q.data && live == after.q.live
      modifies this`consumer, this`chain, this`outcome, this`pushed, this`taken, this`gap, this`fault
      ensures Model() == after
    {
      consumer, chain, outcome, pushed, taken, gap, fault :=
        after.consumer, after.q.chain, after.outcome, after.pushed, after.taken, after.gap, after.fault;
    }

    /** What goes with an access just made, which the machine says leads to `after`. */
    method Record(after: State<T>, a: Action<T>)
      requires After(front, trace + [a]) == after
      requires head == after.q.head && tail == after.q.tail && link == after.q.link && calls == after.q.calls
      requires data == after.q.data && live == after.q.live
      modifies this`consumer, this`chain, this`outcome, this`pushed, this`taken, this`gap, this`fault, this`trace
      ensures Valid() && Model() == after && trace == old(trace) + [a]
    {
      hide After, NonIntrusiveQueue.Step;
      SetLocals(after);
      trace := trace + [a];
    }

    // ---------- the atomic accesses of Enqueue ----------

    /** `new Node(input)`, at an address the allocator finds free. */
    method NewNode(t: Thread, node: Address, input: T)
      requires Valid()
      modifies this
      ensures Valid() && trace == old(trace) + [Begin(t, node, input)] && pushed == old(pushed)
      ensures old(MayBegin(Model().q, t, node)) ==>
        t in calls && calls[t] == Ready(node) && node in data && data[node] == input
    {
      var after := Step(Model(), Begin(t, node, input));
      NextState(Begin(t, node, input));
      if MayBegin(Model().q, t, node) {
        live, data, link := live + {node}, data[node := input], link - {node};
        calls := calls[t := Ready(node)];
      }
      Record(after, Begin(t, node, input));
    }

    method ExchangeHead(t: Thread)
      requires Valid() && t in calls && calls[t].Ready?
      modifies this
      ensures Valid() && trace == old(trace) + [Produce(t)]
      ensures t in calls && calls[t].Swapped?
      ensures old(calls[t].node in data) && pushed == old(pushed) + [old(data[calls[t].node])]
    {
      var after := Step(Model(), Produce(t));
      NextState(Produce(t));
      Invariant();
      assert CallOk(Model().q, t);
      var node, prevHead := calls[t].node, head;
      head := node;
      calls := calls[t := Swapped(node, prevHead)];
      Record(after, Produce(t));
    }

    method StoreLink(t: Thread)
      requires Valid() && t in calls && calls[t].Swapped?
      modifies this
      ensures Valid() && trace == old(trace) + [Produce(t)] && t !in calls && pushed == old(pushed)
    {
      var after := Step(Model(), Produce(t));
      NextState(Produce(t));
      link := link[calls[t].prevHead := calls[t].node];
      calls := calls - {t};
      Record(after, Produce(t));
    }

    // ---------- the atomic accesses of Dequeue ----------

    method LoadTail() returns (t: Address)
      requires Valid() && consumer.Idle?
      modifies this
      ensures Valid() && trace == old(trace) + [Consume] && taken == old(taken)
      ensures t == old(tail) && consumer == AtNext(t)
    {
      t := tail;
      NextState(Consume);
      Record(Step(Model(), Consume), Consume);
    }

    method LoadNext(node: Address) returns (next: Link)
      requires Valid() && consumer == AtNext(node)
      modifies this
      ensures Valid() && trace == old(trace) + [Consume] && taken == old(taken)
      ensures if next == Null then consumer == Idle && outcome == Refused && gap else consumer == AtData(node, next.node)
    {
      next := if node in link then To(link[node]) else Null;
      NextState(Consume);
      Record(Step(Model(), Consume), Consume);
      Invariant();
    }

    method LoadData(node: Address) returns (d: T)
      requires Valid() && consumer.AtData? && consumer.next == node
      modifies this
      ensures Valid() && trace == old(trace) + [Consume] && taken == old(taken)
      ensures consumer == AtStore(old(consumer).tail, node, d)
    {
      Invariant();
      assert LinkOk(Model().q, 1) && DatumAt(Model().q, pushed, taken, 1);
      d := data[node];
      NextState(Consume);
      Record(Step(Model(), Consume), Consume);
    }

    method StoreTail(next: Address)
      requires Valid() && consumer.AtStore? && consumer.next == next
      modifies this
      ensures Valid() && trace == old(trace) + [Consume] && taken == old(taken) + [old(consumer).data]
      ensures consumer == AtDelete(old(consumer).tail, old(consumer).data)
    {
      var after := Step(Model(), Consume);
      NextState(Consume);
      tail := next;
      Record(after, Consume);
    }

    method DeleteNode(node: Address)
      requires Valid() && consumer.AtDelete? && consumer.tail == node
      modifies this
      ensures Valid() && trace == old(trace) + [Consume] && taken == old(taken)
      ensures consumer == Idle && outcome == Returned(old(consumer).data) && taken <= pushed && !fault
    {
      var after := Step(Model(), Consume);
      NextState(Consume);
      live := live - {node};
      Record(after, Consume);
      Invariant();
    }

    // ---------- the operations, under interference ----------

    method ConsumerAccess()
      requires Valid()
      modifies this
      ensures Valid() && trace == old(trace) + [Consume]
    {
      match consumer
      case Idle => var _ := LoadTail();
      case AtNext(node) => var _ := LoadNext(node);
      case AtData(_, next) => var _ := LoadData(next);
      case AtStore(_, next, _) => StoreTail(next);
      case AtDelete(tail, _) => DeleteNode(tail);
    }

    /** A thread outside Enqueue has no access to make. */
    method Skip(t: Thread)
      requires Valid() && Act(Model(), Produce(t)) == Model()
      modifies this
      ensures Valid() && trace == old(trace) + [Produce(t)]
    {
      NextState(Produce(t));
      Record(Step(Model(), Produce(t)), Produce(t));
    }

    /** The other threads run. */
    method Interfere(schedule: seq<Action<T>>)
      requires Valid()
      modifies this
      ensures Valid() && trace == old(trace) + schedule
    {
      hide After;
      for i := 0 to |schedule|
        invariant Valid() && trace == old(trace) + schedule[..i]
      {
        match schedule[i]
        case Begin(t, node, input) => NewNode(t, node, input);
        case Produce(t) =>
          if t !in calls { Skip(t); }
          else if calls[t].Ready? { ExchangeHead(t); }
          else { StoreLink(t); }
        case Consume => ConsumerAccess();
      }
    }

    /** The other threads run while `self` is suspended. */
    method Suspend(self: Self, schedule: seq<Action<T>>)
      requires Valid() && Spares(schedule, self)
      modifies this
      ensures Valid() && trace == old(trace) + schedule && old(pushed) <= pushed
      ensures self.Consumer? ==> consumer == old(consumer) && outcome == old(outcome) && taken == old(taken)
      ensures self.Producer? ==>
        && (self.thread in calls <==> self.thread in old(calls))
        && (self.thread in calls ==>
              calls[self.thread] == old(calls)[self.thread] && SameDatum(old(data), data, calls[self.thread]))
    {
      Invariant();
      OthersKeepMyLocals(Model(), schedule, self);
      RunGrows(Model(), schedule);
      RunAppend(Step, Initial(front), trace, schedule);
      Interfere(schedule);
    }

    method Enqueue(t: Thread, node: Address, input: T, env: nat -> seq<Action<T>>)
      requires Valid() && MayBegin(Model().q, t, node)
      requires forall k :: Spares(env(k), Producer(t))
      modifies this
      ensures Valid() && t !in calls
      ensures trace == old(trace) + [Begin(t, node, input)] + env(0) + [Produce(t)] + env(1) + [Produce(t)]
      ensures exists k | |old(pushed)| <= k < |pushed| :: pushed[k] == input
    {
      NewNode(t, node, input);
      Suspend(Producer(t), env(0));
      ghost var k := |pushed|;
      ExchangeHead(t);
      assert pushed[k] == input;
      Suspend(Producer(t), env(1));
      StoreLink(t);
    }

    method Dequeue(env: nat -> seq<Action<T>>) returns (ok: bool, result: Outcome<T>)
      requires Valid() && consumer.Idle? && forall k :: Spares(env(k), Consumer)
      modifies this
      ensures Valid() && consumer.Idle? && old(trace) <= trace && result == outcome
      ensures ok ==> outcome.Returned? && taken == old(taken) + [outcome.data] && taken <= pushed
      ensures !ok ==> outcome == Refused && taken == old(taken) && gap
    {
      hide Valid, Model, Spares;
      Suspend(Consumer, env(0));
      var tail := LoadTail();
      Suspend(Consumer, env(1));
      var next := LoadNext(tail);
      if next == Null { return false, outcome; }
      Suspend(Consumer, env(2));
      var d := LoadData(next.node);
      Suspend(Consumer, env(3));
      StoreTail(next.node);
      Suspend(Consumer, env(4));
      DeleteNode(tail);
      return true, Returned(d);
    }
  }
}
