/**
 The code of the intrusive queue over its own fields, with the other threads running between
 any two of its atomic accesses. Each access is one step of the machine in `IntrusiveQueue`,
 so every statement about runs of that machine is a statement about this code.
 */
module IntrusiveQueueCode {
  import opened IntrusiveQueue
  import opened Machines

  datatype Link = Null | To(node: Node)

  /** What the other threads do at each point where the running thread may be suspended. */
  type Interference = nat -> seq<Action>

  /** The others never act on behalf of thread `self`. */
  ghost predicate LeavesAlone(env: Interference, self: Thread) {
    forall k: nat, a: Action | a in env(k) :: !ActsFor(a, self)
  }

  predicate ActsFor(a: Action, self: Thread) {
    match a
    case Begin(t, _) => t == self
    case Produce(t) => t == self
    case Consume => self == CONSUMER
  }

  ghost predicate SameLocals(s: State, r: State, self: Thread) {
    && (self in s.q.calls <==> self in r.q.calls)
    && (self in s.q.calls ==> r.q.calls[self] == s.q.calls[self])
    && (self == CONSUMER ==> r.consumer == s.consumer && r.outcome == s.outcome && r.taken == s.taken)
  }

  lemma ConsumerKeepsMyLocals(s: State, self: Thread)
    requires self != CONSUMER
    ensures SameLocals(s, DequeueStep(s), self)
  {
    match s.consumer
    case AtHeadCheck(_) =>
    case AtEnqueue(_) =>
    case _ => assert DequeueStep(s).q.calls == s.q.calls;
  }

  lemma OthersStepKeepsMyLocals(s: State, a: Action, self: Thread)
    requires !ActsFor(a, self)
    ensures SameLocals(s, Step(s, a), self)
  {
    if a.Consume? { ConsumerKeepsMyLocals(s, self); }
    assert SameLocals(s, Act(s, a), self);
  }

  /** The locals of thread `self` survive whatever the others do. */
  lemma {:induction false} OthersKeepMyLocals(s: State, schedule: seq<Action>, self: Thread)
    requires forall a | a in schedule :: !ActsFor(a, self)
    ensures SameLocals(s, Run(Step, s, schedule), self)
    decreases |schedule|
  {
    if schedule != [] {
      assert schedule[0] in schedule;
      OthersStepKeepsMyLocals(s, schedule[0], self);
      OthersKeepMyLocals(Step(s, schedule[0]), schedule[1..], self);
    }
  }

  class MPSCQueueIntrusive {
    var head: Node
    var tail: Node
    var link: map<Node, Node>
    // The locals of the threads inside Enqueue and Dequeue, and the history of the run.
    var calls: map<Thread, EnqueuePc>
    var consumer: ConsumerPc
    var chain: seq<Node>
    var outcome: Outcome
    var pushed: seq<Node>
    var taken: seq<Node>
    var gap: bool
    ghost var trace: seq<Action>

    function Model(): State
      reads this
    {
      State(Queue(head, tail, link, calls, chain), consumer, outcome, pushed, taken, gap)
    }

    /** The fields are those of the machine after the atomic accesses made so far. */
    ghost predicate Valid()
      reads this
    {
      Model() == After(trace)
    }

    constructor ()
      ensures Valid() && Model() == Initial && trace == []
    {
      head, tail, link := DUMMY, DUMMY, map[];
      calls, consumer, chain, outcome := map[], Idle, [DUMMY], NoCall;
      pushed, taken, gap, trace := [], [], false, [];
    }

    /** The state after one more access, as the machine has it. */
    lemma NextState(a: Action)
      requires Valid()
      ensures After(trace + [a]) == Step(Model(), a)
    {
      RunOne(Step, Initial, trace, a);
    }

    /** The history that goes with an access just made, which the machine says leads to `after`. */
    method Record(after: State, a: Action)
      requires After(trace + [a]) == after
      requires head == after.q.head && tail == after.q.tail && link == after.q.link && calls == after.q.calls
      modifies this`consumer, this`chain, this`outcome, this`pushed, this`taken, this`gap, this`trace
      ensures Valid() && Model() == after && trace == old(trace) + [a]
    {
      consumer, chain, outcome, pushed, taken, gap :=
        after.consumer, after.q.chain, after.outcome, after.pushed, after.taken, after.gap;
      trace := trace + [a];
    }

    lemma Invariant()
      requires Valid()
      ensures Inv(Model())
    {
      AfterInv(trace);
    }

    // ---------- the atomic accesses of Enqueue ----------

    method EnqueueAccess(t: Thread)
      requires t in calls
      modifies this`head, this`link, this`calls
      ensures Queue(head, tail, link, calls, EnqueueStep(old(Model()).q, t).chain) == EnqueueStep(old(Model()).q, t)
    {
      match calls[t]
      case Ready(input) =>
        link := link - {input};
        calls := calls[t := Linked(input)];
      case Linked(input) =>
        var prevHead := head;
        head := input;
        calls := calls[t := Swapped(input, prevHead)];
      case Swapped(input, prevHead) =>
        link := link[prevHead := input];
        calls := calls - {t};
    }

    method ProducerAccess(t: Thread)
      requires Valid() && t != CONSUMER && t in calls
      modifies this
      ensures Valid() && trace == old(trace) + [Produce(t)]
      ensures pushed == if old(calls[t]).Linked? && old(calls[t]).input != DUMMY
                        then old(pushed) + [old(calls[t]).input] else old(pushed)
      ensures match old(calls[t])
              case Ready(x) => t in calls && calls[t] == Linked(x)
              case Linked(x) => t in calls && calls[t].Swapped? && calls[t].input == x
              case Swapped(_, _) => t !in calls
    {
      var after := Step(Model(), Produce(t));
      NextState(Produce(t));
      EnqueueAccess(t);
      Record(after, Produce(t));
    }

    method BeginCall(t: Thread, input: Node)
      requires Valid()
      modifies this
      ensures Valid() && trace == old(trace) + [Begin(t, input)]
      ensures pushed == old(pushed)
      ensures old(MayEnqueue(Model().q, t, input)) ==> t in calls && calls[t] == Ready(input)
    {
      var after := Step(Model(), Begin(t, input));
      NextState(Begin(t, input));
      if MayEnqueue(Model().q, t, input) { calls := calls[t := Ready(input)]; }
      Record(after, Begin(t, input));
    }

    // ---------- the atomic accesses of Dequeue ----------

    method LoadTail() returns (t: Node)
      requires Valid() && consumer.Idle?
      modifies this
      ensures Valid() && trace == old(trace) + [Consume]
      ensures t == old(tail) && consumer == AtNext(t) && taken == old(taken)
    {
      t := tail;
      NextState(Consume);
      Record(Step(Model(), Consume), Consume);
    }

    /** The link of `node`, and where that sends the consumer. */
    method LoadNext(node: Node) returns (next: Link)
      requires Valid() && (consumer == AtNext(node) || consumer == AtSecondNext(node) || consumer == AtRelink(node))
      modifies this
      ensures Valid() && trace == old(trace) + [Consume] && taken == old(taken)
      ensures next == if node in old(link) then To(old(link)[node]) else Null
      ensures
        if node == DUMMY && old(consumer).AtNext? then
          if next == Null then consumer == Idle && outcome == Refused && gap else consumer == AtSkip(next.node)
        else if next != Null then consumer == AtAdvance(node, next.node)
        else if old(consumer).AtRelink? then consumer == Idle && outcome == Refused && gap
        else consumer == AtHeadCheck(node)
    {
      next := if node in link then To(link[node]) else Null;
      NextState(Consume);
      Record(Step(Model(), Consume), Consume);
      Invariant();
    }

    method StoreTail(next: Node)
      requires Valid() && (consumer == AtSkip(next) || (consumer.AtAdvance? && consumer.next == next))
      modifies this
      ensures Valid() && trace == old(trace) + [Consume] && tail == next
      ensures old(consumer).AtSkip? ==> consumer == AtSecondNext(next) && taken == old(taken)
      ensures old(consumer).AtAdvance? ==>
        && consumer == Idle && outcome == Returned(old(consumer).tail)
        && taken == old(taken) + [old(consumer).tail] && taken <= pushed
    {
      var after := Step(Model(), Consume);
      NextState(Consume);
      tail := next;
      Record(after, Consume);
      Invariant();
    }

    method LoadHead() returns (h: Node)
      requires Valid() && consumer.AtHeadCheck?
      modifies this
      ensures Valid() && trace == old(trace) + [Consume] && taken == old(taken) && h == old(head)
      ensures if h == old(consumer).tail
              then consumer == AtEnqueue(h) && CONSUMER in calls && calls[CONSUMER] == Ready(DUMMY)
              else consumer == Idle && outcome == Refused && gap
    {
      var after := Step(Model(), Consume);
      NextState(Consume);
      h := head;
      if h == consumer.tail { calls := calls[CONSUMER := Ready(DUMMY)]; }
      Record(after, Consume);
      Invariant();
    }

    method DummyAccess()
      requires Valid() && consumer.AtEnqueue? && CONSUMER in calls
      modifies this
      ensures Valid() && trace == old(trace) + [Consume] && taken == old(taken)
      ensures match old(calls[CONSUMER])
              case Ready(_) => CONSUMER in calls && calls[CONSUMER].Linked? && consumer == old(consumer)
              case Linked(_) => CONSUMER in calls && calls[CONSUMER].Swapped? && consumer == old(consumer)
              case Swapped(_, _) => consumer == AtRelink(old(consumer).tail)
    {
      var after := Step(Model(), Consume);
      NextState(Consume);
      EnqueueAccess(CONSUMER);
      Record(after, Consume);
    }

    method ConsumerAccess()
      requires Valid()
      modifies this
      ensures Valid() && trace == old(trace) + [Consume]
    {
      Invariant();
      match consumer
      case Idle => var _ := LoadTail();
      case AtNext(node) => var _ := LoadNext(node);
      case AtSecondNext(node) => var _ := LoadNext(node);
      case AtRelink(node) => var _ := LoadNext(node);
      case AtSkip(next) => StoreTail(next);
      case AtAdvance(_, next) => StoreTail(next);
      case AtHeadCheck(_) => var _ := LoadHead();
      case AtEnqueue(_) => DummyAccess();
    }

    // ---------- the operations, under interference ----------

    /** A thread outside Enqueue has no access to make. */
    method Skip(t: Thread)
      requires Valid() && Act(Model(), Produce(t)) == Model()
      modifies this
      ensures Valid() && trace == old(trace) + [Produce(t)]
    {
      NextState(Produce(t));
      Record(Step(Model(), Produce(t)), Produce(t));
    }

    /** The other threads run. */
    method Interfere(schedule: seq<Action>)
      requires Valid()
      modifies this
      ensures Valid() && trace == old(trace) + schedule
    {
      hide After, IntrusiveQueue.Step;
      for i := 0 to |schedule|
        invariant Valid() && trace == old(trace) + schedule[..i]
      {
        match schedule[i]
        case Begin(t, input) => BeginCall(t, input);
        case Produce(t) =>
          if t != CONSUMER && t in calls { ProducerAccess(t); } else { Skip(t); }
        case Consume => ConsumerAccess();
      }
    }

    /** The other threads run while `self` is suspended. */
    method Suspend(self: Thread, schedule: seq<Action>)
      requires Valid() && forall a | a in schedule :: !ActsFor(a, self)
      modifies this
      ensures Valid() && trace == old(trace) + schedule && old(pushed) <= pushed
      ensures self in calls <==> self in old(calls)
      ensures self in calls ==> calls[self] == old(calls)[self]
      ensures self == CONSUMER ==> consumer == old(consumer) && outcome == old(outcome) && taken == old(taken)
    {
      OthersKeepMyLocals(Model(), schedule, self);
      RunGrows(Model(), schedule);
      RunAppend(Step, Initial, trace, schedule);
      Interfere(schedule);
    }

    method Enqueue(t: Thread, input: Node, env: Interference)
      requires Valid() && MayEnqueue(Model().q, t, input) && LeavesAlone(env, t)
      modifies this
      ensures Valid() && t !in calls
      ensures trace == old(trace) + [Begin(t, input)] + env(0) + [Produce(t)] + env(1) + [Produce(t)]
                       + env(2) + [Produce(t)]
      ensures exists k | |old(pushed)| <= k < |pushed| :: pushed[k] == input
    {
      BeginCall(t, input);
      Suspend(t, env(0));
      ProducerAccess(t);
      Suspend(t, env(1));
      ghost var k := |pushed|;
      ProducerAccess(t);
      assert pushed[k] == input;
      Suspend(t, env(2));
      ProducerAccess(t);
    }

    /** The consumer's own Enqueue of the dummy. */
    method EnqueueDummy(env: Interference)
      requires Valid() && consumer.AtEnqueue? && CONSUMER in calls && calls[CONSUMER].Ready?
      requires LeavesAlone(env, CONSUMER)
      modifies this
      ensures Valid() && old(trace) <= trace && taken == old(taken) && consumer == AtRelink(old(consumer).tail)
    {
      Suspend(CONSUMER, env(6));
      DummyAccess();
      Suspend(CONSUMER, env(7));
      DummyAccess();
      Suspend(CONSUMER, env(8));
      DummyAccess();
    }

    /** Dequeue past the dummy at the tail. */
    method SkipDummy(node: Node, env: Interference) returns (next: Link)
      requires Valid() && consumer == AtSkip(node) && LeavesAlone(env, CONSUMER)
      modifies this
      ensures Valid() && old(trace) <= trace && taken == old(taken)
      ensures consumer == if next == Null then AtHeadCheck(node) else AtAdvance(node, next.node)
    {
      Suspend(CONSUMER, env(2));
      StoreTail(node);
      Suspend(CONSUMER, env(3));
      next := LoadNext(node);
    }

    /** The end of Dequeue, from the load of `_head` on: no link leads out of `tail` yet. */
    method DequeueLast(tail: Node, env: Interference) returns (ok: bool, result: Node)
      requires Valid() && consumer == AtHeadCheck(tail) && LeavesAlone(env, CONSUMER)
      modifies this
      ensures Valid() && consumer.Idle? && old(trace) <= trace
      ensures ok ==> outcome == Returned(result) && taken == old(taken) + [result] && taken <= pushed
      ensures !ok ==> outcome == Refused && taken == old(taken) && gap
    {
      hide Valid, Model;
      Suspend(CONSUMER, env(5));
      var head := LoadHead();
      if tail != head { return false, tail; }
      EnqueueDummy(env);
      Suspend(CONSUMER, env(9));
      var next := LoadNext(tail);
      if next != Null {
        Suspend(CONSUMER, env(10));
        StoreTail(next.node);
        return true, tail;
      }
      return false, tail;
    }

    method Dequeue(env: Interference) returns (ok: bool, result: Node)
      requires Valid() && consumer.Idle? && LeavesAlone(env, CONSUMER)
      modifies this
      ensures Valid() && consumer.Idle? && old(trace) <= trace
      ensures ok ==> outcome == Returned(result) && taken == old(taken) + [result] && taken <= pushed
      ensures !ok ==> outcome == Refused && taken == old(taken) && gap
    {
      hide Valid, Model;
      Suspend(CONSUMER, env(0));
      var tail := LoadTail();
      Suspend(CONSUMER, env(1));
      var next := LoadNext(tail);
      if tail == DUMMY {
        if next == Null { return false, tail; }
        tail := next.node;
        next := SkipDummy(tail, env);
      }
      if next != Null {
        Suspend(CONSUMER, env(4));
        StoreTail(next.node);
        return true, tail;
      }
      ok, result := DequeueLast(tail, env);
    }
  }
}
