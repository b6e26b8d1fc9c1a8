/**
 The receiving thread and the thread that processes received messages, joined by the allocating queue,
 with every interleaving of their steps.
 */
module Delivery {
  import opened Machines
  import opened Modular
  import opened Parsers
  import opened Sequences
  import opened Wire
  import opened Wrappers
  import Q = NonIntrusiveQueue

  // The receiving thread is the only producer.
  const RECEIVER: Q.Thread := 0

  datatype Hand = Empty | Holding(message: Frame)

  /** `parser` and `parsing` belong to the receiving thread: the header it has saved, if any, with the bytes in its receive
      buffer, and whether it is inside its parse loop. `hand` belongs to the processing thread: the message it is about to
      pass to the callback. `received`, `emitted` and `delivered` record all bytes received, all messages enqueued, all
      callbacks made. */
  datatype State = State(
    queue: Q.State<Frame>, parser: Parser, parsing: bool, hand: Hand,
    received: seq<Byte>, emitted: seq<Frame>, delivered: seq<Frame>)

  datatype Action =
    | Arrive(bytes: seq<Byte>)        // a read completes and its bytes enter the receive buffer
    | ParseRound(node: Q.Address)     // a whole message starts its Enqueue, in a node allocated there, or the loop ends
    | EnqueueStep                     // the next access of that Enqueue
    | ProcessStep                     // the next access of Dequeue, or the callback

  function Initial(front: Q.Address): State {
    State(Q.Initial(front), Parser([], []), false, Empty, [], [], [])
  }

  predicate Enqueuing(s: State) { RECEIVER in s.queue.q.calls }

  /** The round has taken a message off the buffer, which starts its Enqueue. */
  function HandOver(s: State, node: Q.Address, f: Frame, rest: Parser): State {
    s.(parser := rest, emitted := s.emitted + [f], queue := Q.Step(s.queue, Q.Begin(RECEIVER, node, f)))
  }

  function Step(s: State, a: Action): State {
    match a
    case Arrive(bytes) =>
      if s.parsing then s
      else s.(parser := Parser(s.parser.header, s.parser.buffered + bytes), parsing := true, received := s.received + bytes)
    case ParseRound(node) =>
      if !s.parsing || Enqueuing(s) || !Q.MayBegin(s.queue.q, RECEIVER, node) then s
      else (match s.parser.ParseRound()
            case Round(Some(f), rest) => HandOver(s, node, f, rest)
            case Round(None, rest) => s.(parser := rest, parsing := false))
    case EnqueueStep => s.(queue := Q.Step(s.queue, Q.Produce(RECEIVER)))
    case ProcessStep =>
      if s.hand.Holding? then s.(hand := Empty, delivered := s.delivered + [s.hand.message])
      else
        var queue := Q.Step(s.queue, Q.Consume);
        s.(queue := queue, hand := if s.queue.consumer.AtDelete? then Holding(s.queue.consumer.data) else Empty)
  }

  /** The message emitted and not yet exchanged into the queue. */
  ghost function OnTheWayIn(s: State): seq<Frame> {
    if Enqueuing(s) && s.queue.q.calls[RECEIVER].Ready? && s.queue.q.calls[RECEIVER].node in s.queue.q.data
    then [s.queue.q.data[s.queue.q.calls[RECEIVER].node]] else []
  }

  /** The message dequeued and not yet passed to the callback. */
  ghost function OnTheWayOut(s: State): seq<Frame> {
    (if s.hand.Holding? then [s.hand.message] else [])
    + if s.queue.consumer.AtDelete? then [s.queue.consumer.data] else []
  }

  ghost predicate Inv(s: State) {
    && Q.Inv(s.queue)
    && (forall t | t in s.queue.q.calls :: t == RECEIVER)
    && (Enqueuing(s) ==> s.parsing)
    && (s.hand.Holding? ==> s.queue.consumer.Idle?)
    && s.parser.Valid()
    && (!s.parsing ==> (StartsWithFrame(s.parser.Pending()) <==> |s.parser.buffered| >= UINT32))
    && AllSendable(s.emitted) && EncodeAll(s.emitted) + s.parser.Pending() == s.received
    && s.emitted == s.queue.pushed + OnTheWayIn(s)
    && s.queue.taken == s.delivered + OnTheWayOut(s)
  }

  /** A new call of the receiving thread holds the message it was begun with. */
  lemma BeginHolds(q: Q.State<Frame>, node: Q.Address, f: Frame)
    requires Q.MayBegin(q.q, RECEIVER, node)
    ensures var r := Q.Step(q, Q.Begin(RECEIVER, node, f));
      && r.q.calls == q.q.calls[RECEIVER := Q.Ready(node)] && node in r.q.data && r.q.data[node] == f
      && r.pushed == q.pushed && r.taken == q.taken && r.consumer == q.consumer
  {
  }

  lemma HandOverKeeps(s: State, node: Q.Address)
    requires Inv(s) && s.parsing && !Enqueuing(s) && Q.MayBegin(s.queue.q, RECEIVER, node)
    requires s.parser.ParseRound().frame.Some?
    ensures Inv(Step(s, ParseRound(node)))
  {
    hide Q.Inv, Q.Step, EncodeAll, AllSendable, StartsWithFrame, FirstFrame, AfterFirstFrame, Parser.ParseRound;
    var f, rest := s.parser.ParseRound().frame.value, s.parser.ParseRound().parser;
    Q.StepKeeps(s.queue, Q.Begin(RECEIVER, node, f));
    BeginHolds(s.queue, node, f);
    RoundTakesFirstFrame(s.parser);
    OneFrameMore(s.emitted, s.parser.Pending());
    assert OnTheWayIn(s) == [] && OnTheWayIn(HandOver(s, node, f, rest)) == [f];
  }

  lemma ParseRoundKeeps(s: State, node: Q.Address)
    requires Inv(s)
    ensures Inv(Step(s, ParseRound(node)))
  {
    hide Q.Inv, EncodeAll, AllSendable, StartsWithFrame, FirstFrame, AfterFirstFrame, Parser.ParseRound;
    if s.parsing && !Enqueuing(s) && Q.MayBegin(s.queue.q, RECEIVER, node) {
      RoundTakesFirstFrame(s.parser);
      if s.parser.ParseRound().frame.Some? { HandOverKeeps(s, node); }
    }
  }

  /** An access of the receiving thread's Enqueue moves its message into the queue, or ends the call. */
  lemma ProduceMoves(q: Q.State<Frame>)
    requires Q.Inv(q) && RECEIVER in q.q.calls
    ensures var r, call := Q.Step(q, Q.Produce(RECEIVER)), q.q.calls[RECEIVER];
      && r.taken == q.taken && r.consumer == q.consumer
      && (forall t | t in r.q.calls :: t in q.q.calls)
      && if call.Ready?
         then call.node in q.q.data && r.pushed == q.pushed + [q.q.data[call.node]]
           && RECEIVER in r.q.calls && r.q.calls[RECEIVER].Swapped?
         else r.pushed == q.pushed && RECEIVER !in r.q.calls
  {
    assert Q.CallOk(q.q, RECEIVER);
  }

  lemma EnqueueStepKeeps(s: State)
    requires Inv(s)
    ensures Inv(Step(s, EnqueueStep))
  {
    hide Q.Inv, Q.Step, EncodeAll, AllSendable, StartsWithFrame;
    Q.StepKeeps(s.queue, Q.Produce(RECEIVER));
    if Enqueuing(s) {
      ProduceMoves(s.queue);
    } else {
      NothingToProduce(s.queue);
    }
  }

  lemma NothingToProduce(q: Q.State<Frame>)
    requires RECEIVER !in q.q.calls
    ensures var r := Q.Step(q, Q.Produce(RECEIVER));
      r.q == q.q && r.pushed == q.pushed && r.taken == q.taken && r.consumer == q.consumer
  {
  }

  lemma ProcessStepKeeps(s: State)
    requires Inv(s)
    ensures Inv(Step(s, ProcessStep))
  {
    hide Q.Inv, Q.Step, EncodeAll, AllSendable, StartsWithFrame;
    if s.hand.Empty? {
      Q.StepKeeps(s.queue, Q.Consume);
      ConsumerTakes(s.queue);
      assert OnTheWayIn(Step(s, ProcessStep)) == OnTheWayIn(s);
    }
  }

  /** A step of Dequeue takes a datum exactly when it stores the tail, and touches no call. */
  lemma ConsumerTakes(q: Q.State<Frame>)
    ensures var r := Q.Step(q, Q.Consume);
      && r.pushed == q.pushed && r.q.calls == q.q.calls && r.q.data == q.q.data
      && r.taken == (if q.consumer.AtStore? then q.taken + [q.consumer.data] else q.taken)
      && (r.consumer.AtDelete? <==> q.consumer.AtStore?)
      && (q.consumer.AtStore? ==> r.consumer.data == q.consumer.data)
      && (q.consumer.AtDelete? ==> r.consumer.Idle?)
  {
    hide Q.Step, Q.Touched, Q.Gap;
    Q.StepIsAct(q, Q.Consume);
    match q.consumer
    case Idle =>
    case AtNext(_) =>
    case AtData(_, _) =>
    case AtStore(_, _, _) =>
    case AtDelete(_, _) =>
  }

  lemma StepKeeps(s: State, a: Action)
    requires Inv(s)
    ensures Inv(Step(s, a))
  {
    match a
    case Arrive(bytes) =>
      Behind(EncodeAll(s.emitted), s.parser.Pending(), bytes);
      Behind(s.parser.header, s.parser.buffered, bytes);
    case ParseRound(node) => ParseRoundKeeps(s, node);
    case EnqueueStep => EnqueueStepKeeps(s);
    case ProcessStep => ProcessStepKeeps(s);
  }

  lemma AfterInv(front: Q.Address, schedule: seq<Action>)
    ensures Inv(Run(Step, Initial(front), schedule))
  {
    Q.InitialInv<Frame>(front);
    forall s, a | Inv(s) ensures Inv(Step(s, a)) { StepKeeps(s, a); }
    RunKeeps(Step, s => Inv(s), Initial(front), schedule);
  }

  /** However the two threads interleave and however the bytes are cut, the callback has seen a prefix
      of the messages in the bytes received so far, each once and in order. */
  lemma CallbacksAreAPrefix(front: Q.Address, schedule: seq<Action>)
    ensures var s := Run(Step, Initial(front), schedule);
      s.delivered <= Parse(s.received).frames && !s.queue.fault
  {
    AfterInv(front, schedule);
    var s := Run(Step, Initial(front), schedule);
    ParseEncoded(s.emitted, s.parser.Pending());
    assert s.delivered <= s.queue.taken <= s.queue.pushed <= s.emitted <= Parse(s.received).frames;
  }

  ghost predicate ParserIdle(s: State) { !s.parsing && !Enqueuing(s) }

  ghost predicate AtRest(s: State) { Inv(s) && ParserIdle(s) && s.queue.consumer.Idle? && s.hand.Empty? }

  /** One Dequeue call of the processing thread, and the callback if there is a message. */
  ghost function ProcessOne(s: State): State {
    Repeat(Step, s, ProcessStep, if s.queue.q.tail in s.queue.q.link then 6 else 2)
  }

  lemma ProcessOneIsDequeue(s: State)
    requires AtRest(s) && Q.Quiet(s.queue)
    ensures var queue := Q.Dequeue(s.queue);
      ProcessOne(s) == s.(queue := queue,
        delivered := if queue.outcome.Returned? then s.delivered + [queue.outcome.data] else s.delivered)
  {
    Q.DequeueAlone(s.queue);
    if s.queue.q.tail in s.queue.q.link {
      Q.LinkedTailHasDatum(s.queue);
      hide Step, Q.Step, Q.Inv, Q.Quiet, Inv;
      Q.FindsNode(s.queue);
      var s1 := DequeueGoesOn(s);
      var s2 := DequeueGoesOn(s1);
      var s3 := DequeueGoesOn(s2);
      var s4 := DequeueGoesOn(s3);
      CallBack(s4);
      RepeatFive(Step, s, ProcessStep);
      RepeatMore(Step, s, ProcessStep, 5);
    } else {
      hide Step, Q.Step, Q.Inv, Q.Quiet, Inv;
      Q.FindsNoNode(s.queue);
      var s1 := DequeueGoesOn(s);
      var s2 := DequeueGoesOn(s1);
      RepeatTwo(Step, s, ProcessStep);
    }
  }

  lemma DequeueGoesOn(s: State) returns (r: State)
    requires s.hand.Empty? && !s.queue.consumer.AtDelete?
    ensures r == Step(s, ProcessStep) == s.(queue := Q.Step(s.queue, Q.Consume))
  {
    r := Step(s, ProcessStep);
  }

  /** The last access of a Dequeue that succeeds, and the callback. */
  lemma CallBack(s: State)
    requires s.hand.Empty? && s.queue.consumer.AtDelete?
    ensures Step(Step(s, ProcessStep), ProcessStep)
         == s.(queue := Q.Step(s.queue, Q.Consume), delivered := s.delivered + [s.queue.consumer.data])
  {
    hide Q.Step;
  }

  lemma RestIsQuiet(s: State)
    requires AtRest(s)
    ensures Q.Quiet(s.queue) && s.queue.consumer.Idle? && s.queue.taken <= s.queue.pushed
  {
    hide EncodeAll, AllSendable, StartsWithFrame;
    assert s.queue.q.calls == map[];
  }

  lemma RestAgain(s: State, queue: Q.State<Frame>, more: seq<Frame>)
    requires AtRest(s) && Q.Quiet(queue) && queue.consumer.Idle?
    requires queue.pushed == s.queue.pushed && queue.taken == s.queue.taken + more
    ensures AtRest(s.(queue := queue, delivered := s.delivered + more))
  {
    hide Q.Inv, EncodeAll, AllSendable, StartsWithFrame;
  }

  lemma ProcessOneKeeps(s: State)
    requires AtRest(s)
    ensures var r := ProcessOne(s);
      && AtRest(r)
      && r.received == s.received && r.parser == s.parser && r.queue.pushed == s.queue.pushed
      && (r.queue.outcome.Returned? ==> |r.queue.taken| == |s.queue.taken| + 1)
      && (!r.queue.outcome.Returned? ==> r.queue.taken == r.queue.pushed)
  {
    RestIsQuiet(s);
    ProcessOneIsDequeue(s);
    Q.DequeueAlone(s.queue);
    hide AtRest, ProcessOne, Q.Dequeue, Q.Quiet;
    var queue := Q.Dequeue(s.queue);
    RestAgain(s, queue, if queue.outcome.Returned? then [queue.outcome.data] else []);
    assert s.delivered + [] == s.delivered;
  }

  /** The loop of the processing thread: until Dequeue answers false. */
  ghost function ProcessAll(s: State): State
    requires AtRest(s)
    decreases |s.queue.pushed| - |s.queue.taken|
  {
    ProcessOneKeeps(s);
    var r := ProcessOne(s);
    if r.queue.outcome.Returned? then ProcessAll(r) else r
  }

  /** Once the parser is idle and the processing loop has run to its end, the callback has seen every message handed over;
      and these are all the messages in the bytes received exactly when fewer than 2^32 bytes are buffered. */
  lemma {:induction false} DrainDeliversAll(s: State)
    requires AtRest(s)
    ensures ProcessAll(s).delivered == s.emitted && ProcessAll(s).received == s.received
    ensures ProcessAll(s).delivered == Parse(s.received).frames <==> |s.parser.buffered| < UINT32
    decreases |s.queue.pushed| - |s.queue.taken|
  {
    ProcessOneKeeps(s);
    var r := ProcessOne(s);
    if r.queue.outcome.Returned? {
      DrainDeliversAll(r);
    } else {
      assert r.delivered == r.queue.taken == r.queue.pushed == r.emitted;
    }
    AllEmittedExactly(s);
  }

  lemma AllEmittedExactly(s: State)
    requires Inv(s) && !s.parsing
    ensures s.emitted == Parse(s.received).frames <==> |s.parser.buffered| < UINT32
  {
    ParseEncoded(s.emitted, s.parser.Pending());
    assert s.emitted + [] == s.emitted;
    assert |s.emitted + Parse(s.parser.Pending()).frames| == |s.emitted| + |Parse(s.parser.Pending()).frames|;
  }

  /** The processing loop is a run of the processing thread alone. */
  lemma {:induction false} ProcessAllIsRun(s: State) returns (n: nat)
    requires AtRest(s)
    ensures ProcessAll(s) == Run(Step, s, seq(n, _ => ProcessStep))
    decreases |s.queue.pushed| - |s.queue.taken|
  {
    ProcessOneKeeps(s);
    var k: nat := if s.queue.q.tail in s.queue.q.link then 6 else 2;
    var r := ProcessOne(s);
    RepeatIsRun(Step, s, ProcessStep, k);
    n := k;
    if r.queue.outcome.Returned? {
      var m := ProcessAllIsRun(r);
      RunAppend(Step, s, seq(k, _ => ProcessStep), seq(m, _ => ProcessStep));
      assert seq(k, _ => ProcessStep) + seq(m, _ => ProcessStep) == seq(k + m, _ => ProcessStep);
      n := k + m;
    }
  }

  /** The same over whole runs, from the start of the session. */
  lemma EverythingIsDelivered(front: Q.Address, schedule: seq<Action>)
    requires var s := Run(Step, Initial(front), schedule);
      ParserIdle(s) && s.queue.consumer.Idle? && s.hand.Empty?
    ensures var s := Run(Step, Initial(front), schedule);
      AtRest(s) && (ProcessAll(s).delivered == Parse(s.received).frames <==> |s.parser.buffered| < UINT32)
  {
    AfterInv(front, schedule);
    DrainDeliversAll(Run(Step, Initial(front), schedule));
  }
}
