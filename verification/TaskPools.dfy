/**
 The task pool with all its threads: clients that submit, workers that take whole queues and work on them task by
 task, and the main thread that runs the completions. Every lock and every atomic access is one step.
 */
module TaskPools {
  import opened Machines
  import opened Modular
  import opened Sequences
  import opened Wrappers

  type Client = nat

  // A task is known by the number of its submission; a submission of a null task takes a number too.
  type Task = nat

  datatype Ticket = Ticket(client: Client, worker: nat, given: bool)

  datatype Work = Work(task: Task, ok: bool)

  /** `hand` is the task whose work has returned true and that is about to be added to the done queue; `queued` and
      `worked` record the tasks put into the queue and those worked on, with what their work returned. */
  datatype Worker = Worker(queue: seq<Task>, batch: seq<Task>, hand: Option<Task>, queued: seq<Task>, worked: seq<Work>)

  /** `calls` are the submissions that have drawn their worker and not put their task yet; `finished` records the tasks
      whose completion has run. */
  datatype State = State(
    start: nat, counter: nat, tickets: seq<Ticket>, calls: map<Client, Task>, workers: seq<Worker>,
    doneQueue: seq<Task>, mainBatch: seq<Task>, finished: seq<Task>)

  datatype Action =
    | Draw(client: Client, given: bool)   // getThread: the counter is read and increased
    | Put(client: Client)                // addTask of the thread drawn
    | Take(worker: nat)                  // run takes the whole queue
    | DoWork(worker: nat, ok: bool)      // work returns
    | AddDone(worker: nat)               // addDone
    | MainTake                           // runInMain takes the whole done queue
    | MainDone                           // done returns

  /** The counter is never initialised: `start` is any 32-bit number. */
  function Initial(size: nat, start: nat): State {
    State(start, start, [], map[], seq(size, _ => Worker([], [], None, [], [])), [], [], [])
  }

  function Step(s: State, a: Action): State
  {
    match a
    case Draw(c, given) =>
      if c in s.calls || |s.workers| == 0 then s
      else s.(calls := s.calls[c := |s.tickets|], tickets := s.tickets + [Ticket(c, s.counter % |s.workers|, given)],
              counter := (s.counter + 1) % UINT32)
    case Put(c) => if c in s.calls then PutTask(s, c) else s
    case Take(w) =>
      if w < |s.workers| && s.workers[w].batch == [] && s.workers[w].hand.None? then
        SetWorker(s, w, s.workers[w].(batch := s.workers[w].queue, queue := []))
      else s
    case DoWork(w, ok) =>
      if w < |s.workers| && s.workers[w].batch != [] && s.workers[w].hand.None? then
        SetWorker(s, w, Worked(s.workers[w], ok))
      else s
    case AddDone(w) =>
      if w < |s.workers| && s.workers[w].hand.Some? then
        SetWorker(s, w, s.workers[w].(hand := None)).(doneQueue := s.doneQueue + [s.workers[w].hand.value])
      else s
    case MainTake => if s.mainBatch == [] then s.(mainBatch := s.doneQueue, doneQueue := []) else s
    case MainDone =>
      if s.mainBatch == [] then s else s.(mainBatch := s.mainBatch[1..], finished := s.finished + [s.mainBatch[0]])
  }

  function SetWorker(s: State, w: nat, k: Worker): State
    requires w < |s.workers|
  {
    s.(workers := s.workers[w := k])
  }

  function PutTask(s: State, c: Client): State
    requires c in s.calls
  {
    var t := s.calls[c];
    var r := s.(calls := s.calls - {c});
    if t < |s.tickets| && s.tickets[t].given && s.tickets[t].worker < |s.workers| then
      var k := s.workers[s.tickets[t].worker];
      SetWorker(r, s.tickets[t].worker, k.(queue := k.queue + [t], queued := k.queued + [t]))
    else r
  }

  function Worked(k: Worker, ok: bool): Worker
    requires k.batch != []
  {
    var t := k.batch[0];
    k.(batch := k.batch[1..], hand := if ok then Some(t) else None, worked := k.worked + [Work(t, ok)])
  }

  function After(size: nat, start: nat, schedule: seq<Action>): State { Run(Step, Initial(size, start), schedule) }

  // ---------- bookkeeping ----------

  function Tasks(worked: seq<Work>): (r: seq<Task>)
    ensures |r| == |worked| && forall i :: 0 <= i < |r| ==> r[i] == worked[i].task
  {
    seq(|worked|, i requires 0 <= i < |worked| => worked[i].task)
  }

  /** The tasks whose work returned `ok`, in the order they were worked on. */
  function Ended(worked: seq<Work>, ok: bool): seq<Task> {
    if worked == [] then []
    else Ended(worked[..|worked| - 1], ok)
         + if worked[|worked| - 1].ok == ok then [worked[|worked| - 1].task] else []
  }

  lemma TasksNext(worked: seq<Work>)
    requires worked != []
    ensures Tasks(worked) == Tasks(worked[..|worked| - 1]) + [worked[|worked| - 1].task]
  {
  }

  lemma EndedNext(worked: seq<Work>, ok: bool)
    requires worked != []
    ensures Ended(worked, ok) == Ended(worked[..|worked| - 1], ok)
                               + if worked[|worked| - 1].ok == ok then [worked[|worked| - 1].task] else []
  {
  }

  lemma WorkNext(worked: seq<Work>)
    requires worked != []
    ensures var n := |worked| - 1;
      && Tasks(worked) == Tasks(worked[..n]) + [worked[n].task]
      && Ended(worked, worked[n].ok) == Ended(worked[..n], worked[n].ok) + [worked[n].task]
      && Ended(worked, !worked[n].ok) == Ended(worked[..n], !worked[n].ok)
  {
    hide Tasks, Ended;
    TasksNext(worked);
    EndedNext(worked, worked[|worked| - 1].ok);
    EndedNext(worked, !worked[|worked| - 1].ok);
  }

  function InHand(k: Worker): seq<Task> { if k.hand.Some? then [k.hand.value] else [] }

  /** The worker that the `t`-th submission draws, of `size`. */
  function Home(start: nat, size: nat, t: Task): (w: nat)
    requires size > 0
    ensures w < size
  {
    (start + t) % UINT32 % size
  }

  function HomeIn(s: State, t: Task): (w: nat)
    requires |s.workers| > 0
    ensures w < |s.workers|
  {
    Home(s.start, |s.workers|, t)
  }

  /** Those of the tasks that belong to worker `w`. */
  function Of(start: nat, size: nat, tasks: seq<Task>, w: nat): seq<Task>
    requires size > 0
  {
    if tasks == [] then []
    else (if Home(start, size, tasks[0]) == w then [tasks[0]] else []) + Of(start, size, tasks[1..], w)
  }

  /** All tasks that have been added to the done queue, in that order. */
  function Added(s: State): seq<Task> { s.finished + s.mainBatch + s.doneQueue }

  // ---------- the invariant ----------

  ghost predicate WorkerOk(s: State, w: nat)
    requires w < |s.workers|
  {
    var k := s.workers[w];
    && k.queued == Tasks(k.worked) + k.batch + k.queue
    && Ended(k.worked, true) == Of(s.start, |s.workers|, Added(s), w) + InHand(k)
    && Distinct(k.queued)
    && forall t :: t in k.queued ==> Queueable(s, t, w)
  }

  ghost predicate Queueable(s: State, t: Task, w: nat)
    requires |s.workers| > 0
  {
    t < |s.tickets| && s.tickets[t].given && HomeIn(s, t) == w && t !in s.calls.Values
  }

  ghost predicate CallOk(s: State, c: Client)
    requires c in s.calls
  {
    s.calls[c] < |s.tickets| && forall d :: d in s.calls && s.calls[d] == s.calls[c] ==> d == c
  }

  ghost predicate TicketOk(s: State, t: Task)
    requires t < |s.tickets| && |s.workers| > 0
  {
    && s.tickets[t].worker == HomeIn(s, t)
    && (s.tickets[t].given ==> t in s.calls.Values || t in s.workers[HomeIn(s, t)].queued)
  }

  ghost predicate Inv(s: State) {
    && |s.workers| > 0 && s.counter == (s.start + |s.tickets|) % UINT32
    && (forall w :: 0 <= w < |s.workers| ==> WorkerOk(s, w))
    && (forall c :: c in s.calls ==> CallOk(s, c))
    && (forall t :: 0 <= t < |s.tickets| ==> TicketOk(s, t))
  }

  // ---------- what the steps keep ----------

  lemma OfFirst(start: nat, size: nat, tasks: seq<Task>, w: nat)
    requires size > 0 && tasks != []
    ensures Of(start, size, tasks, w)
         == (if Home(start, size, tasks[0]) == w then [tasks[0]] else []) + Of(start, size, tasks[1..], w)
  {
  }

  lemma {:induction false} OfAppend(start: nat, size: nat, a: seq<Task>, b: seq<Task>, w: nat)
    requires size > 0
    ensures Of(start, size, a + b, w) == Of(start, size, a, w) + Of(start, size, b, w)
  {
    hide Of, Home;
    if a == [] {
      OfNone(start, size, w);
      assert a + b == b;
    } else {
      OfAppend(start, size, a[1..], b, w);
      OfFirst(start, size, a, w);
      OfFirst(start, size, a + b, w);
      assert (a + b)[1..] == a[1..] + b && (a + b)[0] == a[0];
      var first := if Home(start, size, a[0]) == w then [a[0]] else [];
      Behind(first, Of(start, size, a[1..], w), Of(start, size, b, w));
    }
  }

  lemma OfNone(start: nat, size: nat, w: nat)
    requires size > 0
    ensures Of(start, size, [], w) == []
  {
  }

  lemma OfOne(start: nat, size: nat, t: Task, w: nat)
    requires size > 0
    ensures Of(start, size, [t], w) == if Home(start, size, t) == w then [t] else []
  {
    assert [t][1..] == [];
  }

  lemma DrawKeeps(s: State, c: Client, given: bool)
    requires Inv(s)
    ensures Inv(Step(s, Draw(c, given)))
  {
    if c !in s.calls {
      var r, n := Step(s, Draw(c, given)), |s.tickets|;
      CounterNext(s.start, n);
      assert Added(r) == Added(s);
      forall w | 0 <= w < |r.workers| ensures WorkerOk(r, w) {
        assert WorkerOk(s, w);
        forall t | t in r.workers[w].queued ensures Queueable(r, t, w) {
          assert Queueable(s, t, w);
        }
      }
      forall d | d in r.calls ensures CallOk(r, d) {
        if d != c { assert CallOk(s, d); }
        forall e | e in r.calls && r.calls[e] == r.calls[d] ensures e == d {
          if e != c { assert CallOk(s, e); }
        }
      }
      forall t | 0 <= t < |r.tickets| ensures TicketOk(r, t) {
        if t < n {
          assert TicketOk(s, t);
          if t in s.calls.Values {
            var d :| d in s.calls && s.calls[d] == t;
            assert r.calls[d] == t;
          }
        } else {
          assert r.calls[c] == t;
        }
      }
    }
  }

  lemma CounterNext(start: nat, n: nat)
    ensures ((start + n) % UINT32 + 1) % UINT32 == (start + (n + 1)) % UINT32
  {
  }

  /** A submission that ends takes its task, and no other, off those on their way. */
  lemma CallEnds(s: State, c: Client, u: Task)
    requires c in s.calls && CallOk(s, c)
    ensures u in (s.calls - {c}).Values <==> u in s.calls.Values && u != s.calls[c]
  {
    var rest := s.calls - {c};
    if u in s.calls.Values && u != s.calls[c] {
      var d :| d in s.calls && s.calls[d] == u;
      assert d in rest && rest[d] == u;
    }
  }

  lemma PutKeeps(s: State, c: Client)
    requires Inv(s) && c in s.calls
    ensures Inv(Step(s, Put(c)))
  {
    var r, t := Step(s, Put(c)), s.calls[c];
    assert CallOk(s, c) && TicketOk(s, t) && Added(r) == Added(s) && t in s.calls.Values;
    forall w | 0 <= w < |r.workers| ensures WorkerOk(r, w) {
      assert WorkerOk(s, w);
      assert t in s.workers[w].queued ==> Queueable(s, t, w);
      forall u | u in r.workers[w].queued ensures Queueable(r, u, w) {
        assert u != t ==> Queueable(s, u, w);
        CallEnds(s, c, u);
      }
    }
    forall d | d in r.calls ensures CallOk(r, d) { assert CallOk(s, d); }
    forall u | 0 <= u < |r.tickets| ensures TicketOk(r, u) {
      assert TicketOk(s, u);
      CallEnds(s, c, u);
    }
  }

  /** A step of worker `w` that touches neither the tickets, nor the submissions, nor what was queued. */
  lemma WorkerMoves(s: State, r: State, w: nat)
    requires Inv(s) && w < |s.workers| == |r.workers| && WorkerOk(r, w) && r.workers[w].queued == s.workers[w].queued
    requires r.start == s.start && r.counter == s.counter && r.tickets == s.tickets && r.calls == s.calls
    requires forall v :: 0 <= v < |s.workers| && v != w ==>
      r.workers[v] == s.workers[v] && Of(s.start, |s.workers|, Added(r), v) == Of(s.start, |s.workers|, Added(s), v)
    ensures Inv(r)
  {
    forall v | 0 <= v < |r.workers| ensures WorkerOk(r, v) {
      assert WorkerOk(s, v);
      forall t | t in r.workers[v].queued ensures Queueable(r, t, v) { assert Queueable(s, t, v); }
    }
    forall c | c in r.calls ensures CallOk(r, c) { assert CallOk(s, c); }
    forall t | 0 <= t < |r.tickets| ensures TicketOk(r, t) { assert TicketOk(s, t); }
  }

  lemma TakeKeeps(s: State, w: nat)
    requires Inv(s)
    ensures Inv(Step(s, Take(w)))
  {
    if w < |s.workers| && s.workers[w].batch == [] && s.workers[w].hand.None? {
      var r := Step(s, Take(w));
      assert WorkerOk(s, w) && Added(r) == Added(s);
      forall t | t in r.workers[w].queued ensures Queueable(r, t, w) { assert Queueable(s, t, w); }
      WorkerMoves(s, r, w);
    }
  }

  lemma WorkedIsOk(k: Worker, ok: bool)
    requires k.batch != [] && k.queued == Tasks(k.worked) + k.batch + k.queue && k.hand.None?
    ensures var l := Worked(k, ok);
      && l.queued == Tasks(l.worked) + l.batch + l.queue
      && Ended(l.worked, true) == Ended(k.worked, true) + InHand(l)
  {
    hide Tasks, Ended;
    var l := Worked(k, ok);
    WorkNext(l.worked);
    assert l.worked[..|k.worked|] == k.worked && k.batch == [k.batch[0]] + l.batch;
  }

  lemma DoWorkKeeps(s: State, w: nat, ok: bool)
    requires Inv(s)
    ensures Inv(Step(s, DoWork(w, ok)))
  {
    if w < |s.workers| && s.workers[w].batch != [] && s.workers[w].hand.None? {
      hide Tasks, Ended, Of, Worked;
      var r, k := Step(s, DoWork(w, ok)), s.workers[w];
      assert WorkerOk(s, w) && Added(r) == Added(s);
      WorkedIsOk(k, ok);
      SameQueued(k, ok);
      forall t | t in r.workers[w].queued ensures Queueable(r, t, w) { assert Queueable(s, t, w); }
      WorkerMoves(s, r, w);
    }
  }

  lemma SameQueued(k: Worker, ok: bool)
    requires k.batch != []
    ensures Worked(k, ok).queued == k.queued
  {
  }

  lemma AddDoneKeeps(s: State, w: nat)
    requires Inv(s)
    ensures Inv(Step(s, AddDone(w)))
  {
    if w < |s.workers| && s.workers[w].hand.Some? {
      var r, k, n := Step(s, AddDone(w)), s.workers[w], |s.workers|;
      var t := k.hand.value;
      assert WorkerOk(s, w);
      assert Added(r) == Added(s) + [t];
      InHandIsQueued(s, w);
      forall v | 0 <= v < n
        ensures Of(s.start, n, Added(r), v) == Of(s.start, n, Added(s), v) + if v == w then [t] else []
      {
        OfAppend(s.start, n, Added(s), [t], v);
        OfOne(s.start, n, t, v);
      }
      forall u | u in k.queued ensures Queueable(r, u, w) { assert Queueable(s, u, w); }
      WorkerMoves(s, r, w);
    }
  }

  lemma {:induction false} EndedAreTasks(worked: seq<Work>, ok: bool, t: Task)
    requires t in Ended(worked, ok)
    ensures t in Tasks(worked)
  {
    var n := |worked| - 1;
    if t in Ended(worked[..n], ok) {
      EndedAreTasks(worked[..n], ok, t);
      WorkNext(worked);
    } else {
      assert Tasks(worked)[n] == t;
    }
  }

  lemma InHandIsQueued(s: State, w: nat)
    requires w < |s.workers| && WorkerOk(s, w) && s.workers[w].hand.Some?
    ensures HomeIn(s, s.workers[w].hand.value) == w
  {
    var k := s.workers[w];
    var t := k.hand.value;
    assert t in InHand(k) && t in Ended(k.worked, true);
    EndedAreTasks(k.worked, true, t);
    assert t in k.queued && Queueable(s, t, w);
  }

  lemma MainMoves(s: State, a: Action)
    requires a.MainTake? || a.MainDone?
    ensures Added(Step(s, a)) == Added(s)
  {
  }

  lemma MainKeeps(s: State, a: Action)
    requires Inv(s) && (a.MainTake? || a.MainDone?)
    ensures Inv(Step(s, a))
  {
    hide Of, Tasks, Ended, Added;
    var r := Step(s, a);
    MainMoves(s, a);
    assert WorkerOk(s, 0) && r.workers == s.workers;
    forall t | t in r.workers[0].queued ensures Queueable(r, t, 0) { assert Queueable(s, t, 0); }
    WorkerMoves(s, r, 0);
  }

  lemma StepKeeps(s: State, a: Action)
    requires Inv(s)
    ensures Inv(Step(s, a))
  {
    match a
    case Draw(c, given) => DrawKeeps(s, c, given);
    case Put(c) => if c in s.calls { PutKeeps(s, c); }
    case Take(w) => TakeKeeps(s, w);
    case DoWork(w, ok) => DoWorkKeeps(s, w, ok);
    case AddDone(w) => AddDoneKeeps(s, w);
    case MainTake => MainKeeps(s, a);
    case MainDone => MainKeeps(s, a);
  }

  lemma InitialInv(size: nat, start: nat)
    requires size > 0 && start < UINT32
    ensures Inv(Initial(size, start))
  {
    var s := Initial(size, start);
    forall w | 0 <= w < size ensures WorkerOk(s, w) {}
  }

  lemma AfterInv(size: nat, start: nat, schedule: seq<Action>)
    requires size > 0 && start < UINT32
    ensures Inv(After(size, start, schedule))
  {
    InitialInv(size, start);
    forall s, a | Inv(s) ensures Inv(Step(s, a)) { StepKeeps(s, a); }
    RunKeeps(Step, s => Inv(s), Initial(size, start), schedule);
  }
}
