/**
 The task pool's classes over their own fields, with the other threads running between any two locked sections or
 atomic accesses of a thread. Each of these is one step of the machine in `TaskPools`.
 */
module TaskPoolCode {
  import opened Machines
  import opened Modular
  import opened TaskPools
  import opened Wrappers

  /** The environment of a submission by `client`, of the worker's `run`, or of the main thread's `runInMain`. */
  datatype Self = Submitter(client: Client) | WorkerOf(worker: nat) | MainThread

  predicate ActsFor(a: Action, self: Self) {
    match a
    case Draw(c, _) => self == Submitter(c)
    case Put(c) => self == Submitter(c)
    case Take(w) => self == WorkerOf(w)
    case DoWork(w, _) => self == WorkerOf(w)
    case AddDone(w) => self == WorkerOf(w)
    case MainTake => self == MainThread
    case MainDone => self == MainThread
  }

  predicate Spares(schedule: seq<Action>, self: Self) { forall a | a in schedule :: !ActsFor(a, self) }

  ghost predicate SameLocals(s: State, r: State, self: Self) {
    match self
    case Submitter(c) =>
      s.tickets <= r.tickets && (c in s.calls ==> c in r.calls && r.calls[c] == s.calls[c])
    case WorkerOf(w) =>
      |r.workers| == |s.workers| && (w < |s.workers| ==>
        r.workers[w].batch == s.workers[w].batch && r.workers[w].hand == s.workers[w].hand
        && r.workers[w].worked == s.workers[w].worked)
    case MainThread => r.mainBatch == s.mainBatch && r.finished == s.finished
  }

  lemma OthersStepKeepsMyLocals(s: State, a: Action, self: Self)
    requires !ActsFor(a, self)
    ensures SameLocals(s, Step(s, a), self)
  {
  }

  /** The locals of a suspended thread survive whatever the others do. */
  lemma {:induction false} OthersKeepMyLocals(s: State, schedule: seq<Action>, self: Self)
    requires Spares(schedule, self)
    ensures SameLocals(s, Run(Step, s, schedule), self)
    decreases |schedule|
  {
    if schedule != [] {
      hide Step, ActsFor;
      assert schedule[0] in schedule;
      OthersStepKeepsMyLocals(s, schedule[0], self);
      OthersKeepMyLocals(Step(s, schedule[0]), schedule[1..], self);
    }
  }

  class SyncQueue<T> {
    var needStop: bool
    var list: seq<T>

    constructor ()
      ensures !needStop && list == []
    {
      needStop, list := false, [];
    }

    /** `stop`: what is in the list stays there to be taken. */
    method Stop()
      modifies this`needStop
      ensures needStop && list == old(list)
    {
      needStop := true;
    }

    /** `put`: a stopped queue drops what is put. */
    method Put(data: T)
      modifies this`list
      ensures list == if needStop then old(list) else old(list) + [data]
    {
      if needStop {
        return;
      }
      list := list + [data];
    }

    /** `take` of the whole list. */
    method Take() returns (taken: seq<T>)
      modifies this`list
      ensures taken == old(list) && list == []
    {
      taken := list;
      list := [];
    }
  }

  class TaskThread {
    const queue: SyncQueue<Task>
    // The locals of `run`: what is left of the list taken, the task about to be added to the done queue. And the history.
    var batch: seq<Task>
    var hand: Option<Task>
    var queued: seq<Task>
    var worked: seq<Work>

    constructor ()
      ensures fresh(queue) && !queue.needStop && Model() == Worker([], [], None, [], [])
    {
      queue := new SyncQueue();
      batch, hand, queued, worked := [], None, [], [];
    }

    ghost function Model(): Worker
      reads this, queue
    {
      Worker(queue.list, batch, hand, queued, worked)
    }

    /** `addTask`. */
    method AddTask(task: Option<Task>) returns (ok: bool)
      requires !queue.needStop
      modifies this`queued, queue`list
      ensures ok == task.Some?
      ensures Model() ==
        if ok then old(Model()).(queue := old(queue.list) + [task.value], queued := old(queued) + [task.value])
        else old(Model())
    {
      if task.None? {
        return false;
      }
      queue.Put(task.value);
      queued := queued + [task.value];
      return true;
    }

    ghost predicate ThreadOf(pool: TaskPool, w: nat)
      reads pool.Repr()
    {
      pool.Valid() && w < |pool.threads| && pool.threads[w] == this
    }

    method WorkReturns(pool: TaskPool, ghost w: nat, task: Task, ok: bool)
      requires ThreadOf(pool, w) && hand == None && batch != [] && batch[0] == task
      modifies this`batch, this`worked, this`hand
      ensures ThreadOf(pool, w) && hand == (if ok then Some(task) else None) && batch == old(batch)[1..]
      ensures worked == old(worked) + [Work(task, ok)] && pool.Model() == Step(old(pool.Model()), DoWork(w, ok))
    {
      batch := batch[1..];
      worked := worked + [Work(task, ok)];
      hand := if ok then Some(task) else None;
      assert pool.Model().workers == Step(old(pool.Model()), DoWork(w, ok)).workers;
    }

    method HandOver(pool: TaskPool, ghost w: nat, task: Task)
      requires ThreadOf(pool, w) && hand == Some(task)
      modifies this`hand, pool.done`list
      ensures ThreadOf(pool, w) && hand == None
      ensures pool.done.list == old(pool.done.list) + [task] && pool.Model() == Step(old(pool.Model()), AddDone(w))
    {
      pool.AddDone(task);
      hand := None;
      assert pool.Model().workers == Step(old(pool.Model()), AddDone(w)).workers;
    }

    /** One turn of the loop of `run`, with the other threads running between its two steps. */
    method WorkOn(pool: TaskPool, w: nat, task: Task, work: Task -> bool, between: seq<Action>)
      requires ThreadOf(pool, w) && hand == None && batch != [] && batch[0] == task && Spares(between, WorkerOf(w))
      modifies pool.Repr()
      ensures ThreadOf(pool, w) && hand == None && batch == old(batch)[1..]
      ensures pool.Model() == Machines.Run(Step, old(pool.Model()), Turn(w, work(task), between))
      ensures worked == old(worked) + [Work(task, work(task))]
    {
      hide Step, Machines.Run, TaskPool.Model, TaskPool.Valid, Spares;
      ghost var before := pool.Model();
      var ok := work(task);
      TurnSteps(before, w, ok, between);
      WorkReturns(pool, w, task, ok);
      if ok {
        pool.Suspend(WorkerOf(w), between);
        HandOver(pool, w, task);
      }
    }

    method TakeAll(pool: TaskPool, ghost w: nat) returns (list: seq<Task>)
      requires ThreadOf(pool, w) && hand == None && batch == []
      modifies this`batch, queue`list
      ensures ThreadOf(pool, w) && list == batch == old(queue.list) && queue.list == []
      ensures pool.Model() == Step(old(pool.Model()), Take(w))
    {
      list := queue.Take();
      batch := list;
      assert pool.Model().workers == Step(old(pool.Model()), Take(w)).workers;
    }

    /** `run`. */
    method Run(pool: TaskPool, w: nat, work: Task -> bool, env: nat -> seq<Action>)
      requires ThreadOf(pool, w) && hand == None && batch == [] && forall k :: Spares(env(k), WorkerOf(w))
      modifies pool.Repr()
      ensures ThreadOf(pool, w) && hand == None && batch == []
      ensures pool.Model() == Machines.Run(Step, old(pool.Model()), [Take(w)] + Turns(w, old(queue.list), work, env))
      ensures worked == old(worked) + Outcomes(old(queue.list), work)
    {
      hide Step, Machines.Run, Turns, Turn, Outcomes, TaskPool.Model, TaskPool.Valid, Spares;
      ghost var before := pool.Model();
      var list := TakeAll(pool, w);
      Start(before, w, list, work, env);
      for i := 0 to |list|
        invariant ThreadOf(pool, w) && hand == None && batch == list[i..]
        invariant pool.Model() == Machines.Run(Step, before, [Take(w)] + Turns(w, list[..i], work, env))
        invariant worked == old(worked) + Outcomes(list[..i], work)
      {
        TurnNext(before, w, list, i, work, env);
        pool.Suspend(WorkerOf(w), env(2 * i));
        WorkOn(pool, w, list[i], work, env(2 * i + 1));
      }
      assert list[..|list|] == list;
    }
  }

  class TaskPool {
    const threads: seq<TaskThread>
    const done: SyncQueue<Task>
    var counter: nat
    ghost var start: nat
    // The submissions so far, those inside `addNewTask`, what the main thread has taken, and what it has completed.
    var tickets: seq<Ticket>
    var calls: map<Client, Task>
    var mainBatch: seq<Task>
    var finished: seq<Task>

    ghost function Repr(): set<object> {
      {this, done} + (set t | t in threads) + (set t | t in threads :: t.queue)
    }

    ghost predicate Valid()
      reads Repr()
    {
      && |threads| > 0 && !done.needStop
      && (forall i :: 0 <= i < |threads| ==> threads[i].queue != done && !threads[i].queue.needStop)
      && (forall i, j :: 0 <= i < j < |threads| ==> threads[i] != threads[j] && threads[i].queue != threads[j].queue)
      && (forall t :: 0 <= t < |tickets| ==> tickets[t].worker < |threads|)
      && (forall c :: c in calls ==> calls[c] < |tickets|)
    }

    ghost function Models(): (r: seq<Worker>)
      reads Repr()
      ensures |r| == |threads| && forall i :: 0 <= i < |threads| ==> r[i] == threads[i].Model()
    {
      seq(|threads|, i requires 0 <= i < |threads| reads Repr() => threads[i].Model())
    }

    ghost function Model(): State
      reads Repr()
    {
      State(start, counter, tickets, calls, Models(), done.list, mainBatch, finished)
    }

    /** The constructor and `init`. Nothing initialises the counter. */
    constructor (size: nat, garbage: nat)
      requires 0 < size && garbage < UINT32
      ensures Valid() && Model() == Initial(size, garbage)
    {
      var made: seq<TaskThread> := [];
      var queue := new SyncQueue<Task>();
      for i := 0 to size
        invariant |made| == i && !queue.needStop && queue.list == []
        invariant forall k :: 0 <= k < i ==> fresh(made[k]) && fresh(made[k].queue) && made[k].queue != queue
        invariant forall k :: 0 <= k < i ==> !made[k].queue.needStop && made[k].Model() == Worker([], [], None, [], [])
        invariant forall j, k :: 0 <= j < k < i ==> made[j] != made[k] && made[j].queue != made[k].queue
      {
        var thread := new TaskThread();
        made := made + [thread];
      }
      threads, done, counter := made, queue, garbage;
      start, tickets, calls, mainBatch, finished := garbage, [], map[], [], [];
    }

    /** `getThread`: the counter is fetched and increased in one step. */
    method GetThread(c: Client, given: bool) returns (w: nat)
      requires Valid() && c !in calls
      modifies this
      ensures Valid() && w == old(counter) % |threads|
      ensures Model() == Step(old(Model()), Draw(c, given))
    {
      w := counter % |threads|;
      calls := calls[c := |tickets|];
      tickets := tickets + [Ticket(c, w, given)];
      counter := (counter + 1) % UINT32;
      assert Models() == old(Models());
    }

    /** The thread drawn gets the task. */
    method PutTask(c: Client, w: nat, task: Option<Task>)
      requires Valid() && c in calls && tickets[calls[c]] == Ticket(tickets[calls[c]].client, w, task.Some?)
      requires task.Some? ==> task.value == calls[c]
      modifies this`calls, threads, set t | t in threads :: t.queue
      ensures Valid() && Model() == Step(old(Model()), Put(c)) && c !in calls
      ensures task.Some? ==> threads[w].queued == old(threads[w].queued) + [task.value]
    {
      var _ := threads[w].AddTask(task);
      calls := calls - {c};
      assert Models() == Step(old(Model()), Put(c)).workers;
    }

    /** `addNewTask`. The task is known by the number of its submission. */
    method AddNewTask(c: Client, task: Option<Task>, env: seq<Action>) returns (ok: bool)
      requires Valid() && c !in calls && (task.Some? ==> task.value == |tickets|) && Spares(env, Submitter(c))
      modifies Repr()
      ensures ok && Valid() && c !in calls
      ensures Model() == Run(Step, old(Model()), [Draw(c, task.Some?)] + env + [Put(c)])
      ensures task.Some? ==> task.value in threads[old(counter) % |threads|].queued
    {
      hide Run, Spares;
      ghost var before := Model();
      var w := GetThread(c, task.Some?);
      assert calls[c] == |old(tickets)| && tickets[calls[c]] == Ticket(c, w, task.Some?);
      hide Step;
      Suspend(Submitter(c), env);
      PutTask(c, w, task);
      Between(before, Draw(c, task.Some?), env, Put(c));
      return true;
    }

    method AddDone(task: Task)
      requires !done.needStop
      modifies done`list
      ensures done.list == old(done.list) + [task]
    {
      done.Put(task);
    }

    method MainTakeAll() returns (list: seq<Task>)
      requires Valid() && mainBatch == []
      modifies done`list, this`mainBatch
      ensures Valid() && list == mainBatch == old(done.list) && done.list == [] && finished == old(finished)
      ensures Model() == Step(old(Model()), MainTake)
    {
      list := done.Take();
      mainBatch := list;
      assert Models() == old(Models());
    }

    method DoneReturns(task: Task)
      requires Valid() && mainBatch != [] && mainBatch[0] == task
      modifies this`mainBatch, this`finished
      ensures Valid() && mainBatch == old(mainBatch)[1..] && finished == old(finished) + [task]
      ensures Model() == Step(old(Model()), MainDone)
    {
      mainBatch := mainBatch[1..];
      finished := finished + [task];
      assert Models() == old(Models());
    }

    /** `runInMain`. */
    method RunInMain(env: nat -> seq<Action>)
      requires Valid() && mainBatch == [] && forall k :: Spares(env(k), MainThread)
      modifies Repr()
      ensures Valid() && mainBatch == [] && finished == old(finished) + old(done.list)
      ensures Model() == Run(Step, old(Model()), [MainTake] + Completions(|old(done.list)|, env))
    {
      hide Step, Run, TaskPool.Model, Valid, Spares, Completions;
      ghost var before := Model();
      var list := MainTakeAll();
      NoCompletion(before, env);
      for i := 0 to |list|
        invariant Valid() && mainBatch == list[i..] && finished == old(finished) + list[..i]
        invariant Model() == Run(Step, before, [MainTake] + Completions(i, env))
      {
        Suspend(MainThread, env(i));
        DoneReturns(list[i]);
        CompletionNext(before, i, env);
      }
      assert list[..|list|] == list;
    }

    // ---------- the other threads ----------

    method Access(a: Action)
      requires Valid()
      modifies Repr()
      ensures Valid() && Model() == Step(old(Model()), a)
    {
      match a
      case Draw(c, given) => if c !in calls { var _ := GetThread(c, given); }
      case Put(c) =>
        if c in calls {
          var t := tickets[calls[c]];
          PutTask(c, t.worker, if t.given then Some(calls[c]) else None);
        }
      case Take(w) =>
        if w < |threads| && threads[w].batch == [] && threads[w].hand.None? { var _ := threads[w].TakeAll(this, w); }
      case DoWork(w, ok) =>
        if w < |threads| && threads[w].batch != [] && threads[w].hand.None? {
          threads[w].WorkReturns(this, w, threads[w].batch[0], ok);
        }
      case AddDone(w) =>
        if w < |threads| && threads[w].hand.Some? { threads[w].HandOver(this, w, threads[w].hand.value); }
      case MainTake => if mainBatch == [] { var _ := MainTakeAll(); }
      case MainDone => if mainBatch != [] { DoneReturns(mainBatch[0]); }
    }

    /** The other threads run while `self` is suspended. */
    method Suspend(self: Self, schedule: seq<Action>)
      requires Valid() && Spares(schedule, self)
      modifies Repr()
      ensures Valid() && Model() == Run(Step, old(Model()), schedule)
      ensures match self
        case Submitter(c) => c in old(calls) ==>
          c in calls && calls[c] == old(calls)[c] && tickets[calls[c]] == old(tickets[calls[c]])
        case WorkerOf(w) => w < |threads| ==>
          && threads[w].batch == old(threads[w].batch) && threads[w].hand == old(threads[w].hand)
          && threads[w].worked == old(threads[w].worked)
        case MainThread => mainBatch == old(mainBatch) && finished == old(finished)
    {
      ghost var before := Model();
      OthersKeepMyLocals(before, schedule, self);
      hide Step, Run;
      for i := 0 to |schedule|
        invariant Valid() && Model() == Run(Step, before, schedule[..i])
      {
        RunOne(Step, before, schedule[..i], schedule[i]);
        assert schedule[..i] + [schedule[i]] == schedule[..i + 1];
        Access(schedule[i]);
      }
      assert schedule[..|schedule|] == schedule;
      assert SameLocals(before, Model(), self);
    }
  }

  /** A step, those of others, and another step. */
  lemma Between(s: State, a: Action, env: seq<Action>, b: Action)
    ensures Run(Step, s, [a] + env + [b]) == Step(Run(Step, Step(s, a), env), b)
  {
    hide Step, Run;
    RunOne(Step, s, [a] + env, b);
    RunAppend(Step, s, [a], env);
    RunSingle(Step, s, a);
  }

  /** The steps for one task: the work and, if it returned true, adding the task to the done queue. */
  function Turn(w: nat, ok: bool, between: seq<Action>): seq<Action> {
    [DoWork(w, ok)] + if ok then between + [AddDone(w)] else []
  }

  lemma TurnSteps(s: State, w: nat, ok: bool, between: seq<Action>)
    ensures Run(Step, s, Turn(w, ok, between))
         == var r := Step(s, DoWork(w, ok)); if ok then Step(Run(Step, r, between), AddDone(w)) else r
  {
    hide Step, Run;
    if ok {
      Between(s, DoWork(w, ok), between, AddDone(w));
      assert Turn(w, ok, between) == [DoWork(w, ok)] + between + [AddDone(w)];
    } else {
      RunSingle(Step, s, DoWork(w, ok));
      assert Turn(w, ok, between) == [DoWork(w, ok)];
    }
  }

  /** The turns for a list of tasks, with the steps of others in front of each turn and inside it. */
  function Turns(w: nat, tasks: seq<Task>, work: Task -> bool, env: nat -> seq<Action>): seq<Action> {
    if tasks == [] then []
    else
      var n: nat := |tasks| - 1;
      Turns(w, tasks[..n], work, env) + env(2 * n) + Turn(w, work(tasks[n]), env(2 * n + 1))
  }

  function Outcomes(tasks: seq<Task>, work: Task -> bool): seq<Work> {
    seq(|tasks|, i requires 0 <= i < |tasks| => Work(tasks[i], work(tasks[i])))
  }

  lemma Start(s: State, w: nat, tasks: seq<Task>, work: Task -> bool, env: nat -> seq<Action>)
    ensures Run(Step, s, [Take(w)] + Turns(w, tasks[..0], work, env)) == Step(s, Take(w))
    ensures Outcomes(tasks[..0], work) == []
  {
    RunSingle(Step, s, Take(w));
    assert [Take(w)] == [Take(w)] + Turns(w, tasks[..0], work, env);
  }

  lemma TurnNext(s: State, w: nat, tasks: seq<Task>, i: nat, work: Task -> bool, env: nat -> seq<Action>)
    requires i < |tasks|
    ensures Run(Step, s, [Take(w)] + Turns(w, tasks[..i + 1], work, env))
         == Run(Step, Run(Step, Run(Step, s, [Take(w)] + Turns(w, tasks[..i], work, env)), env(2 * i)),
                Turn(w, work(tasks[i]), env(2 * i + 1)))
    ensures Outcomes(tasks[..i + 1], work) == Outcomes(tasks[..i], work) + [Work(tasks[i], work(tasks[i]))]
  {
    hide Run, Step;
    var more, turns := tasks[..i + 1], Turns(w, tasks[..i], work, env);
    var turn := Turn(w, work(tasks[i]), env(2 * i + 1));
    assert more[..i] == tasks[..i] && more[i] == tasks[i];
    assert [Take(w)] + (turns + env(2 * i) + turn) == [Take(w)] + turns + env(2 * i) + turn;
    RunAppend(Step, s, [Take(w)] + turns + env(2 * i), turn);
    RunAppend(Step, s, [Take(w)] + turns, env(2 * i));
  }

  /** The main thread's completions, with the steps of others in front of each. */
  function Completions(n: nat, env: nat -> seq<Action>): seq<Action> {
    if n == 0 then [] else Completions(n - 1, env) + env(n - 1) + [MainDone]
  }

  lemma NoCompletion(s: State, env: nat -> seq<Action>)
    ensures Run(Step, s, [MainTake] + Completions(0, env)) == Step(s, MainTake)
  {
    RunSingle(Step, s, MainTake);
    assert [MainTake] == [MainTake] + [];
  }

  lemma CompletionNext(s: State, i: nat, env: nat -> seq<Action>)
    ensures Run(Step, s, [MainTake] + Completions(i + 1, env))
         == Step(Run(Step, Run(Step, s, [MainTake] + Completions(i, env)), env(i)), MainDone)
  {
    hide Run, Step;
    var done := Completions(i, env);
    assert [MainTake] + (done + env(i) + [MainDone]) == [MainTake] + done + env(i) + [MainDone];
    RunOne(Step, s, [MainTake] + done + env(i), MainDone);
    RunAppend(Step, s, [MainTake] + done, env(i));
  }
}
