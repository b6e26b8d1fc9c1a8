/** What holds of the task pool after any interleaving of its threads. */
module TaskPoolTheorems {
  import opened Machines
  import opened Modular
  import opened Sequences
  import opened TaskPools

  // ---------- conservation ----------

  ghost function Occurs(tasks: seq<Task>, t: Task): nat { multiset(tasks)[t] }

  /** How often task `t` is to be found: on its way into the queue of its worker, in that queue, in the batch the worker
      is at, in its hand, given up because its work returned false, in the done queue, in the batch the main thread is
      at, or finished. */
  ghost function Places(s: State, t: Task): nat
    requires |s.workers| > 0
  {
    var k := s.workers[HomeIn(s, t)];
    (if t in s.calls.Values then 1 else 0)
    + Occurs(k.queue, t) + Occurs(k.batch, t) + Occurs(InHand(k), t) + Occurs(Ended(k.worked, false), t)
    + Occurs(s.doneQueue, t) + Occurs(s.mainBatch, t) + Occurs(s.finished, t)
  }

  lemma OccursIn(a: seq<Task>, b: seq<Task>, t: Task)
    ensures Occurs(a + b, t) == Occurs(a, t) + Occurs(b, t)
    ensures t in a <==> Occurs(a, t) > 0
  {
  }

  lemma {:induction false} DistinctOnce(tasks: seq<Task>, t: Task)
    requires Distinct(tasks)
    ensures Occurs(tasks, t) == if t in tasks then 1 else 0
  {
    if tasks != [] {
      DistinctOnce(tasks[1..], t);
      assert tasks == [tasks[0]] + tasks[1..];
      OccursIn([tasks[0]], tasks[1..], t);
      if tasks[0] == t {
        assert forall j :: 1 <= j < |tasks| ==> tasks[j] != t;
      }
    }
  }

  lemma {:induction false} EndedCounts(worked: seq<Work>, t: Task)
    ensures Occurs(Tasks(worked), t) == Occurs(Ended(worked, true), t) + Occurs(Ended(worked, false), t)
  {
    hide Tasks, Occurs;
    if worked == [] {
      NoWork();
    } else {
      var n := |worked| - 1;
      EndedCounts(worked[..n], t);
      WorkNext(worked);
      OccursIn(Tasks(worked[..n]), [worked[n].task], t);
      OccursIn(Ended(worked[..n], worked[n].ok), [worked[n].task], t);
    }
  }

  lemma NoWork()
    ensures Tasks([]) == [] && Ended([], true) == [] && Ended([], false) == [] && forall t :: Occurs([], t) == 0
  {
  }

  lemma {:induction false} OfCounts(start: nat, size: nat, tasks: seq<Task>, w: nat, t: Task)
    requires size > 0
    ensures Occurs(Of(start, size, tasks, w), t) == if Home(start, size, t) == w then Occurs(tasks, t) else 0
  {
    if tasks != [] {
      OfCounts(start, size, tasks[1..], w, t);
      assert tasks == [tasks[0]] + tasks[1..];
      OccursIn([tasks[0]], tasks[1..], t);
      if Home(start, size, tasks[0]) == w { OccursIn([tasks[0]], Of(start, size, tasks[1..], w), t); }
    }
  }

  /** The places of a task past its queue are where the worker and the main thread have brought it. */
  lemma PlacesPastQueue(s: State, t: Task)
    requires Inv(s)
    ensures Places(s, t) == (if t in s.calls.Values then 1 else 0) + Occurs(s.workers[HomeIn(s, t)].queued, t)
  {
    var w := HomeIn(s, t);
    var k := s.workers[w];
    assert WorkerOk(s, w);
    OccursIn(Tasks(k.worked) + k.batch, k.queue, t);
    OccursIn(Tasks(k.worked), k.batch, t);
    EndedCounts(k.worked, t);
    OccursIn(Of(s.start, |s.workers|, Added(s), w), InHand(k), t);
    OfCounts(s.start, |s.workers|, Added(s), w, t);
    OccursIn(s.finished + s.mainBatch, s.doneQueue, t);
    OccursIn(s.finished, s.mainBatch, t);
  }

  /** Conservation: every task submitted is in exactly one place, and no other worker ever has it. */
  lemma TaskIsInOnePlace(size: nat, start: nat, schedule: seq<Action>, t: Task)
    requires size > 0 && start < UINT32
    requires var s := After(size, start, schedule); t < |s.tickets| && s.tickets[t].given
    ensures var s := After(size, start, schedule); |s.workers| > 0 && Places(s, t) == 1
    ensures var s := After(size, start, schedule);
      forall w :: 0 <= w < |s.workers| && w != HomeIn(s, t) ==> t !in s.workers[w].queued
  {
    var s := After(size, start, schedule);
    AfterInv(size, start, schedule);
    PlacesPastQueue(s, t);
    var w := HomeIn(s, t);
    assert TicketOk(s, t) && WorkerOk(s, w);
    DistinctOnce(s.workers[w].queued, t);
    assert t in s.workers[w].queued ==> Queueable(s, t, w);
    forall v | 0 <= v < |s.workers| && v != w ensures t !in s.workers[v].queued {
      assert WorkerOk(s, v);
      assert t in s.workers[v].queued ==> Queueable(s, t, v);
    }
  }

  /** A null task is only ever on its way to a worker. */
  lemma NullTasksGoNowhere(size: nat, start: nat, schedule: seq<Action>, t: Task)
    requires size > 0 && start < UINT32
    requires var s := After(size, start, schedule); t < |s.tickets| && !s.tickets[t].given
    ensures var s := After(size, start, schedule); |s.workers| > 0 && Places(s, t) == if t in s.calls.Values then 1 else 0
  {
    var s := After(size, start, schedule);
    AfterInv(size, start, schedule);
    PlacesPastQueue(s, t);
    var w := HomeIn(s, t);
    assert WorkerOk(s, w);
    assert t in s.workers[w].queued ==> Queueable(s, t, w);
    OccursIn(s.workers[w].queued, [], t);
  }

  // ---------- once, in order, and only after the work ----------

  /** `work` runs at most once; `done` runs at most once, and only if work has returned true. */
  lemma WorkAndDoneRunOnce(size: nat, start: nat, schedule: seq<Action>, t: Task)
    requires size > 0 && start < UINT32
    ensures var s := After(size, start, schedule);
      && |s.workers| > 0
      && Occurs(Tasks(s.workers[HomeIn(s, t)].worked), t) <= 1
      && (forall w :: 0 <= w < |s.workers| && w != HomeIn(s, t) ==> t !in Tasks(s.workers[w].worked))
      && Occurs(s.finished, t) <= Occurs(Ended(s.workers[HomeIn(s, t)].worked, true), t) <= 1
  {
    var s := After(size, start, schedule);
    AfterInv(size, start, schedule);
    var w := HomeIn(s, t);
    var k := s.workers[w];
    assert WorkerOk(s, w);
    DistinctOnce(k.queued, t);
    OccursIn(Tasks(k.worked) + k.batch, k.queue, t);
    OccursIn(Tasks(k.worked), k.batch, t);
    EndedCounts(k.worked, t);
    OccursIn(Of(s.start, |s.workers|, Added(s), w), InHand(k), t);
    OfCounts(s.start, |s.workers|, Added(s), w, t);
    OccursIn(s.finished + s.mainBatch, s.doneQueue, t);
    OccursIn(s.finished, s.mainBatch, t);
    forall v | 0 <= v < |s.workers| && v != w ensures t !in Tasks(s.workers[v].worked) {
      assert WorkerOk(s, v);
      assert t in Tasks(s.workers[v].worked) ==> t in s.workers[v].queued;
      assert t in s.workers[v].queued ==> Queueable(s, t, v);
    }
  }

  /** The tasks of one worker are worked on in the order in which they were put into its queue, and their completions run
      in that order. */
  lemma DoneInOrder(size: nat, start: nat, schedule: seq<Action>, w: nat)
    requires w < size && start < UINT32
    ensures var s := After(size, start, schedule);
      && w < |s.workers|
      && Tasks(s.workers[w].worked) <= s.workers[w].queued
      && Of(s.start, |s.workers|, s.finished, w) <= Ended(s.workers[w].worked, true)
  {
    var s := After(size, start, schedule);
    AfterInv(size, start, schedule);
    SizeStays(size, start, schedule);
    assert WorkerOk(s, w);
    FinishedIsFirst(s, w);
    hide Of, Ended, Tasks;
    var k := s.workers[w];
    Behind(Tasks(k.worked), k.batch, k.queue);
  }

  lemma FinishedIsFirst(s: State, w: nat)
    requires w < |s.workers|
    ensures Of(s.start, |s.workers|, s.finished, w) <= Of(s.start, |s.workers|, Added(s), w) + InHand(s.workers[w])
  {
    hide Of;
    var n := |s.workers|;
    OfAppend(s.start, n, s.finished, s.mainBatch + s.doneQueue, w);
    Behind(s.finished, s.mainBatch, s.doneQueue);
  }

  lemma SizeStays(size: nat, start: nat, schedule: seq<Action>)
    requires size > 0 && start < UINT32
    ensures |After(size, start, schedule).workers| == size && After(size, start, schedule).start == start
  {
    RunKeeps(Step, (s: State) => |s.workers| == size && s.start == start, Initial(size, start), schedule);
  }

  ghost predicate AtRest(s: State) {
    && s.calls == map[] && s.doneQueue == [] && s.mainBatch == []
    && forall w :: 0 <= w < |s.workers| ==> s.workers[w].queue == [] && s.workers[w].batch == [] && s.workers[w].hand.None?
  }

  /** When everything has come to rest, every task submitted has been worked on once, and its completion has run once
      exactly if its work returned true. */
  lemma AtRestAllIsDone(size: nat, start: nat, schedule: seq<Action>, t: Task)
    requires size > 0 && start < UINT32
    requires var s := After(size, start, schedule); AtRest(s) && t < |s.tickets| && s.tickets[t].given
    ensures var s := After(size, start, schedule);
      && |s.workers| > 0
      && Occurs(Tasks(s.workers[HomeIn(s, t)].worked), t) == 1
      && Occurs(s.finished, t) == Occurs(Ended(s.workers[HomeIn(s, t)].worked, true), t)
  {
    AfterInv(size, start, schedule);
    TaskIsInOnePlace(size, start, schedule, t);
    RestingPlaces(After(size, start, schedule), t);
  }

  lemma RestingPlaces(s: State, t: Task)
    requires Inv(s) && AtRest(s)
    ensures var k := s.workers[HomeIn(s, t)];
      && Places(s, t) == Occurs(Tasks(k.worked), t)
      && Occurs(s.finished, t) == Occurs(Ended(k.worked, true), t)
  {
    hide Ended, Tasks, Of, Home;
    var w := HomeIn(s, t);
    assert WorkerOk(s, w);
    EndedCounts(s.workers[w].worked, t);
    assert Added(s) == s.finished && InHand(s.workers[w]) == [];
    OccursIn(Of(s.start, |s.workers|, s.finished, w), [], t);
    OfCounts(s.start, |s.workers|, s.finished, w, t);
  }

  // ---------- load ----------

  /** The number of submissions that drew worker `w`. */
  function Load(tickets: seq<Ticket>, w: nat): nat {
    if tickets == [] then 0
    else Load(tickets[..|tickets| - 1], w) + if tickets[|tickets| - 1].worker == w then 1 else 0
  }

  /** The numbers below `h` that leave remainder `w`, and how many there are. */
  function Below(h: nat, size: nat, w: nat): nat
    requires size > 0
  {
    if h == 0 then 0 else Below(h - 1, size, w) + if (h - 1) % size == w then 1 else 0
  }

  lemma DivNext(h: nat, size: nat)
    requires size > 0
    ensures if h % size == size - 1 then (h + 1) / size == h / size + 1 && (h + 1) % size == 0
            else (h + 1) / size == h / size && (h + 1) % size == h % size + 1
  {
    var q, r := h / size, h % size;
    Distribute(size, q, 1);
    if r == size - 1 {
      RemainderIs(h + 1, q + 1, 0, size);
    } else {
      RemainderIs(h + 1, q, r + 1, size);
    }
  }

  lemma {:induction false} BelowIs(h: nat, size: nat, w: nat)
    requires w < size
    ensures Below(h, size, w) == h / size + if w < h % size then 1 else 0
  {
    if h == 0 {
      RemainderIs(0, 0, 0, size);
    } else {
      BelowIs(h - 1, size, w);
      DivNext(h - 1, size);
    }
  }

  lemma Draws(start: nat, n: nat)
    requires start < UINT32 && n < UINT32
    ensures (start + n) % UINT32 == if start + n < UINT32 then start + n else start + n - UINT32
  {
  }

  /** Before and after the counter has wrapped. */
  lemma {:induction false} LoadIs(tickets: seq<Ticket>, start: nat, size: nat, w: nat)
    requires w < size && start < UINT32 && |tickets| <= UINT32
    requires forall t :: 0 <= t < |tickets| ==> tickets[t].worker == Home(start, size, t)
    ensures var end := start + |tickets|;
      Load(tickets, w) == (if end <= UINT32 then Below(end, size, w)
                           else Below(UINT32, size, w) + Below(end - UINT32, size, w)) - Below(start, size, w)
  {
    if tickets != [] {
      var n := |tickets| - 1;
      LoadIs(tickets[..n], start, size, w);
      Draws(start, n);
      assert tickets[n].worker == Home(start, size, n);
    }
  }

  lemma LoadsOf(tickets: seq<Ticket>, start: nat, size: nat, a: nat, b: nat)
    requires a < b < size && start < UINT32 && |tickets| <= UINT32
    requires forall t :: 0 <= t < |tickets| ==> tickets[t].worker == Home(start, size, t)
    ensures -1 <= Load(tickets, a) - Load(tickets, b) <= 2
    ensures start + |tickets| <= UINT32 || UINT32 % size == 0 ==> Load(tickets, a) - Load(tickets, b) <= 1
  {
    var end := start + |tickets|;
    LoadIs(tickets, start, size, a);
    LoadIs(tickets, start, size, b);
    BelowIs(start, size, a);
    BelowIs(start, size, b);
    BelowIs(UINT32, size, a);
    BelowIs(UINT32, size, b);
    BelowIs(if end <= UINT32 then end else end - UINT32, size, a);
    BelowIs(if end <= UINT32 then end else end - UINT32, size, b);
  }

  /** Over up to 2^32 submissions the loads of two workers differ by two at most, though the counter may wrap; by one
      at most when it does not wrap, or when the number of workers divides 2^32. */
  lemma LoadsAreBalanced(size: nat, start: nat, schedule: seq<Action>, a: nat, b: nat)
    requires a < size && b < size && start < UINT32 && |After(size, start, schedule).tickets| <= UINT32
    ensures var tickets := After(size, start, schedule).tickets;
      && -2 <= Load(tickets, a) - Load(tickets, b) <= 2
      && (start + |tickets| <= UINT32 || UINT32 % size == 0 ==> -1 <= Load(tickets, a) - Load(tickets, b) <= 1)
  {
    var s := After(size, start, schedule);
    AfterInv(size, start, schedule);
    SizeStays(size, start, schedule);
    forall t | 0 <= t < |s.tickets| ensures s.tickets[t].worker == Home(start, size, t) { assert TicketOk(s, t); }
    if a < b { LoadsOf(s.tickets, start, size, a, b); }
    if b < a { LoadsOf(s.tickets, start, size, b, a); }
  }

  /** Two it can be: with three workers, a counter about to wrap gives its next two submissions to worker 0. */
  lemma LoadsMayDifferByTwo()
    ensures var tickets := After(3, UINT32 - 1, [Draw(0, true), Draw(1, true)]).tickets;
      Load(tickets, 0) == 2 && Load(tickets, 1) == 0
  {
    var s := Initial(3, UINT32 - 1);
    var s1 := Step(s, Draw(0, true));
    var s2 := Step(s1, Draw(1, true));
    RunOne(Step, s, [], Draw(0, true));
    RunOne(Step, s, [Draw(0, true)], Draw(1, true));
    assert [] + [Draw(0, true)] == [Draw(0, true)];
    assert [Draw(0, true)] + [Draw(1, true)] == [Draw(0, true), Draw(1, true)];
    assert s1.tickets == [Ticket(0, 0, true)] && s2.tickets == [Ticket(0, 0, true), Ticket(1, 0, true)];
    LoadOfTwo(0);
    LoadOfTwo(1);
  }

  lemma LoadOfTwo(w: nat)
    ensures Load([Ticket(0, 0, true), Ticket(1, 0, true)], w) == if w == 0 then 2 else 0
  {
    var two, one := [Ticket(0, 0, true), Ticket(1, 0, true)], [Ticket(0, 0, true)];
    assert two[..1] == one && one[..0] == [];
    assert Load(one, w) == Load([], w) + if w == 0 then 1 else 0;
  }
}
