/** In which order tasks are queued, worked on and completed: the tasks of one client in the order of their submission,
    those of two clients if one submission has ended before the other begins. */
module TaskOrder {
  import opened Machines
  import opened Modular
  import opened TaskPools
  import opened TaskPoolTheorems

  /** If both are tasks of one client, `t` was submitted before `u`. */
  predicate InTurn(tickets: seq<Ticket>, t: Task, u: Task) {
    t < |tickets| && u < |tickets| && tickets[t].client == tickets[u].client ==> t < u
  }

  /** Every two tasks stand in this relation, the one in front first. */
  ghost predicate InOrder(rel: (Task, Task) -> bool, tasks: seq<Task>) {
    forall i, j :: 0 <= i < j < |tasks| ==> rel(tasks[i], tasks[j])
  }

  ghost predicate ByClient(tickets: seq<Ticket>, tasks: seq<Task>) { InOrder((t: Task, u: Task) => InTurn(tickets, t, u), tasks) }

  /** What is in the queue of a worker, or was, comes before what client `c` is submitting. */
  ghost predicate CallLast(s: State, c: Client, w: nat)
    requires c in s.calls && w < |s.workers|
  {
    forall t :: t in s.workers[w].queued ==> InTurn(s.tickets, t, s.calls[c])
  }

  ghost predicate OwnCall(s: State, c: Client)
    requires c in s.calls
  {
    s.calls[c] < |s.tickets| && s.tickets[s.calls[c]].client == c
  }

  ghost predicate Ordered(s: State) {
    && (forall w :: 0 <= w < |s.workers| ==> ByClient(s.tickets, s.workers[w].queued))
    && (forall c :: c in s.calls ==> OwnCall(s, c))
    && (forall c, w :: c in s.calls && 0 <= w < |s.workers| ==> CallLast(s, c, w))
  }

  lemma DrawKeepsOrder(s: State, c: Client, given: bool)
    requires Inv(s) && Ordered(s)
    ensures Ordered(Step(s, Draw(c, given)))
  {
    if c !in s.calls {
      var r := Step(s, Draw(c, given));
      forall w, t | 0 <= w < |s.workers| && t in s.workers[w].queued ensures t < |s.tickets| {
        assert WorkerOk(s, w) && Queueable(s, t, w);
      }
      forall w | 0 <= w < |r.workers| ensures ByClient(r.tickets, r.workers[w].queued) {
        var q := s.workers[w].queued;
        assert ByClient(s.tickets, q);
        forall i, j | 0 <= i < j < |q| ensures InTurn(r.tickets, q[i], q[j]) {
          assert InTurn(s.tickets, q[i], q[j]) && q[i] in q && q[j] in q;
        }
      }
      forall d | d in r.calls ensures OwnCall(r, d) { assert d != c ==> OwnCall(s, d); }
      forall d, w | d in r.calls && 0 <= w < |r.workers| ensures CallLast(r, d, w) {
        if d != c { assert OwnCall(s, d) && CallLast(s, d, w); }
        forall t | t in r.workers[w].queued ensures InTurn(r.tickets, t, r.calls[d]) {
          assert d != c ==> InTurn(s.tickets, t, s.calls[d]);
        }
      }
    }
  }

  lemma PutKeepsOrder(s: State, c: Client)
    requires Inv(s) && Ordered(s) && c in s.calls
    ensures Ordered(Step(s, Put(c)))
  {
    var r, t := Step(s, Put(c)), s.calls[c];
    assert OwnCall(s, c);
    forall w | 0 <= w < |r.workers| ensures ByClient(r.tickets, r.workers[w].queued) {
      var q, p := s.workers[w].queued, r.workers[w].queued;
      assert CallLast(s, c, w) && ByClient(s.tickets, q);
      forall i, j | 0 <= i < j < |p| ensures InTurn(r.tickets, p[i], p[j]) {
        if j < |q| { assert InTurn(s.tickets, q[i], q[j]); } else { assert p[i] == q[i] && p[j] == t; }
      }
    }
    forall d | d in r.calls ensures OwnCall(r, d) { assert OwnCall(s, d); }
    forall d, w | d in r.calls && 0 <= w < |r.workers| ensures CallLast(r, d, w) {
      assert OwnCall(s, d) && CallLast(s, d, w);
    }
  }

  lemma OtherKeepsOrder(s: State, a: Action)
    requires Ordered(s) && !a.Draw? && !a.Put?
    ensures Ordered(Step(s, a))
  {
    var r := Step(s, a);
    assert r.tickets == s.tickets && r.calls == s.calls && |r.workers| == |s.workers|;
    forall w | 0 <= w < |r.workers| ensures r.workers[w].queued == s.workers[w].queued {}
    hide Step;
    forall c | c in r.calls ensures OwnCall(r, c) { assert OwnCall(s, c); }
    forall c, w | c in r.calls && 0 <= w < |r.workers| ensures CallLast(r, c, w) { assert CallLast(s, c, w); }
  }

  lemma {:induction false} RunKeepsOrder(s: State, schedule: seq<Action>)
    requires Inv(s) && Ordered(s)
    ensures Ordered(Run(Step, s, schedule))
    decreases |schedule|
  {
    if schedule != [] {
      var a := schedule[0];
      StepKeeps(s, a);
      match a {
        case Draw(c, given) => DrawKeepsOrder(s, c, given);
        case Put(c) => if c in s.calls { PutKeepsOrder(s, c); }
        case _ => OtherKeepsOrder(s, a);
      }
      hide Step, Inv, Ordered;
      RunKeepsOrder(Step(s, a), schedule[1..]);
    }
  }

  lemma {:induction false} EndedKeepOrder(rel: (Task, Task) -> bool, worked: seq<Work>, ok: bool)
    requires InOrder(rel, Tasks(worked))
    ensures InOrder(rel, Ended(worked, ok))
  {
    if worked != [] {
      var n := |worked| - 1;
      var front, e, f := Tasks(worked[..n]), Ended(worked[..n], ok), Ended(worked, ok);
      WorkNext(worked);
      EndedKeepOrder(rel, worked[..n], ok);
      forall i, j | 0 <= i < j < |f| ensures rel(f[i], f[j]) {
        if j < |e| {
          assert rel(e[i], e[j]);
        } else {
          EndedAreTasks(worked[..n], ok, e[i]);
          var k :| 0 <= k < |front| && front[k] == e[i];
          assert rel(Tasks(worked)[k], Tasks(worked)[n]);
        }
      }
    }
  }

  lemma PrefixKeepsOrder(rel: (Task, Task) -> bool, tasks: seq<Task>, front: seq<Task>)
    requires InOrder(rel, tasks) && front <= tasks
    ensures InOrder(rel, front)
  {
  }

  /** Whatever order a worker's queue has, the work and the completions have it too. */
  ghost predicate OrderAt(s: State, w: nat, rel: (Task, Task) -> bool) {
    && w < |s.workers| && InOrder(rel, s.workers[w].queued) && InOrder(rel, Tasks(s.workers[w].worked))
    && InOrder(rel, Of(s.start, |s.workers|, s.finished, w))
  }

  lemma QueueOrderLasts(size: nat, start: nat, schedule: seq<Action>, w: nat, rel: (Task, Task) -> bool)
    requires w < size && start < UINT32
    requires var s := After(size, start, schedule); w < |s.workers| ==> InOrder(rel, s.workers[w].queued)
    ensures OrderAt(After(size, start, schedule), w, rel)
  {
    var s := After(size, start, schedule);
    DoneInOrder(size, start, schedule, w);
    var k := s.workers[w];
    PrefixKeepsOrder(rel, k.queued, Tasks(k.worked));
    EndedKeepOrder(rel, k.worked, true);
    PrefixKeepsOrder(rel, Ended(k.worked, true), Of(s.start, |s.workers|, s.finished, w));
  }

  lemma InitiallyOrdered(size: nat, start: nat)
    ensures Ordered(Initial(size, start))
  {
  }

  /** After every interleaving the tasks of one client that drew one worker are queued there, worked on and completed in
      the order in which the client submitted them. */
  lemma ClientsKeepTheirOrder(size: nat, start: nat, schedule: seq<Action>, w: nat)
    requires w < size && start < UINT32
    ensures var s := After(size, start, schedule);
      && w < |s.workers|
      && ByClient(s.tickets, s.workers[w].queued)
      && ByClient(s.tickets, Tasks(s.workers[w].worked))
      && ByClient(s.tickets, Of(s.start, |s.workers|, s.finished, w))
  {
    var s := After(size, start, schedule);
    InitialInv(size, start);
    InitiallyOrdered(size, start);
    RunKeepsOrder(Initial(size, start), schedule);
    QueueOrderLasts(size, start, schedule, w, (t: Task, u: Task) => InTurn(s.tickets, t, u));
  }

  // ---------- any two submissions ----------

  /** `u` does not stand in front of `t`. */
  function NotAfter(t: Task, u: Task): (Task, Task) -> bool { (a: Task, b: Task) => !(a == u && b == t) }

  /** The submission of `t` has ended. */
  ghost predicate HasEnded(s: State, t: Task) { t < |s.tickets| && t !in s.calls.Values }

  lemma StepKeepsBefore(s: State, a: Action, w: nat, t: Task, u: Task)
    requires HasEnded(s, t) && w < |s.workers| && InOrder(NotAfter(t, u), s.workers[w].queued)
    ensures var r := Step(s, a); HasEnded(r, t) && w < |r.workers| && InOrder(NotAfter(t, u), r.workers[w].queued)
  {
    var r := Step(s, a);
    if t in r.calls.Values {
      var c :| c in r.calls && r.calls[c] == t;
      assert c in s.calls ==> s.calls[c] != t;
    }
    var q, p := s.workers[w].queued, r.workers[w].queued;
    assert |p| > |q| ==> a.Put? && a.client in s.calls && p == q + [s.calls[a.client]] && s.calls[a.client] != t;
    forall i, j | 0 <= i < j < |p| ensures NotAfter(t, u)(p[i], p[j]) {
      assert j < |q| ==> NotAfter(t, u)(q[i], q[j]);
    }
  }

  lemma {:induction false} RunKeepsBefore(s: State, later: seq<Action>, w: nat, t: Task, u: Task)
    requires HasEnded(s, t) && w < |s.workers| && InOrder(NotAfter(t, u), s.workers[w].queued)
    ensures var r := Run(Step, s, later); w < |r.workers| && InOrder(NotAfter(t, u), r.workers[w].queued)
    decreases |later|
  {
    if later != [] {
      StepKeepsBefore(s, later[0], w, t, u);
      RunKeepsBefore(Step(s, later[0]), later[1..], w, t, u);
    }
  }

  /** Whoever the clients are: a submission that has ended before another one draws is queued, worked on and completed
      before it, if they go to one worker. */
  lemma EndedGoesFirst(size: nat, start: nat, schedule: seq<Action>, later: seq<Action>, t: Task, u: Task, w: nat)
    requires w < size && start < UINT32
    requires var s := After(size, start, schedule); HasEnded(s, t) && |s.tickets| <= u
    ensures OrderAt(After(size, start, schedule + later), w, NotAfter(t, u))
  {
    var s := After(size, start, schedule);
    AfterInv(size, start, schedule);
    SizeStays(size, start, schedule);
    RunAppend(Step, Initial(size, start), schedule, later);
    var q := s.workers[w].queued;
    forall i, j | 0 <= i < j < |q| ensures NotAfter(t, u)(q[i], q[j]) {
      assert WorkerOk(s, w) && q[i] in q && Queueable(s, q[i], w);
    }
    RunKeepsBefore(s, later, w, t, u);
    QueueOrderLasts(size, start, schedule + later, w, NotAfter(t, u));
  }

  ghost predicate KeptBefore(size: nat, start: nat, schedule: seq<Action>, w: nat, t: Task, u: Task) {
    w < size ==> OrderAt(After(size, start, schedule), w, NotAfter(t, u))
  }

  lemma TwoHomes(size: nat, start: nat, schedule: seq<Action>, w: nat, t: Task, u: Task)
    requires size > 0 && start < UINT32 && Home(start, size, t) != Home(start, size, u)
    ensures KeptBefore(size, start, schedule, w, t, u)
  {
    if w < size {
      var s := After(size, start, schedule);
      AfterInv(size, start, schedule);
      SizeStays(size, start, schedule);
      var q := s.workers[w].queued;
      forall i, j | 0 <= i < j < |q| ensures NotAfter(t, u)(q[i], q[j]) {
        assert WorkerOk(s, w) && q[i] in q && q[j] in q && Queueable(s, q[i], w) && Queueable(s, q[j], w);
      }
      QueueOrderLasts(size, start, schedule, w, NotAfter(t, u));
    }
  }

  lemma PutAtHome(s: State, c: Client)
    requires Inv(s) && c in s.calls && s.calls[c] < |s.tickets| && s.tickets[s.calls[c]].given
    ensures var r, w := Step(s, Put(c)), HomeIn(s, s.calls[c]);
      && |r.workers| == |s.workers| && r.workers[w].queued == s.workers[w].queued + [s.calls[c]]
      && r.start == s.start && r.tickets == s.tickets && r.calls == s.calls - {c}
  {
    assert TicketOk(s, s.calls[c]);
  }

  /** A submission still under way can be overtaken by one that draws now and goes to the same worker. */
  lemma Overtaking(size: nat, start: nat, schedule: seq<Action>, c: Client, d: Client) returns (later: seq<Action>)
    requires size > 0 && start < UINT32
    requires var s := After(size, start, schedule);
      && c in s.calls && d !in s.calls && s.calls[c] < |s.tickets| && s.tickets[s.calls[c]].given
      && Home(start, size, s.calls[c]) == Home(start, size, |s.tickets|)
    ensures var s := After(size, start, schedule);
      !KeptBefore(size, start, schedule + [Draw(d, true)] + later, Home(start, size, s.calls[c]), s.calls[c], |s.tickets|)
  {
    later := [Put(d), Put(c)];
    var s0 := After(size, start, schedule);
    var t, u, w := s0.calls[c], |s0.tickets|, Home(start, size, s0.calls[c]);
    AfterInv(size, start, schedule);
    SizeStays(size, start, schedule);
    var s1 := Step(s0, Draw(d, true));
    StepKeeps(s0, Draw(d, true));
    assert s1.calls[d] == u && s1.calls[c] == t && |s1.workers| == size && s1.tickets[u].given && s1.start == start;
    var s2 := Step(s1, Put(d));
    StepKeeps(s1, Put(d));
    hide Step, Inv, Home;
    PutAtHome(s1, d);
    var s3 := Step(s2, Put(c));
    PutAtHome(s2, c);
    var front := schedule + [Draw(d, true)];
    assert front + later == front + [Put(d)] + [Put(c)];
    RunOne(Step, Initial(size, start), schedule, Draw(d, true));
    RunOne(Step, Initial(size, start), front, Put(d));
    RunOne(Step, Initial(size, start), front + [Put(d)], Put(c));
    var q, k := s3.workers[w].queued, |s1.workers[w].queued|;
    assert q[k] == u && q[k + 1] == t && !NotAfter(t, u)(q[k], q[k + 1]);
  }

  /** A submission that draws now stays behind an earlier one, whatever happens then, exactly if the earlier one has ended,
      has no task, or goes to another worker. */
  lemma OrderIsCertainExactly(size: nat, start: nat, schedule: seq<Action>, d: Client, t: Task)
    requires size > 0 && start < UINT32
    requires var s := After(size, start, schedule); d !in s.calls && t < |s.tickets|
    ensures var s := After(size, start, schedule);
      (forall later, w :: KeptBefore(size, start, schedule + [Draw(d, true)] + later, w, t, |s.tickets|))
      <==> HasEnded(s, t) || !s.tickets[t].given || Home(start, size, t) != Home(start, size, |s.tickets|)
  {
    var s := After(size, start, schedule);
    var u := |s.tickets|;
    if t in s.calls.Values && s.tickets[t].given && Home(start, size, t) == Home(start, size, u) {
      var c :| c in s.calls && s.calls[c] == t;
      var later := Overtaking(size, start, schedule, c, d);
    } else {
      forall later, w ensures KeptBefore(size, start, schedule + [Draw(d, true)] + later, w, t, u) {
        StaysBehind(size, start, schedule, [Draw(d, true)] + later, w, t);
        assert schedule + ([Draw(d, true)] + later) == schedule + [Draw(d, true)] + later;
      }
    }
  }

  lemma StaysBehind(size: nat, start: nat, schedule: seq<Action>, later: seq<Action>, w: nat, t: Task)
    requires size > 0 && start < UINT32
    requires var s := After(size, start, schedule);
      t < |s.tickets| && (HasEnded(s, t) || !s.tickets[t].given || Home(start, size, t) != Home(start, size, |s.tickets|))
    ensures KeptBefore(size, start, schedule + later, w, t, |After(size, start, schedule).tickets|)
  {
    var s := After(size, start, schedule);
    var u := |s.tickets|;
    if Home(start, size, t) != Home(start, size, u) {
      TwoHomes(size, start, schedule + later, w, t, u);
    } else if HasEnded(s, t) {
      if w < size { EndedGoesFirst(size, start, schedule, later, t, u, w); }
    } else if w < size {
      NeverQueued(size, start, schedule, later, w, t, u);
    }
  }

  /** A null task is in no queue, so nothing overtakes it. */
  lemma NeverQueued(size: nat, start: nat, schedule: seq<Action>, later: seq<Action>, w: nat, t: Task, u: Task)
    requires w < size && start < UINT32
    requires var s := After(size, start, schedule); t < |s.tickets| && !s.tickets[t].given
    ensures OrderAt(After(size, start, schedule + later), w, NotAfter(t, u))
  {
    var s, r := After(size, start, schedule), After(size, start, schedule + later);
    AfterInv(size, start, schedule + later);
    SizeStays(size, start, schedule + later);
    RunAppend(Step, Initial(size, start), schedule, later);
    TicketsStay(s, later);
    var q := r.workers[w].queued;
    forall i, j | 0 <= i < j < |q| ensures NotAfter(t, u)(q[i], q[j]) {
      assert WorkerOk(r, w) && q[j] in q && Queueable(r, q[j], w);
    }
    QueueOrderLasts(size, start, schedule + later, w, NotAfter(t, u));
  }

  lemma {:induction false} TicketsStay(s: State, later: seq<Action>)
    ensures s.tickets <= Run(Step, s, later).tickets
    decreases |later|
  {
    if later != [] {
      assert s.tickets <= Step(s, later[0]).tickets;
      TicketsStay(Step(s, later[0]), later[1..]);
    }
  }
}
