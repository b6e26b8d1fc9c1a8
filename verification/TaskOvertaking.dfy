/** A run in which the tasks of two clients change their order. */
module TaskOvertaking {
  import opened Machines
  import opened TaskPools
  import opened Wrappers

  lemma RunFirst(s: State, a: Action, rest: seq<Action>)
    ensures Run(Step, s, [a] + rest) == Run(Step, Step(s, a), rest)
  {
    assert ([a] + rest)[1..] == rest;
  }

  /** The steps of a pool of one worker. */
  lemma PutAlone(s: State, c: Client)
    requires |s.workers| == 1 && c in s.calls && s.calls[c] < |s.tickets| && s.tickets[s.calls[c]].given
    requires s.tickets[s.calls[c]].worker == 0
    ensures var k, t := s.workers[0], s.calls[c];
      Step(s, Put(c)) == s.(calls := s.calls - {c}, workers := [k.(queue := k.queue + [t], queued := k.queued + [t])])
  {
  }

  lemma WorkAlone(s: State)
    requires |s.workers| == 1 && s.workers[0].batch != [] && s.workers[0].hand == None
    ensures Step(s, DoWork(0, true)) == s.(workers := [Worked(s.workers[0], true)])
  {
  }

  lemma TurnAlone(s: State) returns (r: State)
    requires |s.workers| == 1 && s.workers[0].batch != [] && s.workers[0].hand == None
    ensures r == Run(Step, s, [DoWork(0, true), AddDone(0)])
    ensures r.workers == [Worked(s.workers[0], true).(hand := None)]
    ensures r == s.(workers := r.workers, doneQueue := s.doneQueue + [s.workers[0].batch[0]])
  {
    WorkAlone(s);
    var s1 := Step(s, DoWork(0, true));
    r := Step(s1, AddDone(0));
    RunFirst(s, DoWork(0, true), [AddDone(0)]);
    RunSingle(Step, s1, AddDone(0));
    assert [DoWork(0, true)] + [AddDone(0)] == [DoWork(0, true), AddDone(0)];
  }

  lemma Overtaken() returns (r: State)
    ensures r == Run(Step, Initial(1, 0), [Draw(0, true), Draw(1, true), Put(1), Put(0)])
    ensures r.doneQueue == [] && r.mainBatch == [] && r.finished == []
    ensures r.workers == [Worker([1, 0], [], None, [1, 0], [])]
  {
    var s := Initial(1, 0);
    var s1 := Step(s, Draw(0, true));
    var s2 := Step(s1, Draw(1, true));
    assert s2.calls == map[0 := 0, 1 := 1] && s2.tickets == [Ticket(0, 0, true), Ticket(1, 0, true)];
    assert s2.workers == [Worker([], [], None, [], [])];
    assert s2.doneQueue == [] && s2.mainBatch == [] && s2.finished == [];
    hide Step, Initial;
    PutAlone(s2, 1);
    var s3 := Step(s2, Put(1));
    PutAlone(s3, 0);
    r := Step(s3, Put(0));
    assert r.workers[0].queue == [1, 0] && r.workers[0].queued == [1, 0];
    RunFirst(s, Draw(0, true), [Draw(1, true), Put(1), Put(0)]);
    RunFirst(s1, Draw(1, true), [Put(1), Put(0)]);
    RunFirst(s2, Put(1), [Put(0)]);
    RunSingle(Step, s3, Put(0));
    assert [Draw(0, true)] + [Draw(1, true), Put(1), Put(0)] == [Draw(0, true), Draw(1, true), Put(1), Put(0)];
    assert [Draw(1, true)] + [Put(1), Put(0)] == [Draw(1, true), Put(1), Put(0)] && [Put(1)] + [Put(0)] == [Put(1), Put(0)];
  }

  lemma BothWorkedOn(s: State) returns (r: State)
    requires s.workers == [Worker([1, 0], [], None, [1, 0], [])]
    requires s.doneQueue == [] && s.mainBatch == [] && s.finished == []
    ensures r == Run(Step, s, [Take(0), DoWork(0, true), AddDone(0), DoWork(0, true), AddDone(0)])
    ensures r.doneQueue == [1, 0] && r.mainBatch == [] && r.finished == []
  {
    var turn := [DoWork(0, true), AddDone(0)];
    var s1 := Step(s, Take(0));
    assert s1 == s.(workers := [Worker([], [1, 0], None, [1, 0], [])]);
    hide Step, Run;
    var s2 := TurnAlone(s1);
    assert s2.workers[0].batch == [0];
    r := TurnAlone(s2);
    RunFirst(s, Take(0), turn + turn);
    RunAppend(Step, s1, turn, turn);
    assert [Take(0)] + (turn + turn) == [Take(0), DoWork(0, true), AddDone(0), DoWork(0, true), AddDone(0)];
  }

  lemma BothCompleted(s: State)
    requires s.doneQueue == [1, 0] && s.mainBatch == [] && s.finished == []
    ensures Run(Step, s, [MainTake, MainDone, MainDone]).finished == [1, 0]
  {
    var s1 := Step(s, MainTake);
    var s2 := Step(s1, MainDone);
    RunFirst(s, MainTake, [MainDone, MainDone]);
    RunFirst(s1, MainDone, [MainDone]);
    RunSingle(Step, s2, MainDone);
    assert [MainTake] + [MainDone, MainDone] == [MainTake, MainDone, MainDone] && [MainDone] + [MainDone] == [MainDone, MainDone];
  }

  /** Two clients, one worker: the one that draws second puts first, and its task is completed first. */
  lemma ClientsMayOvertake()
    ensures After(1, 0, [Draw(0, true), Draw(1, true), Put(1), Put(0), Take(0), DoWork(0, true), AddDone(0),
                         DoWork(0, true), AddDone(0), MainTake, MainDone, MainDone]).finished == [1, 0]
  {
    var s0 := Initial(1, 0);
    var s2 := Overtaken();
    var s4 := BothWorkedOn(s2);
    hide Step, Initial;
    var drawn := [Draw(0, true), Draw(1, true), Put(1), Put(0)];
    var worked := [Take(0), DoWork(0, true), AddDone(0), DoWork(0, true), AddDone(0)];
    var done := [MainTake, MainDone, MainDone];
    RunAppend(Step, s0, drawn, worked + done);
    RunAppend(Step, s2, worked, done);
    BothCompleted(s4);
    assert drawn + (worked + done) == [Draw(0, true), Draw(1, true), Put(1), Put(0), Take(0), DoWork(0, true), AddDone(0),
                                       DoWork(0, true), AddDone(0), MainTake, MainDone, MainDone];
  }
}
