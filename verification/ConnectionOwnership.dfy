/** Who owns a connection, over any run of the pool's locked sections. */
module ConnectionOwnership {
  import opened Machines
  import opened ConnectionPool

  type Client = nat

  /** A grabbed connection that was neither released nor removed yet, and who holds it. */
  datatype Lease = Lease(client: Client, conn: Conn)

  datatype State = State(pool: Pool, leases: seq<Lease>)

  /** The locked sections. A client gives back a lease by its place among the leases, so it can give back only what it
      holds, and only once. `exchange` is Discard then Take; `safe_grab` is Take and Discard in turn until a Take. */
  datatype Action =
    | Take(client: Client, now: int, later: int)   // grab
    | GiveBack(lease: nat, now: int)               // release
    | Discard(lease: nat)                          // remove
    | Shrink                                       // shrink

  function Initial(): State { State(Pool([], 0, []), []) }

  function Minus(leases: seq<Lease>, i: nat): seq<Lease>
    requires i < |leases|
  {
    leases[..i] + leases[i + 1..]
  }

  function Step(s: State, a: Action): State {
    match a
    case Take(client, now, later) =>
      var (p, c) := Grab(s.pool, now, later);
      State(p, s.leases + [Lease(client, c)])
    case GiveBack(i, now) =>
      if i >= |s.leases| then s else State(Release(s.pool, s.leases[i].conn, now), Minus(s.leases, i))
    case Discard(i) =>
      if i >= |s.leases| then s else State(Remove(s.pool, s.leases[i].conn), Minus(s.leases, i))
    case Shrink => s.(pool := Swept(s.pool, Idle))
  }

  function After(schedule: seq<Action>): State { Run(Step, Initial(), schedule) }

  // ---------- counting ----------

  ghost function Listed(list: seq<Info>): multiset<Conn> {
    if list == [] then multiset{} else multiset{list[0].conn} + Listed(list[1..])
  }

  ghost function Busy(list: seq<Info>): multiset<Conn> {
    if list == [] then multiset{} else (if list[0].inUse then multiset{list[0].conn} else multiset{}) + Busy(list[1..])
  }

  ghost function Held(leases: seq<Lease>): multiset<Conn> {
    if leases == [] then multiset{} else multiset{leases[0].conn} + Held(leases[1..])
  }

  lemma {:induction false} ListedAppend(a: seq<Info>, b: seq<Info>)
    ensures Listed(a + b) == Listed(a) + Listed(b) && Busy(a + b) == Busy(a) + Busy(b)
  {
    if a == [] {
      assert a + b == b;
    } else {
      assert (a + b)[1..] == a[1..] + b;
      ListedAppend(a[1..], b);
    }
  }

  lemma {:induction false} HeldAppend(a: seq<Lease>, b: seq<Lease>)
    ensures Held(a + b) == Held(a) + Held(b)
  {
    if a == [] {
      assert a + b == b;
    } else {
      assert (a + b)[1..] == a[1..] + b;
      HeldAppend(a[1..], b);
    }
  }

  ghost function BusyOne(x: Info): multiset<Conn> { if x.inUse then multiset{x.conn} else multiset{} }

  lemma OneEntry(x: Info)
    ensures Listed([x]) == multiset{x.conn} && Busy([x]) == BusyOne(x)
  {
    assert [x][1..] == [];
  }

  lemma TakenOut(list: seq<Info>, i: nat)
    requires i < |list|
    ensures Listed(list) == Listed(Without(list, i)) + multiset{list[i].conn}
    ensures Busy(list) == Busy(Without(list, i)) + BusyOne(list[i])
  {
    PutAt(list, i, list[i]);
    assert list[i := list[i]] == list;
  }

  lemma PutAt(list: seq<Info>, i: nat, x: Info)
    requires i < |list|
    ensures Listed(list[i := x]) == Listed(Without(list, i)) + multiset{x.conn}
    ensures Busy(list[i := x]) == Busy(Without(list, i)) + BusyOne(x)
  {
    var before, after := list[..i], list[i + 1..];
    assert list[i := x] == before + ([x] + after);
    OneEntry(x);
    ListedAppend([x], after);
    ListedAppend(before, [x] + after);
    ListedAppend(before, after);
  }

  lemma OneLease(x: Lease)
    ensures Held([x]) == multiset{x.conn}
  {
    assert [x][1..] == [];
  }

  lemma LeaseTakenOut(leases: seq<Lease>, i: nat)
    requires i < |leases|
    ensures Held(leases) == Held(Minus(leases, i)) + multiset{leases[i].conn}
  {
    hide Held;
    var before, x, after := leases[..i], leases[i], leases[i + 1..];
    assert leases == before + ([x] + after);
    OneLease(x);
    HeldAppend([x], after);
    HeldAppend(before, [x] + after);
    HeldAppend(before, after);
    Regroup(Held(before), multiset{x.conn}, Held(after));
  }

  lemma {:induction false} BusyIsListed(list: seq<Info>)
    ensures Busy(list) <= Listed(list)
  {
    if list != [] { BusyIsListed(list[1..]); }
  }

  lemma PutFirst(c: Conn, cs: seq<Conn>)
    ensures multiset([c] + cs) == multiset{c} + multiset(cs)
  {
  }

  lemma {:induction false} SweepMoves(list: seq<Info>, how: Sweep)
    ensures Listed(Kept(list, how)) + multiset(Gone(list, how)) == Listed(list)
    ensures how != All ==> Busy(Kept(list, how)) == Busy(list)
  {
    if list != [] {
      var x, rest := list[0], list[1..];
      var kept, gone := Kept(rest, how), Gone(rest, how);
      SweepMoves(rest, how);
      if Leaves(x, how) {
        assert Kept(list, how) == kept && Gone(list, how) == [x.conn] + gone;
        PutFirst(x.conn, gone);
        Regroup(Listed(kept), multiset{x.conn}, multiset(gone));
      } else {
        assert Gone(list, how) == gone && Kept(list, how) == [x] + kept;
        OneEntry(x);
        ListedAppend([x], kept);
        Regroup(multiset{x.conn}, Listed(kept), multiset(gone));
      }
    }
  }

  lemma Regroup(a: multiset<Conn>, b: multiset<Conn>, c: multiset<Conn>)
    ensures a + (b + c) == b + (a + c) && (a + b) + c == a + (b + c)
  {
  }

  // ---------- the invariant ----------

  /** Every connection in the list or destroyed, with how often it occurs. */
  ghost function Everything(p: Pool): multiset<Conn> { Listed(p.list) + multiset(p.destroyed) }

  /** Every connection created is in the list once, or destroyed once, and never both. */
  ghost predicate Accounted(p: Pool) { forall c: Conn :: Everything(p)[c] == if c < p.created then 1 else 0 }

  /** And those marked in use are those held, each by one lease. */
  ghost predicate Inv(s: State) { Accounted(s.pool) && Busy(s.pool.list) == Held(s.leases) }

  lemma SweepKeeps(p: Pool, how: Sweep)
    requires Accounted(p)
    ensures Accounted(Swept(p, how)) && (how != All ==> Busy(Swept(p, how).list) == Busy(p.list))
  {
    SweepMoves(p.list, how);
    assert multiset(p.destroyed + Gone(p.list, how)) == multiset(p.destroyed) + multiset(Gone(p.list, how));
    assert Everything(Swept(p, how)) == Everything(p);
  }

  lemma UseKeeps(p: Pool, i: nat)
    requires i < |p.list| && Accounted(p) && !p.list[i].inUse
    ensures var q := p.(list := Use(p.list, i)); Accounted(q) && Busy(q.list) == Busy(p.list) + multiset{p.list[i].conn}
  {
    TakenOut(p.list, i);
    PutAt(p.list, i, p.list[i].(inUse := true));
    assert Everything(p.(list := Use(p.list, i))) == Everything(p);
  }

  lemma CreateKeeps(p: Pool, later: int)
    requires Accounted(p)
    ensures var q := Pool(p.list + [Info(p.created, later, true)], p.created + 1, p.destroyed);
      Accounted(q) && Busy(q.list) == Busy(p.list) + multiset{p.created}
  {
    var x := Info(p.created, later, true);
    OneEntry(x);
    ListedAppend(p.list, [x]);
    assert Everything(Pool(p.list + [x], p.created + 1, p.destroyed)) == Everything(p) + multiset{p.created};
  }

  lemma GrabKeeps(p: Pool, now: int, later: int)
    requires Accounted(p)
    ensures var (q, c) := Grab(p, now, later); Accounted(q) && Busy(q.list) == Busy(p.list) + multiset{c}
  {
    hide Accounted, Busy;
    SweepKeeps(p, Older(now));
    var s := Swept(p, Older(now));
    match Mru(s.list)
    case Some(i) => UseKeeps(s, i);
    case None => CreateKeeps(s, later);
  }

  /** A connection in use has one entry, and `Find` finds it. */
  lemma FindsInUse(p: Pool, c: Conn)
    requires Accounted(p) && c in Busy(p.list)
    ensures Find(p.list, c) < |p.list| && p.list[Find(p.list, c)].inUse
  {
    var i := Find(p.list, c);
    BusyIsListed(p.list);
    if i == |p.list| {
      NotListed(p.list, c);
      assert false;
    }
    TakenOut(p.list, i);
    BusyIsListed(Without(p.list, i));
    assert Everything(p)[c] <= 1;
  }

  lemma {:induction false} NotListed(list: seq<Info>, c: Conn)
    requires forall i :: 0 <= i < |list| ==> list[i].conn != c
    ensures c !in Listed(list)
  {
    if list != [] { NotListed(list[1..], c); }
  }

  lemma ReleaseKeeps(p: Pool, c: Conn, now: int)
    requires Accounted(p) && c in Busy(p.list)
    ensures Accounted(Release(p, c, now)) && Busy(p.list) == Busy(Release(p, c, now).list) + multiset{c}
  {
    FindsInUse(p, c);
    var i := Find(p.list, c);
    TakenOut(p.list, i);
    PutAt(p.list, i, Info(c, now, false));
    assert Everything(Release(p, c, now)) == Everything(p);
  }

  lemma RemoveKeeps(p: Pool, c: Conn)
    requires Accounted(p) && c in Busy(p.list)
    ensures Accounted(Remove(p, c)) && Busy(p.list) == Busy(Remove(p, c).list) + multiset{c}
  {
    FindsInUse(p, c);
    TakenOut(p.list, Find(p.list, c));
    assert Everything(Remove(p, c)) == Everything(p);
  }

  lemma Cancel(a: multiset<Conn>, b: multiset<Conn>, c: Conn)
    requires a + multiset{c} == b + multiset{c}
    ensures a == b
  {
    forall x ensures a[x] == b[x] { assert (a + multiset{c})[x] == (b + multiset{c})[x]; }
  }

  lemma TakeKeeps(s: State, client: Client, now: int, later: int)
    requires Inv(s)
    ensures Inv(Step(s, Take(client, now, later)))
  {
    hide Accounted, Busy, Grab, Held;
    var lease := Lease(client, Grab(s.pool, now, later).1);
    GrabKeeps(s.pool, now, later);
    HeldAppend(s.leases, [lease]);
    OneLease(lease);
  }

  lemma HeldIsBusy(s: State, i: nat)
    requires Inv(s) && i < |s.leases|
    ensures s.leases[i].conn in Busy(s.pool.list)
  {
    LeaseTakenOut(s.leases, i);
  }

  lemma GiveBackKeeps(s: State, i: nat, now: int)
    requires Inv(s) && i < |s.leases|
    ensures Inv(Step(s, GiveBack(i, now)))
  {
    hide Accounted, Busy, Release, Held;
    var c := s.leases[i].conn;
    HeldIsBusy(s, i);
    LeaseTakenOut(s.leases, i);
    ReleaseKeeps(s.pool, c, now);
    Cancel(Busy(Release(s.pool, c, now).list), Held(Minus(s.leases, i)), c);
  }

  lemma DiscardKeeps(s: State, i: nat)
    requires Inv(s) && i < |s.leases|
    ensures Inv(Step(s, Discard(i)))
  {
    hide Accounted, Busy, Remove, Held;
    var c := s.leases[i].conn;
    HeldIsBusy(s, i);
    LeaseTakenOut(s.leases, i);
    RemoveKeeps(s.pool, c);
    Cancel(Busy(Remove(s.pool, c).list), Held(Minus(s.leases, i)), c);
  }

  lemma StepKeeps(s: State, a: Action)
    requires Inv(s)
    ensures Inv(Step(s, a))
  {
    match a
    case Take(client, now, later) => TakeKeeps(s, client, now, later);
    case GiveBack(i, now) => if i < |s.leases| { GiveBackKeeps(s, i, now); }
    case Discard(i) => if i < |s.leases| { DiscardKeeps(s, i); }
    case Shrink => SweepKeeps(s.pool, Idle);
  }

  lemma {:induction false} AfterInv(schedule: seq<Action>)
    ensures Inv(After(schedule))
  {
    forall s, a | Inv(s) ensures Inv(Step(s, a)) { StepKeeps(s, a); }
    RunKeeps(Step, s => Inv(s), Initial(), schedule);
  }

  // ---------- what that means ----------

  lemma {:induction false} CountsDiffer(leases: seq<Lease>, i: nat, j: nat)
    requires i < j < |leases| && leases[i].conn == leases[j].conn
    ensures Held(leases)[leases[i].conn] >= 2
  {
    LeaseTakenOut(leases, i);
    LeaseTakenOut(Minus(leases, i), j - 1);
  }

  /** After any run, a connection has at most one holder. */
  lemma OneHolder(schedule: seq<Action>, i: nat, j: nat)
    requires i < |After(schedule).leases| && j < |After(schedule).leases|
    requires After(schedule).leases[i].conn == After(schedule).leases[j].conn
    ensures i == j
  {
    var s := After(schedule);
    AfterInv(schedule);
    BusyIsListed(s.pool.list);
    assert Everything(s.pool)[s.leases[i].conn] <= 1;
    if i < j { CountsDiffer(s.leases, i, j); }
    if j < i { CountsDiffer(s.leases, j, i); }
  }

  /** After any run, nothing that is held has been destroyed. */
  lemma HeldIsAlive(schedule: seq<Action>, i: nat)
    requires i < |After(schedule).leases|
    ensures After(schedule).leases[i].conn !in After(schedule).pool.destroyed
  {
    var s := After(schedule);
    AfterInv(schedule);
    BusyIsListed(s.pool.list);
    LeaseTakenOut(s.leases, i);
    assert Everything(s.pool)[s.leases[i].conn] <= 1;
    assert s.leases[i].conn in Listed(s.pool.list);
    assert s.leases[i].conn !in multiset(s.pool.destroyed);
  }

  /** After any run, every connection created is in the list or destroyed, and was destroyed at most once. */
  lemma DestroyedOnce(schedule: seq<Action>, c: Conn)
    ensures var p := After(schedule).pool;
      && multiset(p.destroyed)[c] <= 1
      && (c < p.created <==> c in p.destroyed || exists x :: x in p.list && x.conn == c)
      && (c in p.destroyed ==> forall x :: x in p.list ==> x.conn != c)
  {
    var p := After(schedule).pool;
    AfterInv(schedule);
    assert Everything(p)[c] == if c < p.created then 1 else 0;
    InListed(p.list, c);
    assert c in p.destroyed <==> c in multiset(p.destroyed);
  }

  lemma {:induction false} InListed(list: seq<Info>, c: Conn)
    ensures c in Listed(list) <==> exists x :: x in list && x.conn == c
  {
    if list != [] { InListed(list[1..], c); }
  }

  /** When the pool is destructed, every connection it ever created has been destroyed exactly once. */
  lemma ClearDestroysAll(schedule: seq<Action>, c: Conn)
    ensures var p := Swept(After(schedule).pool, All);
      p.list == [] && multiset(p.destroyed)[c] == if c < p.created then 1 else 0
  {
    AfterInv(schedule);
    var p := After(schedule).pool;
    SweepKeeps(p, All);
    NoneKept(p.list);
    assert Everything(Swept(p, All))[c] == if c < p.created then 1 else 0;
  }

  lemma {:induction false} NoneKept(list: seq<Info>)
    ensures Kept(list, All) == []
  {
    if list != [] { NoneKept(list[1..]); }
  }
}
