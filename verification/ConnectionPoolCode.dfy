/** `MyConnPool` as the loops over its list that it is. */
module ConnectionPoolCode {
  import opened ConnectionPool
  import opened Wrappers

  class MyConnPool {
    var list: seq<Info>
    var created: nat
    ghost var destroyed: seq<Conn>

    ghost function Model(): Pool
      reads this
    {
      Pool(list, created, destroyed)
    }

    constructor ()
      ensures Model() == Pool([], 0, [])
    {
      list, created, destroyed := [], 0, [];
    }

    method Create() returns (c: Conn)
      modifies this`created
      ensures c == old(created) && created == old(created) + 1
    {
      c := created;
      created := created + 1;
    }

    /** `remove` of an iterator: destroys the connection and erases the entry. */
    method RemoveAt(i: nat)
      requires i < |list|
      modifies this`list, this`destroyed
      ensures list == old(Without(list, i)) && destroyed == old(destroyed) + [old(list[i].conn)]
    {
      destroyed := destroyed + [list[i].conn];
      list := list[..i] + list[i + 1..];
    }

    /** `find_if` with `TooOld`, from position `from` on. */
    method FindTooOld(from: nat, minAge: int) returns (i: nat)
      requires from <= |list|
      ensures from <= i <= |list|
      ensures i < |list| ==> !list[i].inUse && list[i].lastUsed <= minAge
      ensures forall j :: from <= j < i ==> list[j].inUse || list[j].lastUsed > minAge
    {
      i := from;
      while i < |list| && !(!list[i].inUse && list[i].lastUsed <= minAge)
        invariant from <= i <= |list|
        invariant forall j :: from <= j < i ==> list[j].inUse || list[j].lastUsed > minAge
      {
        i := i + 1;
      }
    }

    method RemoveOldConnections(now: int)
      modifies this`list, this`destroyed
      ensures Model() == Swept(old(Model()), Older(now))
    {
      var minAge := now - MAX_IDLE_TIME;
      var it := FindTooOld(0, minAge);
      while it != |list|
        invariant it <= |list|
        invariant it < |list| ==> Leaves(list[it], Older(now))
        invariant forall j :: 0 <= j < it ==> !Leaves(list[j], Older(now))
        invariant Swept(Model(), Older(now)) == Swept(old(Model()), Older(now))
        decreases |list|
      {
        SweepOne(Model(), it, Older(now));
        RemoveAt(it);
        it := FindTooOld(it, minAge);
      }
      NothingToSweep(list, Older(now));
    }

    /** `find_mru`: `max_element` under `operator<`, and the entry found is marked when it is idle. */
    method FindMru() returns (r: Option<Conn>)
      modifies this`list
      ensures match Mru(old(list))
        case Some(i) => r == Some(old(list)[i].conn) && list == Use(old(list), i)
        case None => r == None && list == old(list)
    {
      if |list| == 0 {
        return None;
      }
      var mru, i := 0, 1;
      while i < |list|
        invariant mru < i <= |list|
        invariant MaxFrom(list, mru, i) == MaxFrom(list, 0, 1)
      {
        if Below(list[mru], list[i]) {
          mru := i;
        }
        i := i + 1;
      }
      if list[mru].inUse {
        return None;
      }
      list := list[mru := list[mru].(inUse := true)];
      return Some(list[mru].conn);
    }

    method Grab(now: int, later: int) returns (c: Conn)
      modifies this
      ensures (Model(), c) == ConnectionPool.Grab(old(Model()), now, later)
    {
      RemoveOldConnections(now);
      var mru := FindMru();
      if mru.Some? {
        return mru.value;
      }
      c := Create();
      list := list + [Info(c, later, true)];
    }

    method Release(pc: Conn, now: int)
      modifies this`list
      ensures Model() == ConnectionPool.Release(old(Model()), pc, now)
    {
      var i := 0;
      while i < |list|
        invariant i <= |list| && list == old(list)
        invariant Find(list, pc) >= i
      {
        FindStep(list, pc, i);
        if list[i].conn == pc {
          list := list[i := list[i].(inUse := false)];
          list := list[i := list[i].(lastUsed := now)];
          break;
        }
        i := i + 1;
      }
    }

    method Remove(pc: Conn)
      modifies this`list, this`destroyed
      ensures Model() == ConnectionPool.Remove(old(Model()), pc)
    {
      var i := 0;
      while i < |list|
        invariant i <= |list| && Model() == old(Model())
        invariant Find(list, pc) >= i
      {
        FindStep(list, pc, i);
        if list[i].conn == pc {
          RemoveAt(i);
          return;
        }
        i := i + 1;
      }
    }

    /** Two locked sections, with nothing in between here. */
    method Exchange(pc: Conn, now: int, later: int) returns (c: Conn)
      modifies this
      ensures (Model(), c) == ConnectionPool.Grab(ConnectionPool.Remove(old(Model()), pc), now, later)
    {
      Remove(pc);
      c := Grab(now, later);
    }

    /** Grabs until it gets a connection that is connected, and destroys the others. The loop may have no end, so it is
        watched for any number of rounds: `tries` counts those done, and None says that the last of them was in vain too. */
    method SafeGrab(clock: nat -> int, connected: Conn -> bool, rounds: nat) returns (r: Option<Conn>, tries: nat)
      modifies this
      ensures tries <= rounds && Model() == Attempt(old(Model()), clock, tries).0
      ensures forall k :: 0 <= k < tries ==> !connected(Attempt(old(Model()), clock, k).1)
      ensures forall k :: 0 <= k < tries ==> Attempt(old(Model()), clock, k).1 in destroyed
      ensures var c := Attempt(old(Model()), clock, tries).1;
        if connected(c) then r == Some(c) else r == None && tries == rounds
    {
      hide ConnectionPool.Grab, ConnectionPool.Remove, Attempt;
      ghost var start := Model();
      var readings := 0;
      tries := 0;
      FirstAttempt(start, clock);
      var c := Grab(clock(0), clock(1));
      while !connected(c)
        invariant readings == 2 * tries && (Model(), c) == Attempt(start, clock, tries)
        invariant forall k :: 0 <= k < tries ==> !connected(Attempt(start, clock, k).1)
        invariant tries <= rounds
        decreases rounds - tries
      {
        if tries == rounds {
          AttemptsAreDestroyed(start, clock, tries);
          return None, tries;
        }
        NextAttempt(start, clock, tries);
        Remove(c);
        readings := readings + 2;
        tries := tries + 1;
        c := Grab(clock(readings), clock(readings + 1));
      }
      AttemptsAreDestroyed(start, clock, tries);
      return Some(c), tries;
    }

    method Clear(all: bool)
      modifies this`list, this`destroyed
      ensures Model() == Swept(old(Model()), if all then All else Idle)
    {
      ghost var how := if all then All else Idle;
      var it := 0;
      while it != |list|
        invariant it <= |list|
        invariant forall j :: 0 <= j < it ==> !Leaves(list[j], how)
        invariant Swept(Model(), how) == Swept(old(Model()), how)
        decreases |list| - it
      {
        if all || !list[it].inUse {
          SweepOne(Model(), it, how);
          RemoveAt(it);
        } else {
          it := it + 1;
        }
      }
      NothingToSweep(list, how);
    }

    method Shrink()
      modifies this`list, this`destroyed
      ensures Model() == Swept(old(Model()), Idle)
    {
      Clear(false);
    }
  }

  /** The `k`-th grab of `safe_grab`, after the connections grabbed before it were removed. */
  function Attempt(p: Pool, clock: nat -> int, k: nat): (Pool, Conn) {
    if k == 0 then Grab(p, clock(0), clock(1))
    else
      var (q, c) := Attempt(p, clock, k - 1);
      Grab(Remove(q, c), clock(2 * k), clock(2 * k + 1))
  }

  lemma FirstAttempt(p: Pool, clock: nat -> int)
    ensures Attempt(p, clock, 0) == Grab(p, clock(0), clock(1))
  {
  }

  lemma NextAttempt(p: Pool, clock: nat -> int, k: nat)
    ensures var (q, c) := Attempt(p, clock, k);
      Attempt(p, clock, k + 1) == Grab(Remove(q, c), clock(2 * k + 2), clock(2 * k + 3))
  {
    hide Grab, Remove;
  }

  lemma RemoveShortens(p: Pool, c: Conn)
    requires Find(p.list, c) < |p.list|
    ensures |Remove(p, c).list| == |p.list| - 1 && Remove(p, c).created == p.created
  {
  }

  /** A grab lengthens the list by one at most, and only by a new connection; what it hands out is in the list. */
  lemma GrabBounds(p: Pool, now: int, later: int)
    ensures var (q, c) := Grab(p, now, later);
      && Find(q.list, c) < |q.list|
      && (if q.created == p.created then |q.list| <= |p.list|
          else c == p.created && q.created == p.created + 1 && |q.list| <= |p.list| + 1)
  {
    KeptIsShorter(p.list, Older(now));
    var (q, c) := Grab(p, now, later);
    if q.created == p.created {
      var i := Mru(Swept(p, Older(now)).list).value;
      FindBefore(q.list, c, i);
    } else {
      FindBefore(q.list, c, |q.list| - 1);
    }
  }

  lemma GrabKeepsDestroyed(p: Pool, now: int, later: int)
    ensures p.destroyed <= Grab(p, now, later).0.destroyed
  {
  }

  lemma RemoveDestroys(p: Pool, c: Conn)
    requires Find(p.list, c) < |p.list|
    ensures Remove(p, c).destroyed == p.destroyed + [c]
  {
  }

  /** Every connection grabbed in vain has been destroyed before the next attempt. */
  lemma {:induction false} AttemptsAreDestroyed(p: Pool, clock: nat -> int, k: nat)
    ensures var (q, c) := Attempt(p, clock, k); Find(q.list, c) < |q.list|
    ensures forall j :: 0 <= j < k ==> Attempt(p, clock, j).1 in Attempt(p, clock, k).0.destroyed
  {
    hide Grab, Remove, Attempt, Find;
    if k == 0 {
      FirstAttempt(p, clock);
      GrabBounds(p, clock(0), clock(1));
    } else {
      AttemptsAreDestroyed(p, clock, k - 1);
      NextAttempt(p, clock, k - 1);
      var (q, c) := Attempt(p, clock, k - 1);
      RemoveDestroys(q, c);
      GrabKeepsDestroyed(Remove(q, c), clock(2 * k), clock(2 * k + 1));
      GrabBounds(Remove(q, c), clock(2 * k), clock(2 * k + 1));
      forall j | 0 <= j < k ensures Attempt(p, clock, j).1 in Attempt(p, clock, k).0.destroyed {
        var d := Attempt(p, clock, j).1;
        assert d in q.destroyed + [c];
        StaysIn(q.destroyed + [c], Attempt(p, clock, k).0.destroyed, d);
      }
    }
  }

  lemma StaysIn(a: seq<Conn>, b: seq<Conn>, c: Conn)
    requires a <= b && c in a
    ensures c in b
  {
    assert b == a + b[|a|..];
  }

  /** How many connections an attempt can still use up before it hands out the `limit`-th connection ever created. */
  function Left(p: Pool, limit: nat): int { |p.list| + limit - p.created }

  lemma AttemptUsesUp(p: Pool, c: Conn, q: Pool, d: Conn, now: int, later: int, limit: nat)
    requires Find(p.list, c) < |p.list| && (q, d) == Grab(Remove(p, c), now, later)
    requires p.created <= limit && d != limit
    ensures Find(q.list, d) < |q.list| && q.created <= limit && Left(q, limit) < Left(p, limit)
  {
    RemoveShortens(p, c);
    hide Grab, Remove, Find;
    GrabBounds(Remove(p, c), now, later);
  }

  /** `safe_grab` ends when some connection yet to be created is connected, whatever the clock and the pool. */
  lemma LiveConnectionEnds(p: Pool, clock: nat -> int, connected: Conn -> bool, limit: nat) returns (k: nat)
    requires p.created <= limit && connected(limit)
    ensures connected(Attempt(p, clock, k).1)
  {
    hide Grab, Remove, Find, Attempt;
    k := 0;
    FirstAttempt(p, clock);
    GrabBounds(p, clock(0), clock(1));
    while !connected(Attempt(p, clock, k).1)
      invariant var (q, c) := Attempt(p, clock, k); connected(c) || (Find(q.list, c) < |q.list| && q.created <= limit)
      decreases Left(Attempt(p, clock, k).0, limit)
    {
      NextAttempt(p, clock, k);
      var (q, c) := Attempt(p, clock, k);
      var (r, d) := Attempt(p, clock, k + 1);
      k := k + 1;
      if connected(d) { return; }
      AttemptUsesUp(q, c, r, d, clock(2 * k), clock(2 * k + 1), limit);
    }
  }

  // ---------- when safe_grab ends ----------

  ghost predicate Ends(p: Pool, clock: nat -> int, connected: Conn -> bool) {
    exists k: nat :: connected(Attempt(p, clock, k).1)
  }

  ghost predicate NeverBack(clock: nat -> int) { forall i: nat, j: nat :: i <= j ==> clock(i) <= clock(j) }

  ghost predicate SomeToCome(p: Pool, connected: Conn -> bool) { exists n: nat :: p.created <= n && connected(n) }

  /** Nothing in the list can be handed out. */
  predicate Exhausted(list: seq<Info>, now: int) { forall x :: x in list ==> x.inUse || Leaves(x, Older(now)) }

  predicate AllBusy(list: seq<Info>) { forall x :: x in list ==> x.inUse }

  lemma {:induction false} ExhaustedKeepsBusy(list: seq<Info>, now: int)
    requires Exhausted(list, now)
    ensures AllBusy(Kept(list, Older(now)))
  {
    forall x | x in Kept(list, Older(now)) ensures x.inUse { KeptAre(list, Older(now), x); }
  }

  lemma NoMru(list: seq<Info>)
    requires AllBusy(list)
    ensures Mru(list) == None
  {
  }

  lemma GrabCreates(p: Pool, now: int, later: int)
    requires Exhausted(p.list, now)
    ensures var (q, c) := Grab(p, now, later); c == p.created && q.created == p.created + 1 && AllBusy(q.list)
  {
    ExhaustedKeepsBusy(p.list, now);
    NoMru(Kept(p.list, Older(now)));
  }

  lemma BusyIsExhausted(list: seq<Info>, now: int)
    requires AllBusy(list)
    ensures Exhausted(list, now)
  {
  }

  lemma RemoveLeavesBusy(p: Pool, c: Conn)
    requires AllBusy(p.list)
    ensures AllBusy(Remove(p, c).list) && Remove(p, c).created == p.created
  {
  }

  /** A clock at which all idle connections have expired. */
  function Expiry(list: seq<Info>): int {
    if list == [] then 0
    else
      var t := Expiry(list[1..]);
      if t < list[0].lastUsed + MAX_IDLE_TIME then list[0].lastUsed + MAX_IDLE_TIME else t
  }

  lemma {:induction false} ExpiryExhausts(list: seq<Info>, now: int)
    requires now >= Expiry(list)
    ensures Exhausted(list, now)
  {
    if list != [] { ExpiryExhausts(list[1..], now); }
  }

  /** At such a clock every attempt hands out a new connection. */
  lemma {:induction false} AttemptsCreate(p: Pool, now: int, k: nat)
    requires now >= Expiry(p.list)
    ensures var (q, c) := Attempt(p, _ => now, k); c == p.created + k && q.created == p.created + k + 1 && AllBusy(q.list)
  {
    hide Grab, Remove, Attempt, Expiry, Exhausted;
    var clock: nat -> int := _ => now;
    if k == 0 {
      FirstAttempt(p, clock);
      ExpiryExhausts(p.list, now);
      GrabCreates(p, now, now);
    } else {
      AttemptsCreate(p, now, k - 1);
      NextAttempt(p, clock, k - 1);
      var (q, c) := Attempt(p, clock, k - 1);
      RemoveLeavesBusy(q, c);
      BusyIsExhausted(Remove(q, c).list, now);
      GrabCreates(Remove(q, c), now, now);
    }
  }

  lemma EndsNeedsOneToCome(p: Pool, connected: Conn -> bool)
    requires Ends(p, _ => Expiry(p.list), connected)
    ensures SomeToCome(p, connected)
  {
    var k: nat :| connected(Attempt(p, _ => Expiry(p.list), k).1);
    AttemptsCreate(p, Expiry(p.list), k);
    assert p.created <= p.created + k && connected(p.created + k);
  }

  /** `safe_grab` ends under every clock that never goes back exactly if some connection yet to be created is connected. */
  lemma SafeGrabEndsExactly(p: Pool, connected: Conn -> bool)
    ensures (forall clock: nat -> int :: NeverBack(clock) ==> Ends(p, clock, connected)) <==> SomeToCome(p, connected)
  {
    if SomeToCome(p, connected) {
      var n: nat :| p.created <= n && connected(n);
      forall clock: nat -> int ensures Ends(p, clock, connected) {
        var k := LiveConnectionEnds(p, clock, connected, n);
      }
    } else {
      var clock: nat -> int := _ => Expiry(p.list);
      assert NeverBack(clock);
      if Ends(p, clock, connected) { EndsNeedsOneToCome(p, connected); }
    }
  }

  lemma {:induction false} KeptIsShorter(list: seq<Info>, how: Sweep)
    ensures |Kept(list, how)| <= |list|
  {
    if list != [] { KeptIsShorter(list[1..], how); }
  }

  lemma {:induction false} FindBefore(list: seq<Info>, c: Conn, i: nat)
    requires i < |list| && list[i].conn == c
    ensures Find(list, c) <= i
  {
    if i > 0 { FindBefore(list[1..], c, i - 1); }
  }

  lemma {:induction false} FindStep(list: seq<Info>, c: Conn, i: nat)
    requires i < |list| && Find(list, c) >= i
    ensures Find(list, c) == i <==> list[i].conn == c
  {
    if i > 0 { FindStep(list[1..], c, i - 1); }
  }

  lemma {:induction false} NothingToSweep(list: seq<Info>, how: Sweep)
    requires forall j :: 0 <= j < |list| ==> !Leaves(list[j], how)
    ensures Kept(list, how) == list && Gone(list, how) == []
  {
    if list != [] { NothingToSweep(list[1..], how); }
  }

  lemma {:induction false} SweepFirst(list: seq<Info>, i: nat, how: Sweep)
    requires i < |list| && Leaves(list[i], how) && forall j :: 0 <= j < i ==> !Leaves(list[j], how)
    ensures Kept(Without(list, i), how) == Kept(list, how)
    ensures [list[i].conn] + Gone(Without(list, i), how) == Gone(list, how)
  {
    if i == 0 {
      assert Without(list, 0) == list[1..];
    } else {
      var shorter := Without(list, i);
      SweepFirst(list[1..], i - 1, how);
      assert shorter[1..] == Without(list[1..], i - 1) && shorter[0] == list[0] && !Leaves(list[0], how);
      assert Kept(shorter, how) == [list[0]] + Kept(shorter[1..], how) && Gone(shorter, how) == Gone(shorter[1..], how);
    }
  }

  /** Taking the first leaver out leaves the outcome of the sweep as it was. */
  lemma SweepOne(p: Pool, i: nat, how: Sweep)
    requires i < |p.list| && Leaves(p.list[i], how) && forall j :: 0 <= j < i ==> !Leaves(p.list[j], how)
    ensures Swept(Pool(Without(p.list, i), p.created, p.destroyed + [p.list[i].conn]), how) == Swept(p, how)
  {
    SweepFirst(p.list, i, how);
  }
}
