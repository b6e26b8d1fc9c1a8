/** What the locked sections of the connection pool do to its list. */
module ConnectionPool {
  import opened Sequences
  import opened Wrappers

  // Connections are numbered in the order in which they were created.
  type Conn = nat

  const MAX_IDLE_TIME := 300

  datatype Info = Info(conn: Conn, lastUsed: int, inUse: bool)

  /** The pool's list, the number of connections created and, in order, the connections destroyed. */
  datatype Pool = Pool(list: seq<Info>, created: nat, destroyed: seq<Conn>)

  // ---------- comparing ----------

  /** `ConnectionInfo::operator<`: a connection in use is below an idle one, else the one used longer ago is below. */
  predicate Below(a: Info, b: Info) {
    if a.inUse == b.inUse then a.lastUsed < b.lastUsed else a.inUse
  }

  predicate Level(a: Info, b: Info) { !Below(a, b) && !Below(b, a) }

  /** `max_element` needs a strict weak order. */
  lemma BelowIsStrictWeakOrder(a: Info, b: Info, c: Info)
    ensures !Below(a, a)
    ensures Below(a, b) && Below(b, c) ==> Below(a, c)
    ensures Level(a, b) && Level(b, c) ==> Level(a, c)
  {
  }

  // ---------- the locked sections ----------

  /** Which entries a sweep over the list takes out: those idle for too long, the idle ones, or all. */
  datatype Sweep = Older(now: int) | Idle | All

  predicate Leaves(x: Info, how: Sweep) {
    match how
    case Older(now) => !x.inUse && x.lastUsed <= now - MAX_IDLE_TIME
    case Idle => !x.inUse
    case All => true
  }

  function Kept(list: seq<Info>, how: Sweep): seq<Info> {
    if list == [] then []
    else (if Leaves(list[0], how) then [] else [list[0]]) + Kept(list[1..], how)
  }

  function Gone(list: seq<Info>, how: Sweep): seq<Conn> {
    if list == [] then []
    else (if Leaves(list[0], how) then [list[0].conn] else []) + Gone(list[1..], how)
  }

  function Swept(p: Pool, how: Sweep): Pool {
    p.(list := Kept(p.list, how), destroyed := p.destroyed + Gone(p.list, how))
  }

  /** The position of the first of the greatest entries, when `best` is that among the first `i`. */
  function MaxFrom(list: seq<Info>, best: nat, i: nat): (r: nat)
    requires best < i <= |list|
    ensures r < |list|
    decreases |list| - i
  {
    if i == |list| then best else MaxFrom(list, if Below(list[best], list[i]) then i else best, i + 1)
  }

  function Mru(list: seq<Info>): (r: Option<nat>)
    ensures r.Some? ==> r.value < |list|
  {
    if list == [] || list[MaxFrom(list, 0, 1)].inUse then None else Some(MaxFrom(list, 0, 1))
  }

  function Use(list: seq<Info>, i: nat): seq<Info>
    requires i < |list|
  {
    list[i := list[i].(inUse := true)]
  }

  /** `grab`, which reads the clock to expire connections and once more when it creates one. */
  function Grab(p: Pool, now: int, later: int): (Pool, Conn) {
    var q := Swept(p, Older(now));
    match Mru(q.list)
    case Some(i) => (q.(list := Use(q.list, i)), q.list[i].conn)
    case None => (Pool(q.list + [Info(q.created, later, true)], q.created + 1, q.destroyed), q.created)
  }

  /** The position of the first entry for a connection, or the length of the list. */
  function Find(list: seq<Info>, c: Conn): (r: nat)
    ensures r <= |list| && (r < |list| ==> list[r].conn == c)
    ensures forall i :: 0 <= i < r ==> list[i].conn != c
  {
    if list == [] || list[0].conn == c then 0 else 1 + Find(list[1..], c)
  }

  function Release(p: Pool, c: Conn, now: int): Pool {
    var i := Find(p.list, c);
    if i == |p.list| then p else p.(list := p.list[i := Info(p.list[i].conn, now, false)])
  }

  function Without(list: seq<Info>, i: nat): seq<Info>
    requires i < |list|
  {
    list[..i] + list[i + 1..]
  }

  function Remove(p: Pool, c: Conn): Pool {
    var i := Find(p.list, c);
    if i == |p.list| then p else Pool(Without(p.list, i), p.created, p.destroyed + [c])
  }

  // ---------- what a grab hands out ----------

  lemma {:induction false} KeptAre(list: seq<Info>, how: Sweep, x: Info)
    ensures x in Kept(list, how) <==> x in list && !Leaves(x, how)
  {
    if list != [] { KeptAre(list[1..], how, x); }
  }

  lemma {:induction false} MaxIsMax(list: seq<Info>, best: nat, i: nat)
    requires best < i <= |list|
    requires forall j :: 0 <= j < i ==> !Below(list[best], list[j])
    requires forall j :: 0 <= j < best ==> Below(list[j], list[best])
    ensures forall j :: 0 <= j < |list| ==> !Below(list[MaxFrom(list, best, i)], list[j])
    ensures forall j :: 0 <= j < MaxFrom(list, best, i) ==> Below(list[j], list[MaxFrom(list, best, i)])
    decreases |list| - i
  {
    if i < |list| {
      MaxIsMax(list, if Below(list[best], list[i]) then i else best, i + 1);
    }
  }

  /** An idle connection that has not expired. */
  predicate Available(x: Info, now: int) { !x.inUse && !Leaves(x, Older(now)) }

  /** An entry for connection `c`, available, and none of those available was used later. */
  predicate UsedLast(list: seq<Info>, x: Info, c: Conn, now: int) {
    && x in list && x.conn == c && Available(x, now)
    && forall y :: y in list && Available(y, now) ==> y.lastUsed <= x.lastUsed
  }

  lemma MruIsUsedLast(list: seq<Info>, kept: seq<Info>, now: int)
    requires forall x :: x in kept <==> x in list && !Leaves(x, Older(now))
    ensures if Mru(kept).Some? then UsedLast(list, kept[Mru(kept).value], kept[Mru(kept).value].conn, now)
            else forall x :: x in list ==> !Available(x, now)
  {
    if kept != [] {
      MaxIsMax(kept, 0, 1);
      var m := kept[MaxFrom(kept, 0, 1)];
      assert m in kept;
      forall y | y in list && Available(y, now) ensures !m.inUse && y.lastUsed <= m.lastUsed {
        var j :| 0 <= j < |kept| && kept[j] == y;
        assert !Below(m, kept[j]);
      }
    }
  }

  /** Of the connections that are idle and not expired, `grab` hands out one used last; only when there is none does it
      create one. No idle connection past the age limit is left. */
  lemma GrabHandsOutTheMru(p: Pool, now: int, later: int)
    ensures var (q, c) := Grab(p, now, later);
      && (q.created == p.created <==> exists x :: x in p.list && Available(x, now))
      && (q.created == p.created ==> exists x :: UsedLast(p.list, x, c, now))
      && (q.created != p.created ==> c == p.created && q.created == p.created + 1)
    ensures forall x :: x in Grab(p, now, later).0.list ==> !Leaves(x, Older(now))
  {
    var kept := Kept(p.list, Older(now));
    forall x ensures x in kept <==> x in p.list && !Leaves(x, Older(now)) { KeptAre(p.list, Older(now), x); }
    MruIsUsedLast(p.list, kept, now);
  }

  // ---------- the sections in terms of entries, seconds and flags ----------

  /** Positions in a list of `n` entries, each further on than the one before. */
  ghost predicate Onward(at: seq<nat>, n: nat) {
    (forall k :: 0 <= k < |at| ==> at[k] < n) && forall j, k :: 0 <= j < k < |at| ==> at[j] < at[k]
  }

  ghost function Entries(list: seq<Info>, at: seq<nat>): seq<Info>
    requires Onward(at, |list|)
  {
    seq(|at|, k requires 0 <= k < |at| => list[at[k]])
  }

  ghost function Conns(list: seq<Info>, at: seq<nat>): seq<Conn>
    requires Onward(at, |list|)
  {
    seq(|at|, k requires 0 <= k < |at| => list[at[k]].conn)
  }

  lemma {:induction false} SweepNext(list: seq<Info>, x: Info, how: Sweep)
    ensures Kept(list + [x], how) == Kept(list, how) + if Leaves(x, how) then [] else [x]
    ensures Gone(list + [x], how) == Gone(list, how) + if Leaves(x, how) then [x.conn] else []
  {
    if list == [] {
      assert [x][1..] == [];
    } else {
      assert (list + [x])[0] == list[0] && (list + [x])[1..] == list[1..] + [x];
      SweepNext(list[1..], x, how);
      var leaves, goes := Leaves(list[0], how), Leaves(x, how);
      Behind(if leaves then [] else [list[0]], Kept(list[1..], how), if goes then [] else [x]);
      Behind(if leaves then [list[0].conn] else [], Gone(list[1..], how), if goes then [x.conn] else []);
    }
  }

  lemma OnePositionMore(list: seq<Info>, x: Info, at: seq<nat>)
    requires Onward(at, |list|)
    ensures Onward(at, |list| + 1) && Onward(at + [|list|], |list| + 1)
    ensures Entries(list + [x], at) == Entries(list, at) && Conns(list + [x], at) == Conns(list, at)
    ensures Entries(list + [x], at + [|list|]) == Entries(list, at) + [x]
    ensures Conns(list + [x], at + [|list|]) == Conns(list, at) + [x.conn]
  {
  }

  /** A sweep takes out exactly the entries that are to leave, destroys their connections in order, and leaves the others
      as they stand. */
  lemma {:induction false} SweepIs(list: seq<Info>, how: Sweep) returns (kept: seq<nat>, gone: seq<nat>)
    ensures Onward(kept, |list|) && Kept(list, how) == Entries(list, kept)
    ensures Onward(gone, |list|) && Gone(list, how) == Conns(list, gone)
    ensures forall i :: 0 <= i < |list| ==> (i in gone <==> Leaves(list[i], how)) && (i in kept <==> !Leaves(list[i], how))
  {
    if list == [] {
      kept, gone := [], [];
    } else {
      var n := |list| - 1;
      var front, x := list[..n], list[n];
      kept, gone := SweepIs(front, how);
      assert list == front + [x];
      SweepNext(front, x, how);
      OnePositionMore(front, x, kept);
      OnePositionMore(front, x, gone);
      hide Entries, Conns, Kept, Gone;
      if Leaves(x, how) { gone := gone + [n]; } else { kept := kept + [n]; }
    }
  }

  /** `remove_old_connections`, in seconds: the entries that go are the idle ones last used 300 seconds ago or earlier. */
  lemma OldOnesLeave(p: Pool, now: int) returns (kept: seq<nat>, gone: seq<nat>)
    ensures Onward(kept, |p.list|) && Onward(gone, |p.list|)
    ensures Swept(p, Older(now)) == Pool(Entries(p.list, kept), p.created, p.destroyed + Conns(p.list, gone))
    ensures forall i :: 0 <= i < |p.list| ==>
      && (i in gone <==> !p.list[i].inUse && p.list[i].lastUsed <= now - 300)
      && (i in kept <==> p.list[i].inUse || now - 300 < p.list[i].lastUsed)
  {
    kept, gone := SweepIs(p.list, Older(now));
  }

  /** The entry chosen is the first of the idle ones that were used last. */
  lemma MruIs(list: seq<Info>)
    ensures match Mru(list)
      case None => forall j :: 0 <= j < |list| ==> list[j].inUse
      case Some(i) =>
        && !list[i].inUse && (forall j :: 0 <= j < |list| && !list[j].inUse ==> list[j].lastUsed <= list[i].lastUsed)
        && (forall j :: 0 <= j < i && !list[j].inUse ==> list[j].lastUsed < list[i].lastUsed)
  {
    if list != [] { MaxIsMax(list, 0, 1); }
  }

  /** `grab`: what it destroys are the connections of those entries; what it leaves are the others in their order. The first
      of those idle ones that were used last is marked and handed out, or else a new entry, in use since its creation, stands
      at the end; this exactly if no idle one was used less than 300 seconds ago. */
  lemma GrabIs(p: Pool, now: int, later: int) returns (kept: seq<nat>, gone: seq<nat>, i: nat)
    ensures Onward(kept, |p.list|) && Onward(gone, |p.list|)
    ensures forall j :: 0 <= j < |p.list| ==>
      && (j in gone <==> !p.list[j].inUse && p.list[j].lastUsed <= now - 300)
      && (j in kept <==> p.list[j].inUse || now - 300 < p.list[j].lastUsed)
    ensures var (q, c), rest := Grab(p, now, later), Entries(p.list, kept);
      && q.destroyed == p.destroyed + Conns(p.list, gone)
      && (q.created == p.created <==> exists x :: x in p.list && !x.inUse && now - 300 < x.lastUsed)
      && if q.created == p.created
         then i < |rest| && rest[i].conn == c && !rest[i].inUse && q.list == rest[i := Info(c, rest[i].lastUsed, true)]
           && (forall j :: 0 <= j < |rest| && !rest[j].inUse ==> rest[j].lastUsed <= rest[i].lastUsed)
           && (forall j :: 0 <= j < i && !rest[j].inUse ==> rest[j].lastUsed < rest[i].lastUsed)
         else c == p.created && q.created == c + 1 && q.list == rest + [Info(c, later, true)]
  {
    kept, gone := OldOnesLeave(p, now);
    GrabHandsOutTheMru(p, now, later);
    var rest := Kept(p.list, Older(now));
    MruIs(rest);
    hide Mru, Kept, Gone, Entries, Conns, Onward;
    i := if Mru(rest).Some? then Mru(rest).value else 0;
    assert forall x :: Available(x, now) <==> !x.inUse && now - 300 < x.lastUsed;
  }

  /** `shrink` leaves exactly the entries in use and destroys the idle connections; `clear` leaves none. */
  lemma ShrinkLeavesTheBusy(p: Pool) returns (kept: seq<nat>, gone: seq<nat>)
    ensures Onward(kept, |p.list|) && Onward(gone, |p.list|)
    ensures Swept(p, Idle) == Pool(Entries(p.list, kept), p.created, p.destroyed + Conns(p.list, gone))
    ensures forall i :: 0 <= i < |p.list| ==> (i in kept <==> p.list[i].inUse) && (i in gone <==> !p.list[i].inUse)
  {
    kept, gone := SweepIs(p.list, Idle);
  }

  lemma {:induction false} ClearLeavesNone(list: seq<Info>)
    ensures Kept(list, All) == [] && Gone(list, All) == seq(|list|, k requires 0 <= k < |list| => list[k].conn)
  {
    if list != [] { ClearLeavesNone(list[1..]); }
  }

  /** `release`: the first entry for the connection, and no other, becomes idle and is marked with the time of the call. */
  lemma ReleaseIs(p: Pool, c: Conn, now: int)
    ensures var q := Release(p, c, now);
      && q.created == p.created && q.destroyed == p.destroyed && |q.list| == |p.list|
      && forall i :: 0 <= i < |p.list| ==>
           q.list[i] == if p.list[i].conn == c && (forall j :: 0 <= j < i ==> p.list[j].conn != c)
                        then Info(c, now, false) else p.list[i]
  {
    var f := Find(p.list, c);
    if f < |p.list| { assert p.list[f].conn == c; }
  }

  /** `remove`: the first entry for the connection goes and its connection is destroyed; without one nothing happens. */
  lemma RemoveIs(p: Pool, c: Conn, i: nat)
    requires i <= |p.list| && forall j :: 0 <= j < i ==> p.list[j].conn != c
    requires i < |p.list| ==> p.list[i].conn == c
    ensures Remove(p, c)
         == if i < |p.list| then Pool(p.list[..i] + p.list[i + 1..], p.created, p.destroyed + [c]) else p
  {
    assert Find(p.list, c) >= i;
  }

  /** What has been released is handed out again, in place of a new connection, by a grab less than 300 seconds later. */
  lemma ReleasedIsReused(p: Pool, c: Conn, released: int, now: int, later: int)
    requires exists x :: x in p.list && x.conn == c
    requires now < released + 300
    ensures Grab(Release(p, c, released), now, later).0.created == p.created
  {
    var q := Release(p, c, released);
    var i := Find(p.list, c);
    assert q.list[i] in q.list && q.list[i] == Info(c, released, false);
    var _, _, _ := GrabIs(q, now, later);
  }
}
