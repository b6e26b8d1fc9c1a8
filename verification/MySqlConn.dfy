/** The writing calls of `MysqlConn`: one row, many rows in batches, many keys in batches. */
module MySqlConn {
  import opened Batches
  import opened Modular
  import opened Sequences
  import opened Wrappers

  // ---------- tables ----------

  datatype Row<K, V> = Row(key: K, value: V)

  /** REPLACE: a row takes the place of the row with its key. */
  function ReplaceOne<K, V>(t: map<K, V>, row: Row<K, V>): map<K, V> { t[row.key := row.value] }

  function ReplaceEach<K, V>(t: map<K, V>, rows: seq<Row<K, V>>): map<K, V>
    decreases |rows|
  {
    if rows == [] then t else ReplaceEach(ReplaceOne(t, rows[0]), rows[1..])
  }

  function DeleteEach<K, V>(t: map<K, V>, keys: seq<K>): map<K, V> { t - (set k | k in keys) }

  lemma {:induction false} ReplaceEachAppend<K, V>(t: map<K, V>, a: seq<Row<K, V>>, b: seq<Row<K, V>>)
    ensures ReplaceEach(t, a + b) == ReplaceEach(ReplaceEach(t, a), b)
    decreases |a|
  {
    if a == [] {
      assert a + b == b;
    } else {
      assert (a + b)[1..] == a[1..] + b;
      ReplaceEachAppend(ReplaceOne(t, a[0]), a[1..], b);
    }
  }

  lemma DeleteEachAppend<K, V>(t: map<K, V>, a: seq<K>, b: seq<K>)
    ensures DeleteEach(t, a + b) == DeleteEach(DeleteEach(t, a), b)
  {
  }

  function Lookup<K, V>(t: map<K, V>, k: K): Option<V> { if k in t then Some(t[k]) else None }

  /** The value of the last row with key `k`, or else what the table had for it. */
  function LastFor<K(==), V>(t: map<K, V>, rows: seq<Row<K, V>>, k: K): Option<V> {
    if rows == [] then Lookup(t, k)
    else if rows[|rows| - 1].key == k then Some(rows[|rows| - 1].value)
    else LastFor(t, rows[..|rows| - 1], k)
  }

  lemma {:induction false} LastRowWins<K, V>(t: map<K, V>, rows: seq<Row<K, V>>, k: K)
    ensures Lookup(ReplaceEach(t, rows), k) == LastFor(t, rows, k)
    decreases |rows|
  {
    if rows != [] {
      var n := |rows| - 1;
      LastRowWins(t, rows[..n], k);
      assert rows[..n] + [rows[n]] == rows;
      ReplaceEachAppend(t, rows[..n], [rows[n]]);
      assert ReplaceEach(t, rows) == ReplaceOne(ReplaceEach(t, rows[..n]), rows[n]);
    }
  }

  // ---------- the server ----------

  datatype Outcome = Rows(rows: nat) | Failed | Threw

  /** The connection and the server behind it. What each execution answers is fixed beforehand but arbitrary; only a
      statement that answers with rows has changed anything. */
  class Connection<!S> {
    const answer: nat -> Outcome
    const meaning: (string, S) -> S
    var state: S
    var sent: seq<string>

    constructor (answer: nat -> Outcome, meaning: (string, S) -> S, state: S)
      ensures this.answer == answer && this.meaning == meaning && this.state == state && sent == []
    {
      this.answer, this.meaning, this.state, sent := answer, meaning, state, [];
    }

    method Execute(query: string) returns (o: Outcome)
      modifies this
      ensures o == answer(old(|sent|)) && sent == old(sent) + [query]
      ensures state == if o.Rows? then meaning(query, old(state)) else old(state)
    {
      o := answer(|sent|);
      sent := sent + [query];
      if o.Rows? { state := meaning(query, state); }
    }
  }

  /** What executing these statements, all with success, makes of the database. */
  function Executed<S>(meaning: (string, S) -> S, texts: seq<string>, s: S): S {
    if texts == [] then s else meaning(texts[|texts| - 1], Executed(meaning, texts[..|texts| - 1], s))
  }

  /** The server understands the statements of these groups as changing the database by their group, `effect`. */
  ghost predicate Understood<S(!new), T>(meaning: (string, S) -> S, f: Form<T>, effect: (S, seq<T>) -> S,
                                         groups: seq<seq<T>>) {
    forall s, i :: 0 <= i < |groups| ==> Means(meaning, f, effect, s, groups[i])
  }

  ghost predicate Means<S, T>(meaning: (string, S) -> S, f: Form<T>, effect: (S, seq<T>) -> S, s: S, g: seq<T>) {
    meaning(Statement(f, g), s) == effect(s, g)
  }

  // ---------- sizes ----------

  const SURPLUS: nat := 1000

  /** `getMaxSafeMysqlPacketSize`; 0 when the server did not tell or tells too little. */
  function SafeSize(maxPacket: nat): (r: nat)
    ensures r == 0 <==> maxPacket <= SURPLUS
  {
    if maxPacket == 0 || maxPacket <= SURPLUS then 0 else maxPacket - SURPLUS
  }

  function ReplaceForm<K, V>(table: string, fields: string, values: Row<K, V> -> string, safe: nat): Form<Row<K, V>> {
    Form("REPLACE INTO `" + table + "` (" + fields + ") VALUES", "(", ")", "", safe, values)
  }

  function DeleteForm<K>(table: string, keyName: string, render: K -> string, safe: nat): Form<K>
    requires safe > 0
  {
    Form("DELETE FROM `" + table + "` WHERE " + keyName + " IN(", "`", "`", ")", safe - 1, render)
  }

  /** The texts that `replaceAll` sends for groups of rows, and `deleteWhereByKeys` for groups of keys, written out. */
  function ReplaceTexts<K, V>(table: string, fields: string, values: Row<K, V> -> string, groups: seq<seq<Row<K, V>>>)
    : seq<string>
  {
    seq(|groups|, i requires 0 <= i < |groups| =>
      "REPLACE INTO `" + table + "` (" + fields + ") VALUES"
      + Joined(seq(|groups[i]|, k requires 0 <= k < |groups[i]| => "(" + values(groups[i][k]) + ")"), ","))
  }

  function DeleteTexts<K>(table: string, keyName: string, render: K -> string, groups: seq<seq<K>>): seq<string> {
    seq(|groups|, i requires 0 <= i < |groups| =>
      "DELETE FROM `" + table + "` WHERE " + keyName + " IN("
      + Joined(seq(|groups[i]|, k requires 0 <= k < |groups[i]| => "`" + render(groups[i][k]) + "`"), ",") + ")")
  }

  lemma ReplaceTextsAre<K, V>(table: string, fields: string, values: Row<K, V> -> string, safe: nat,
                              groups: seq<seq<Row<K, V>>>)
    ensures Texts(ReplaceForm(table, fields, values, safe), groups) == ReplaceTexts(table, fields, values, groups)
  {
    var f := ReplaceForm(table, fields, values, safe);
    forall i | 0 <= i < |groups| ensures Texts(f, groups)[i] == ReplaceTexts(table, fields, values, groups)[i] {
      var g := groups[i];
      StatementIs(f, g);
      assert Pieces(f, g) == seq(|g|, k requires 0 <= k < |g| => "(" + values(g[k]) + ")");
      hide Joined;
      var text := f.head + Joined(Pieces(f, g), ",");
      assert text + "" == text;
    }
  }

  lemma DeleteTextsAre<K>(table: string, keyName: string, render: K -> string, safe: nat, groups: seq<seq<K>>)
    requires safe > 0
    ensures Texts(DeleteForm(table, keyName, render, safe), groups) == DeleteTexts(table, keyName, render, groups)
  {
    var f := DeleteForm(table, keyName, render, safe);
    forall i | 0 <= i < |groups| ensures Texts(f, groups)[i] == DeleteTexts(table, keyName, render, groups)[i] {
      var g := groups[i];
      StatementIs(f, g);
      assert Pieces(f, g) == seq(|g|, k requires 0 <= k < |g| => "`" + render(g[k]) + "`");
    }
  }

  // ---------- what a batched call does ----------

  /** A call that sends `groups` over a connection whose earlier statements were `before`, and adds what each group
      reports to an integer of `width` values. */
  datatype Job<!S, !T> = Job(f: Form<T>, groups: seq<seq<T>>, meaning: (string, S) -> S, answer: nat -> Outcome,
                             before: seq<string>, start: S, width: nat)

  ghost predicate Adds<S, T>(effect: (S, seq<T>) -> S, s: S, a: seq<T>, b: seq<T>) {
    effect(s, []) == s && effect(effect(s, a), b) == effect(s, a + b)
  }

  /** A change made by several groups one after the other is the change made by them all. */
  ghost predicate Accumulates<S(!new), T(!new)>(effect: (S, seq<T>) -> S) {
    forall s, a, b :: Adds(effect, s, a, b)
  }

  function Texts<T>(f: Form<T>, groups: seq<seq<T>>): (r: seq<string>)
    ensures |r| == |groups|
  {
    seq(|groups|, i requires 0 <= i < |groups| => Statement(f, groups[i]))
  }

  /** What the server answers to the `i`-th group. */
  function Answer<S, T>(j: Job<S, T>, i: nat): Outcome { j.answer(|j.before| + i) }

  /** The rows that the first `n` groups report together. */
  function Sum<S, T>(j: Job<S, T>, n: nat): nat {
    if n == 0 then 0 else Sum(j, n - 1) + if Answer(j, n - 1).Rows? then Answer(j, n - 1).rows else 0
  }

  /** The number of groups before the first that does not succeed. */
  function Succeeded<S, T>(j: Job<S, T>, n: nat): (r: nat)
    ensures r <= n
  {
    if n == 0 then 0
    else
      var r := Succeeded(j, n - 1);
      if r == n - 1 && Answer(j, r).Rows? then n else r
  }

  function Done<S, T>(j: Job<S, T>): (r: nat)
    ensures r <= |j.groups|
  {
    Succeeded(j, |j.groups|)
  }

  /** The statements sent: all of them, or those up to the first that does not succeed. */
  function Sent<S, T>(j: Job<S, T>): seq<string> {
    j.before + Texts(j.f, if Done(j) < |j.groups| then j.groups[..Done(j) + 1] else j.groups)
  }

  /** The database after the groups done. */
  function Result<S, T>(j: Job<S, T>): S { Executed(j.meaning, Texts(j.f, j.groups[..Done(j)]), j.start) }

  /** The number returned: the rows reported, as far as the integer holds them, or -1 after an exception. */
  function Returned<S, T>(j: Job<S, T>): nat
    requires j.width > 0
  {
    if Done(j) < |j.groups| && Answer(j, Done(j)).Threw? then j.width - 1 else Sum(j, Done(j)) % j.width
  }

  /** The groups are sent in order up to the first that does not succeed: `n` of them. */
  lemma SentIs<S, T>(j: Job<S, T>) returns (n: nat)
    ensures n <= |j.groups| && |Sent(j)| == |j.before| + n && Sent(j) == j.before + Texts(j.f, j.groups[..n])
    ensures forall i :: 0 <= i < n - 1 ==> Answer(j, i).Rows?
    ensures n < |j.groups| ==> n > 0 && !Answer(j, n - 1).Rows?
    ensures Done(j) == if n > 0 && !Answer(j, n - 1).Rows? then n - 1 else n
  {
    SucceededAre(j, |j.groups|);
    n := if Done(j) < |j.groups| then Done(j) + 1 else Done(j);
    assert j.groups[..|j.groups|] == j.groups;
  }

  lemma {:induction false} SucceededAre<S, T>(j: Job<S, T>, n: nat)
    ensures forall i :: 0 <= i < Succeeded(j, n) ==> Answer(j, i).Rows?
    ensures Succeeded(j, n) < n ==> !Answer(j, Succeeded(j, n)).Rows?
  {
    if n > 0 { SucceededAre(j, n - 1); }
  }

  /** The numbers added up from the front. */
  function Total(numbers: seq<nat>): nat { if numbers == [] then 0 else numbers[0] + Total(numbers[1..]) }

  lemma {:induction false} TotalSnoc(numbers: seq<nat>, x: nat)
    ensures Total(numbers + [x]) == Total(numbers) + x
  {
    if numbers == [] {
      assert [x][1..] == [];
    } else {
      assert (numbers + [x])[1..] == numbers[1..] + [x];
      TotalSnoc(numbers[1..], x);
    }
  }

  /** What the first `n` groups report. */
  function Reported<S, T>(j: Job<S, T>, n: nat): seq<nat> {
    seq(n, i requires 0 <= i < n => if Answer(j, i).Rows? then Answer(j, i).rows else 0)
  }

  lemma {:induction false} SumIs<S, T>(j: Job<S, T>, n: nat)
    ensures Sum(j, n) == Total(Reported(j, n))
  {
    if n > 0 {
      var last := if Answer(j, n - 1).Rows? then Answer(j, n - 1).rows else 0;
      SumIs(j, n - 1);
      assert Reported(j, n) == Reported(j, n - 1) + [last];
      TotalSnoc(Reported(j, n - 1), last);
    }
  }

  /** The number returned, for numbers of `width` values: what the groups done report together, or the greatest number,
      which is -1, if an exception ended the call. */
  lemma ReturnedIs<S, T>(j: Job<S, T>)
    requires j.width > 0
    ensures forall i :: 0 <= i < Done(j) ==> Answer(j, i).Rows?
    ensures Returned(j)
         == if Done(j) < |j.groups| && j.answer(|j.before| + Done(j)) == Threw then j.width - 1
            else Total(Reported(j, Done(j))) % j.width
  {
    SucceededAre(j, |j.groups|);
    SumIs(j, Done(j));
  }

  lemma {:induction false} SucceededIs<S, T>(j: Job<S, T>, n: nat, k: nat)
    requires k <= n && (forall i :: 0 <= i < k ==> Answer(j, i).Rows?)
    requires k < n ==> !Answer(j, k).Rows?
    ensures Succeeded(j, n) == k
  {
    if n > 0 { SucceededIs(j, n - 1, if k < n then k else n - 1); }
  }

  /** The first `n` groups have been sent with success: `sent`, `s` and `total` are what that gives. */
  ghost predicate Sending<S, T>(j: Job<S, T>, n: nat, sent: seq<string>, s: S, total: nat)
    requires j.width > 0
  {
    && n <= |j.groups| && sent == j.before + Texts(j.f, j.groups[..n])
    && (forall i :: 0 <= i < n ==> Answer(j, i).Rows?)
    && s == Executed(j.meaning, Texts(j.f, j.groups[..n]), j.start)
    && total == Sum(j, n) % j.width
  }

  lemma SendNone<S, T>(j: Job<S, T>)
    requires j.width > 0
    ensures Sending(j, 0, j.before, j.start, 0)
  {
    assert j.groups[..0] == [] && j.before + [] == j.before;
  }

  lemma SendOne<S, T>(j: Job<S, T>, n: nat, sent: seq<string>, s: S, total: nat)
    requires j.width > 0 && Sending(j, n, sent, s, total)
    requires n < |j.groups| && Answer(j, n).Rows?
    ensures Sending(j, n + 1, sent + [Statement(j.f, j.groups[n])], j.meaning(Statement(j.f, j.groups[n]), s),
                    (total + Answer(j, n).rows) % j.width)
  {
    TextsNext(j.f, j.groups, n);
    AddMod(Sum(j, n), Answer(j, n).rows, j.width);
  }

  lemma TextsNext<T>(f: Form<T>, groups: seq<seq<T>>, n: nat)
    requires n < |groups|
    ensures Texts(f, groups[..n + 1]) == Texts(f, groups[..n]) + [Statement(f, groups[n])]
    ensures Texts(f, groups[..n + 1])[..n] == Texts(f, groups[..n])
  {
    assert groups[..n + 1][..n] == groups[..n];
  }

  lemma SendingStops<S, T>(j: Job<S, T>, n: nat, sent: seq<string>, s: S, total: nat)
    requires j.width > 0 && Sending(j, n, sent, s, total)
    requires n < |j.groups| ==> !Answer(j, n).Rows?
    ensures Sent(j) == sent + if n < |j.groups| then [Statement(j.f, j.groups[n])] else []
    ensures s == Result(j)
    ensures Returned(j) == if n < |j.groups| && Answer(j, n).Threw? then j.width - 1 else total
  {
    SucceededIs(j, |j.groups|, n);
    if n < |j.groups| {
      assert Texts(j.f, j.groups[..n + 1]) == Texts(j.f, j.groups[..n]) + [Statement(j.f, j.groups[n])];
    } else {
      assert j.groups[..n] == j.groups;
    }
  }

  /** One execution and what is done with its answer. */
  method Send<S, T>(conn: Connection<S>, query: string, total: nat, width: nat, ghost j: Job<S, T>, ghost n: nat)
    returns (ok: bool, r: nat)
    requires j.meaning == conn.meaning && j.answer == conn.answer && j.width == width > 0
    requires Sending(j, n, conn.sent, conn.state, total) && n < |j.groups| && query == Statement(j.f, j.groups[n])
    modifies conn
    ensures if ok then Sending(j, n + 1, conn.sent, conn.state, r)
            else conn.sent == Sent(j) && conn.state == Result(j) && r == Returned(j)
  {
    hide Opened, Executed, Statement, Sum, Sent, Result, Returned;
    assert |conn.sent| == |j.before| + n;
    hide Sending;
    if Answer(j, n).Rows? {
      SendOne(j, n, conn.sent, conn.state, total);
    } else {
      SendingStops(j, n, conn.sent, conn.state, total);
    }
    var res := conn.Execute(query);
    match res
    case Rows(rows) => return true, (total + rows) % width;
    case Failed => return false, total;
    case Threw => return false, width - 1;
  }

  // ---------- what the statements do, once understood ----------

  lemma UnderstoodFewer<S(!new), T>(meaning: (string, S) -> S, f: Form<T>, effect: (S, seq<T>) -> S,
                                    groups: seq<seq<T>>, n: nat)
    requires n <= |groups| && Understood(meaning, f, effect, groups)
    ensures Understood(meaning, f, effect, groups[..n])
  {
    var few := groups[..n];
    forall s, i | 0 <= i < |few| ensures Means(meaning, f, effect, s, few[i]) {
      assert Means(meaning, f, effect, s, groups[i]);
    }
  }

  /** Groups sent one after the other and understood change the database as all their items together. */
  lemma {:induction false} ExecutedIs<S(!new), T(!new)>(j: Job<S, T>, effect: (S, seq<T>) -> S, n: nat)
    requires n <= |j.groups| && Understood(j.meaning, j.f, effect, j.groups[..n]) && Accumulates(effect)
    ensures Executed(j.meaning, Texts(j.f, j.groups[..n]), j.start) == effect(j.start, Concat(j.groups[..n]))
    decreases n
  {
    if n == 0 {
      assert Adds(effect, j.start, [], []);
    } else {
      var done := Concat(j.groups[..n - 1]);
      UnderstoodFewer(j.meaning, j.f, effect, j.groups[..n], n - 1);
      assert j.groups[..n][..n - 1] == j.groups[..n - 1];
      ExecutedIs(j, effect, n - 1);
      TextsNext(j.f, j.groups, n - 1);
      assert j.groups[..n] == j.groups[..n - 1] + [j.groups[n - 1]];
      ConcatSnoc(j.groups[..n - 1], j.groups[n - 1]);
      assert Means(j.meaning, j.f, effect, effect(j.start, done), j.groups[..n][n - 1]);
      assert Adds(effect, j.start, done, j.groups[n - 1]);
    }
  }

  // ---------- gathering ----------

  /** The loop after the first `n` groups were sent: `group` is gathered in the query, `rest` is to come. */
  ghost predicate Underway<T>(f: Form<T>, groups: seq<seq<T>>, n: nat, group: seq<T>, rest: seq<T>) {
    n <= |groups| && groups[n..] == Split(f, group, rest) && NotYetFull(f, group)
  }

  lemma Begin<T>(f: Form<T>, items: seq<T>)
    ensures Underway(f, Split(f, [], items), 0, [], items[0..]) && Opened(f, []) == f.head
  {
    assert Split(f, [], items)[0..] == Split(f, [], items) && items[0..] == items;
  }

  lemma Gather<T>(f: Form<T>, groups: seq<seq<T>>, n: nat, group: seq<T>, items: seq<T>, i: nat)
    requires i < |items| && Underway(f, groups, n, group, items[i..])
    ensures var g := group + [items[i]];
      && Opened(f, g) == Opened(f, group) + (if group != [] then "," else "") + Piece(f, items[i])
      && if Full(f, g) then n < |groups| && groups[n] == g && Underway(f, groups, n + 1, [], items[i + 1..])
         else Underway(f, groups, n, g, items[i + 1..])
  {
    var g, rest := group + [items[i]], items[i..];
    assert rest[0] == items[i] && rest[1..] == items[i + 1..] && g[..|group|] == group;
    if Full(f, g) {
      assert groups[n..][1..] == groups[n + 1..];
    }
  }

  lemma End<T>(f: Form<T>, groups: seq<seq<T>>, n: nat, group: seq<T>, items: seq<T>)
    requires Underway(f, groups, n, group, items[|items|..])
    ensures if group == [] then n == |groups| else |groups| == n + 1 && groups[n] == group
  {
  }

  lemma NoTail<T>(f: Form<T>, group: seq<T>)
    requires f.tail == ""
    ensures Statement(f, group) == Opened(f, group)
  {
  }

  lemma {:induction false} GroupIsShort<T>(f: Form<T>, group: seq<T>)
    requires |f.left| + |f.right| > 0
    ensures |group| <= |Opened(f, group)|
  {
    if group != [] { GroupIsShort(f, group[..|group| - 1]); }
  }

  // ---------- the calls ----------

  lemma ReplaceEachAccumulates<K(!new), V(!new)>()
    ensures Accumulates<map<K, V>, Row<K, V>>(ReplaceEach)
  {
    forall t: map<K, V>, a, b ensures Adds(ReplaceEach, t, a, b) {
      ReplaceEachAppend(t, a, b);
    }
  }

  /** A server that understands the groups done has replaced their rows. */
  lemma ReplaceIsDone<K(!new), V(!new)>(j: Job<map<K, V>, Row<K, V>>)
    ensures Understood(j.meaning, j.f, ReplaceEach, j.groups[..Done(j)]) ==>
      Result(j) == ReplaceEach(j.start, Concat(j.groups[..Done(j)]))
  {
    if Understood(j.meaning, j.f, ReplaceEach, j.groups[..Done(j)]) {
      ReplaceEachAccumulates<K, V>();
      ExecutedIs(j, ReplaceEach, Done(j));
    }
  }

  lemma ReplaceSentIs<K, V>(j: Job<map<K, V>, Row<K, V>>, table: string, fields: string, values: Row<K, V> -> string)
    requires j.f == ReplaceForm(table, fields, values, j.f.limit)
    ensures |j.before| <= |Sent(j)| <= |j.before| + |j.groups|
    ensures Sent(j) == j.before + ReplaceTexts(table, fields, values, j.groups[..|Sent(j)| - |j.before|])
  {
    var n := SentIs(j);
    ReplaceTextsAre(table, fields, values, j.f.limit, j.groups[..n]);
  }

  lemma RowText(head: string, text: string)
    ensures head + ") VALUES" + ("(" + text + ")") == head + ") VALUES(" + text + ")"
  {
    assert ") VALUES" + "(" == ") VALUES(";
    Behind(head, ") VALUES", "(");
    Behind(head + ") VALUES", "(" + text, ")");
    Behind(head + ") VALUES", "(", text);
  }

  /** `replaceDB`. */
  method ReplaceDB<K(!new), V(!new)>(conn: Connection<map<K, V>>, table: string, fields: string,
                                     values: Row<K, V> -> string, row: Row<K, V>) returns (rows: nat)
    modifies conn
    ensures var text := "REPLACE INTO `" + table + "` (" + fields + ") VALUES(" + values(row) + ")";
      && conn.sent == old(conn.sent) + [text]
      && var o := conn.answer(old(|conn.sent|));
      && conn.state == (if o.Rows? then conn.meaning(text, old(conn.state)) else old(conn.state))
      && (o.Rows? ==> rows == o.rows % UINT64) && (o.Failed? ==> rows == 0)
      && (o.Threw? ==> rows == 0xFFFF_FFFF_FFFF_FFFF)
    ensures Understood(conn.meaning, ReplaceForm(table, fields, values, 0), ReplaceEach, [[row]]) ==>
      conn.state == if conn.answer(old(|conn.sent|)).Rows? then ReplaceOne(old(conn.state), row) else old(conn.state)
  {
    ghost var f := ReplaceForm(table, fields, values, 0);
    var query := "REPLACE INTO `" + table + "` (" + fields + ") VALUES";
    query := query + "(" + values(row) + ")";
    assert [row][..0] == [] && Opened(f, [row]) == f.head + "" + Piece(f, row);
    ghost var text := "REPLACE INTO `" + table + "` (" + fields + ") VALUES(" + values(row) + ")";
    RowText("REPLACE INTO `" + table + "` (" + fields, values(row));
    assert query == text;
    assert query == Statement(f, [row]);
    assert Understood(conn.meaning, f, ReplaceEach, [[row]]) ==> Means(conn.meaning, f, ReplaceEach, conn.state, [[row]][0]);
    assert ReplaceEach(conn.state, [row]) == ReplaceOne(conn.state, row);
    var res := conn.Execute(query);
    match res
    case Failed => return 0;
    case Rows(n) => return n % UINT64;
    case Threw => return UINT64 - 1;
  }

  function ReplaceJob<K, V>(conn: Connection<map<K, V>>, safe: nat, table: string, fields: string,
                            values: Row<K, V> -> string, rows: seq<Row<K, V>>): Job<map<K, V>, Row<K, V>>
    reads conn
  {
    var f := ReplaceForm(table, fields, values, safe);
    Job(f, Split(f, [], rows), conn.meaning, conn.answer, conn.sent, conn.state, UINT64)
  }

  /** `replaceAll`. */
  method ReplaceAll<K(!new), V(!new)>(conn: Connection<map<K, V>>, maxPacket: nat, table: string, fields: string,
                                      values: Row<K, V> -> string, rows: seq<Row<K, V>>) returns (saved: nat)
    requires maxPacket < UINT32
    modifies conn
    ensures SafeSize(maxPacket) == 0 ==> saved == 0 && conn.sent == old(conn.sent) && conn.state == old(conn.state)
    ensures SafeSize(maxPacket) != 0 ==>
      var j := old(ReplaceJob(conn, SafeSize(maxPacket), table, fields, values, rows));
      && conn.sent == Sent(j) && conn.state == Result(j) && saved == Returned(j)
      && |old(conn.sent)| <= |conn.sent| <= |old(conn.sent)| + |j.groups|
      && conn.sent
         == old(conn.sent) + ReplaceTexts(table, fields, values, j.groups[..|conn.sent| - |old(conn.sent)|])
      && (Understood(j.meaning, j.f, ReplaceEach, j.groups[..Done(j)]) ==>
            conn.state == ReplaceEach(j.start, Concat(j.groups[..Done(j)])))
  {
    hide ReplaceTexts, Opened, Split, ReplaceEach, Concat, Sending, Underway, Sent, Result, Returned, Accumulates, Understood;
    ghost var j := ReplaceJob(conn, SafeSize(maxPacket), table, fields, values, rows);
    ghost var n, group: seq<Row<K, V>> := 0, [];
    ReplaceIsDone(j);
    ReplaceSentIs(j, table, fields, values);
    SendNone(j);
    Begin(j.f, rows);
    if |rows| == 0 {
      End(j.f, j.groups, n, group, rows);
      SendingStops(j, n, conn.sent, conn.state, 0);
      return 0;
    }
    var safe := SafeSize(maxPacket);
    if safe == 0 {
      return 0;
    }

    var head := "REPLACE INTO `" + table + "` (" + fields + ") VALUES";
    var query := head;
    saved := 0;
    var readycount := 0;
    for i := 0 to |rows|
      invariant Underway(j.f, j.groups, n, group, rows[i..])
      invariant query == Opened(j.f, group) && readycount == |group|
      invariant Sending(j, n, conn.sent, conn.state, saved)
    {
      Gather(j.f, j.groups, n, group, rows, i);
      GroupIsShort(j.f, group);
      if readycount != 0 {
        query := query + ",";
      }
      readycount := (readycount + 1) % UINT32;
      query := query + ("(" + values(rows[i]) + ")");
      group := group + [rows[i]];
      if |query| > safe {
        NoTail(j.f, group);
        var ok;
        ok, saved := Send(conn, query, saved, UINT64, j, n);
        if !ok {
          return;
        }
        query := head;
        readycount := 0;
        n, group := n + 1, [];
      }
    }
    End(j.f, j.groups, n, group, rows);
    if readycount != 0 {
      NoTail(j.f, group);
      var ok;
      ok, saved := Send(conn, query, saved, UINT64, j, n);
      if !ok {
        return;
      }
      n := n + 1;
    }
    SendingStops(j, n, conn.sent, conn.state, saved);
  }

  lemma DeleteEachAccumulates<K(!new), V(!new)>()
    ensures Accumulates<map<K, V>, K>(DeleteEach)
  {
    forall t: map<K, V>, a, b ensures Adds(DeleteEach, t, a, b) {
      DeleteEachAppend(t, a, b);
      assert DeleteEach(t, []) == t;
    }
  }

  /** A server that understands the groups done has deleted their keys. */
  lemma DeleteIsDone<K(!new), V(!new)>(j: Job<map<K, V>, K>)
    ensures Understood(j.meaning, j.f, DeleteEach, j.groups[..Done(j)]) ==>
      Result(j) == DeleteEach(j.start, Concat(j.groups[..Done(j)]))
  {
    if Understood(j.meaning, j.f, DeleteEach, j.groups[..Done(j)]) {
      DeleteEachAccumulates<K, V>();
      ExecutedIs(j, DeleteEach, Done(j));
    }
  }

  lemma DeleteSentIs<K, V>(j: Job<map<K, V>, K>, table: string, keyName: string, render: K -> string)
    requires j.f == DeleteForm(table, keyName, render, j.f.limit + 1)
    ensures |j.before| <= |Sent(j)| <= |j.before| + |j.groups|
    ensures Sent(j) == j.before + DeleteTexts(table, keyName, render, j.groups[..|Sent(j)| - |j.before|])
  {
    var n := SentIs(j);
    DeleteTextsAre(table, keyName, render, j.f.limit + 1, j.groups[..n]);
  }

  function DeleteJob<K, V>(conn: Connection<map<K, V>>, safe: nat, table: string, keyName: string,
                           render: K -> string, keys: seq<K>): Job<map<K, V>, K>
    requires safe > 0
    reads conn
  {
    var f := DeleteForm(table, keyName, render, safe);
    Job(f, Split(f, [], keys), conn.meaning, conn.answer, conn.sent, conn.state, UINT32)
  }

  /** `deleteWhereByKeys`. */
  method DeleteWhereByKeys<K(!new), V(!new)>(conn: Connection<map<K, V>>, maxPacket: nat, table: string, keyName: string,
                                             render: K -> string, keys: seq<K>) returns (affected: nat)
    requires maxPacket < UINT32
    modifies conn
    ensures keyName == [] || SafeSize(maxPacket) == 0 ==>
      affected == 0 && conn.sent == old(conn.sent) && conn.state == old(conn.state)
    ensures keyName != [] && SafeSize(maxPacket) != 0 ==>
      var j := old(DeleteJob(conn, SafeSize(maxPacket), table, keyName, render, keys));
      && conn.sent == Sent(j) && conn.state == Result(j) && affected == Returned(j)
      && |old(conn.sent)| <= |conn.sent| <= |old(conn.sent)| + |j.groups|
      && conn.sent == old(conn.sent) + DeleteTexts(table, keyName, render, j.groups[..|conn.sent| - |old(conn.sent)|])
      && (Understood(j.meaning, j.f, DeleteEach, j.groups[..Done(j)]) ==>
            conn.state == DeleteEach(j.start, Concat(j.groups[..Done(j)])))
  {
    hide DeleteTexts, Opened, Split, DeleteEach, Concat, Sending, Underway, Sent, Result, Returned, Accumulates, Understood;
    var safe := SafeSize(maxPacket);
    if keyName == [] || safe == 0 {
      return 0;
    }
    ghost var j := DeleteJob(conn, safe, table, keyName, render, keys);
    ghost var n, group: seq<K> := 0, [];
    DeleteIsDone(j);
    DeleteSentIs(j, table, keyName, render);
    SendNone(j);
    Begin(j.f, keys);
    if |keys| == 0 {
      End(j.f, j.groups, n, group, keys);
      SendingStops(j, n, conn.sent, conn.state, 0);
      return 0;
    }

    var header := "DELETE FROM `" + table + "` WHERE " + keyName + " IN(";
    var query := header;
    affected := 0;
    var isFirst := true;
    for i := 0 to |keys|
      invariant Underway(j.f, j.groups, n, group, keys[i..])
      invariant query == Opened(j.f, group) && isFirst == (group == [])
      invariant Sending(j, n, conn.sent, conn.state, affected)
    {
      Gather(j.f, j.groups, n, group, keys, i);
      if isFirst {
        query := query + ("`" + render(keys[i]) + "`");
        isFirst := false;
      } else {
        query := query + "," + ("`" + render(keys[i]) + "`");
      }
      group := group + [keys[i]];
      if |query| >= safe {
        query := query + ")";
        var ok;
        ok, affected := Send(conn, query, affected, UINT32, j, n);
        if !ok {
          return;
        }
        query := header;
        isFirst := true;
        n, group := n + 1, [];
      }
    }
    End(j.f, j.groups, n, group, keys);
    if !isFirst {
      query := query + ")";
      var ok;
      ok, affected := Send(conn, query, affected, UINT32, j, n);
      if !ok {
        return;
      }
      n := n + 1;
    }
    SendingStops(j, n, conn.sent, conn.state, affected);
  }

  // ---------- what the calls promise ----------

  /** Whatever the server answers, the groups done hold a prefix of the container, all of it just when every group is
      done. */
  lemma {:induction false} DoneIsAPrefix<S(!new), T(!new)>(j: Job<S, T>, items: seq<T>)
    requires j.groups == Split(j.f, [], items)
    ensures Concat(j.groups[..Done(j)]) <= items
    ensures Done(j) == |j.groups| <==> Concat(j.groups[..Done(j)]) == items
  {
    SplitIsTheGreedyOne(j.f, j.groups, items);
    var d := Done(j);
    assert j.groups == j.groups[..d] + j.groups[d..];
    ConcatAppend(j.groups[..d], j.groups[d..]);
    if d < |j.groups| {
      assert d < |j.groups| - 1 ==> JustFull(j.f, j.groups[d]);
      assert Concat(j.groups[d..]) == j.groups[d] + Concat(j.groups[d..][1..]);
    }
  }

  /** The groups done are a prefix of the rows, all of them just when every statement succeeds; and `replaceAll` leaves
      the table as `replaceDB` on each row of that prefix, one after the other, leaves it, if the server understands the
      statements. */
  lemma {:induction false} ReplaceAllIsOneByOne<K(!new), V(!new)>(j: Job<map<K, V>, Row<K, V>>, rows: seq<Row<K, V>>)
    returns (done: nat)
    requires j.groups == Split(j.f, [], rows)
    ensures done <= |rows| && rows[..done] == Concat(j.groups[..Done(j)])
    ensures Done(j) == |j.groups| <==> done == |rows|
    ensures Understood(j.meaning, j.f, ReplaceEach, j.groups[..Done(j)]) ==> Result(j) == ReplaceEach(j.start, rows[..done])
  {
    hide Done, Split, Result, Understood;
    DoneIsAPrefix(j, rows);
    ReplaceIsDone(j);
    done := |Concat(j.groups[..Done(j)])|;
    assert rows[..done] == Concat(j.groups[..Done(j)]);
  }

  /** What fits is what is sent. */
  lemma SentFits<S(!new), T(!new)>(j: Job<S, T>, items: seq<T>, packet: nat, i: nat)
    requires j.groups == Split(j.f, [], items) && Fit(j.f, items, packet)
    requires |j.before| <= i < |Sent(j)|
    ensures |Sent(j)[i]| <= packet
  {
    hide Split;
    var n := i - |j.before|;
    assert Sent(j)[i] == Statement(j.f, j.groups[n]);
  }

  /** The first group is sent whatever the server answers. */
  lemma FirstGroupIsSent<S, T>(j: Job<S, T>)
    requires j.groups != []
    ensures |Sent(j)| > |j.before| && Sent(j)[|j.before|] == Statement(j.f, j.groups[0])
  {
  }

  /** The packet bound: with a head shorter than the safe size and values of at most 997 characters, no statement that
      `replaceAll` sends outgrows what the server accepts, though each is sent only after it outgrew the safe size. */
  lemma ReplaceFits<K(!new), V(!new)>(j: Job<map<K, V>, Row<K, V>>, table: string, fields: string,
                                      values: Row<K, V> -> string, maxPacket: nat, rows: seq<Row<K, V>>, i: nat)
    requires maxPacket > SURPLUS && j.f == ReplaceForm(table, fields, values, SafeSize(maxPacket))
    requires |j.f.head| < SafeSize(maxPacket) && AtMost(j.f, rows, 997)
    requires j.groups == Split(j.f, [], rows) && |j.before| <= i < |Sent(j)|
    ensures |Sent(j)[i]| <= maxPacket
  {
    NoneIsLonger(j.f, rows, 0, 997);
    SentFits(j, rows, Longest(j.f, 0, 997), i);
  }

  /** The same for `deleteWhereByKeys` and keys of at most 997 characters. */
  lemma DeleteFits<K(!new), V(!new)>(j: Job<map<K, V>, K>, table: string, keyName: string, render: K -> string,
                                     maxPacket: nat, keys: seq<K>, i: nat)
    requires maxPacket > SURPLUS && j.f == DeleteForm(table, keyName, render, SafeSize(maxPacket))
    requires |j.f.head| < SafeSize(maxPacket) && AtMost(j.f, keys, 997)
    requires j.groups == Split(j.f, [], keys) && |j.before| <= i < |Sent(j)|
    ensures |Sent(j)[i]| <= maxPacket
  {
    NoneIsLonger(j.f, keys, 0, 997);
    SentFits(j, keys, Longest(j.f, 0, 997), i);
  }

  lemma FitsUpTo<T(!new)>(f: Form<T>, sample: nat -> T, least: nat, size: nat, packet: nat)
    requires Lengths(f, sample, least, size) && |f.left| + |f.right| == 2 && least <= 498
    requires |f.head| <= f.limit && packet == f.limit + |f.tail| + 1000
    ensures AllFit(f, size, packet) <==>
      size <= if |f.head| + 2 + least <= f.limit then 997 else packet - |f.head| - 2 - |f.tail|
  {
    FitExactly(f, sample, least, size, packet);
    if |f.head| + 2 + least > f.limit || 2 + 2 * least <= size {
      LongestInGeneral(f, least, size);
    }
  }

  /** The packet bound exactly, for any packet size and any table whose rows have values of every length from the shortest
      on: all containers whose values are at most `size` characters long give statements that fit exactly if the longest
      statement does. While the shortest row takes at most 498 characters that is: if `size` is at most 997, as soon as
      the head leaves room for the shortest row below the safe size; a head that does not makes statements of one row
      each. */
  lemma ReplaceFitsExactly<K(!new), V(!new)>(table: string, fields: string, values: Row<K, V> -> string, maxPacket: nat,
                                             sample: nat -> Row<K, V>, least: nat, size: nat)
    requires maxPacket > SURPLUS
    requires var f := ReplaceForm(table, fields, values, SafeSize(maxPacket));
      |f.head| < SafeSize(maxPacket) && Lengths(f, sample, least, size)
    ensures var f := ReplaceForm(table, fields, values, SafeSize(maxPacket));
      && (AllFit(f, size, maxPacket) <==> size < least || Longest(f, least, size) <= maxPacket)
      && (least <= 498 ==>
            (AllFit(f, size, maxPacket) <==>
               size <= if |f.head| + 2 + least <= SafeSize(maxPacket) then 997 else maxPacket - |f.head| - 2))
  {
    var f := ReplaceForm(table, fields, values, SafeSize(maxPacket));
    FitExactly(f, sample, least, size, maxPacket);
    if least <= 498 { FitsUpTo(f, sample, least, size, maxPacket); }
  }

  /** The same for the keys of `deleteWhereByKeys`. */
  lemma DeleteFitsExactly<K(!new)>(table: string, keyName: string, render: K -> string, maxPacket: nat,
                                   sample: nat -> K, least: nat, size: nat)
    requires maxPacket > SURPLUS
    requires var f := DeleteForm(table, keyName, render, SafeSize(maxPacket));
      |f.head| < SafeSize(maxPacket) && Lengths(f, sample, least, size)
    ensures var f := DeleteForm(table, keyName, render, SafeSize(maxPacket));
      && (AllFit(f, size, maxPacket) <==> size < least || Longest(f, least, size) <= maxPacket)
      && (least <= 498 ==>
            (AllFit(f, size, maxPacket) <==>
               size <= if |f.head| + 3 + least <= SafeSize(maxPacket) then 997 else maxPacket - |f.head| - 3))
  {
    var f := DeleteForm(table, keyName, render, SafeSize(maxPacket));
    FitExactly(f, sample, least, size, maxPacket);
    if least <= 498 { FitsUpTo(f, sample, least, size, maxPacket); }
  }

  /** And what does not fit is sent: some container of items of at most `size` characters goes out as one statement, as
      long as `Longest` says. */
  lemma LongestIsSent<S(!new), T(!new)>(j: Job<S, T>, sample: nat -> T, least: nat, size: nat) returns (items: seq<T>)
    requires Lengths(j.f, sample, least, size) && least <= size && |j.f.head| <= j.f.limit
    ensures AtMost(j.f, items, size)
    ensures j.groups == Split(j.f, [], items) ==>
      |Sent(j)| > |j.before| && |Sent(j)[|j.before|]| == Longest(j.f, least, size)
  {
    items := LongestIsReached(j.f, sample, least, size);
    if j.groups == Split(j.f, [], items) { FirstGroupIsSent(j); }
  }
}
