/** How `replaceAll` and `deleteWhereByKeys` cut a container into statements that a packet can hold. */
module Batches {
  import opened Modular
  import opened Sequences

  /** The shape of a statement: a head, the items between their quotes with commas in between, a tail. A statement is
      sent as soon as its text, the tail aside, is longer than `limit`. */
  datatype Form<!T> = Form(head: string, left: string, right: string, tail: string, limit: nat, render: T -> string)

  function Piece<T>(f: Form<T>, item: T): string { f.left + f.render(item) + f.right }

  /** The text before the tail. */
  function Opened<T>(f: Form<T>, group: seq<T>): string {
    if group == [] then f.head
    else
      var k := |group| - 1;
      Opened(f, group[..k]) + (if k > 0 then "," else "") + Piece(f, group[k])
  }

  function Statement<T>(f: Form<T>, group: seq<T>): string { Opened(f, group) + f.tail }

  /** The items as they stand in the text. */
  function Pieces<T>(f: Form<T>, group: seq<T>): seq<string> {
    seq(|group|, k requires 0 <= k < |group| => f.left + f.render(group[k]) + f.right)
  }

  /** A statement is its head, its items with commas in between, and its tail. */
  lemma {:induction false} StatementIs<T>(f: Form<T>, group: seq<T>)
    ensures Opened(f, group) == f.head + Joined(Pieces(f, group), ",")
    ensures Statement(f, group) == f.head + Joined(Pieces(f, group), ",") + f.tail
  {
    if group == [] {
      assert f.head + [] == f.head;
    } else {
      var k := |group| - 1;
      var front, last := Pieces(f, group[..k]), Piece(f, group[k]);
      StatementIs(f, group[..k]);
      assert Pieces(f, group) == front + [last];
      if k == 0 {
        assert group[..k] == [] && front == [] && front + [last] == [last] && f.head + "" == f.head;
      } else {
        JoinedSnoc(front, ",", last);
        Behind(f.head, Joined(front, ","), ",");
        Behind(f.head, Joined(front, ",") + ",", last);
      }
    }
  }

  predicate Full<T>(f: Form<T>, group: seq<T>) { |Opened(f, group)| > f.limit }

  /** The groups that are still sent when `group` is gathered and `rest` is to come. */
  function Split<T>(f: Form<T>, group: seq<T>, rest: seq<T>): seq<seq<T>>
    decreases |rest|
  {
    if rest == [] then if group == [] then [] else [group]
    else
      var g := group + [rest[0]];
      if Full(f, g) then [g] + Split(f, [], rest[1..]) else Split(f, g, rest[1..])
  }

  // ---------- what the split is ----------

  /** A group that is sent early: one that is full, and was not before its last item came. */
  predicate JustFull<T>(f: Form<T>, group: seq<T>) {
    group != [] && Full(f, group) && NotYetFull(f, group[..|group| - 1])
  }

  predicate NotYetFull<T>(f: Form<T>, group: seq<T>) { group == [] || !Full(f, group) }

  predicate LastGroup<T>(f: Form<T>, group: seq<T>) { group != [] && NotYetFull(f, group[..|group| - 1]) }

  ghost predicate GreedySplit<T(!new)>(f: Form<T>, groups: seq<seq<T>>, items: seq<T>) {
    && Concat(groups) == items
    && (forall i :: 0 <= i < |groups| - 1 ==> JustFull(f, groups[i]))
    && (groups != [] ==> LastGroup(f, groups[|groups| - 1]))
  }

  lemma {:induction false} OpenedGrows<T>(f: Form<T>, group: seq<T>, k: nat)
    requires k <= |group|
    ensures |Opened(f, group[..k])| <= |Opened(f, group)|
    decreases |group|
  {
    if k < |group| {
      OpenedGrows(f, group[..|group| - 1], k);
      assert group[..|group| - 1][..k] == group[..k];
    } else {
      assert group[..k] == group;
    }
  }

  lemma {:induction false} SplitIsGreedyFrom<T(!new)>(f: Form<T>, group: seq<T>, rest: seq<T>)
    requires NotYetFull(f, group)
    ensures GreedySplit(f, Split(f, group, rest), group + rest)
    decreases |rest|
  {
    if rest == [] {
      if group != [] {
        OneGroup(f, group);
        assert group + rest == group;
      }
    } else {
      var g := group + [rest[0]];
      assert g[..|g| - 1] == group && g + rest[1..] == group + rest;
      if Full(f, g) {
        SplitIsGreedyFrom(f, [], rest[1..]);
        GroupFirst(f, g, Split(f, [], rest[1..]), rest[1..]);
      } else {
        SplitIsGreedyFrom(f, g, rest[1..]);
      }
    }
  }

  lemma OneGroup<T(!new)>(f: Form<T>, group: seq<T>)
    requires group != [] && NotYetFull(f, group)
    ensures GreedySplit(f, [group], group)
  {
    var groups := [group];
    OpenedGrows(f, group, |group| - 1);
    assert groups[1..] == [] && groups[0] == group;
    assert Concat(groups) == group;
    assert groups[|groups| - 1] == group && LastGroup(f, groups[|groups| - 1]);
  }

  lemma GroupFirst<T(!new)>(f: Form<T>, group: seq<T>, groups: seq<seq<T>>, items: seq<T>)
    requires JustFull(f, group) && GreedySplit(f, groups, [] + items)
    ensures GreedySplit(f, [group] + groups, group + items)
  {
    var all := [group] + groups;
    assert all[1..] == groups && [] + items == items;
    forall i | 0 <= i < |all| - 1 ensures JustFull(f, all[i]) {
      assert i > 0 ==> all[i] == groups[i - 1];
    }
  }

  /** However many items of a group are already gathered, the group is sent where it becomes full, or at the end. */
  lemma {:induction false} GroupIsSent<T>(f: Form<T>, g: seq<T>, k: nat, later: seq<T>)
    requires LastGroup(f, g) && k < |g| && (Full(f, g) || later == [])
    ensures Split(f, g[..k], g[k..] + later) == [g] + Split(f, [], later)
    decreases |g| - k
  {
    var rest := g[k..] + later;
    assert g[..k] + [rest[0]] == g[..k + 1] && rest[1..] == g[k + 1..] + later;
    if k + 1 < |g| {
      PrefixesNotYetFull(f, g, k + 1);
      GroupIsSent(f, g, k + 1, later);
    } else {
      assert g[..k + 1] == g && rest[1..] == later;
    }
  }

  lemma {:induction false} GreedyIsSplit<T(!new)>(f: Form<T>, groups: seq<seq<T>>)
    requires GreedySplit(f, groups, Concat(groups))
    ensures Split(f, [], Concat(groups)) == groups
    decreases |groups|
  {
    if groups != [] {
      var g, rest := groups[0], groups[1..];
      assert |groups| > 1 ==> JustFull(f, groups[0]);
      assert groups == [g] + rest && Concat(groups) == g[0..] + Concat(rest) && g[..0] == [];
      GroupIsSent(f, g, 0, Concat(rest));
      RestIsGreedy(f, groups);
      GreedyIsSplit(f, rest);
    }
  }

  lemma RestIsGreedy<T(!new)>(f: Form<T>, groups: seq<seq<T>>)
    requires GreedySplit(f, groups, Concat(groups)) && groups != []
    ensures GreedySplit(f, groups[1..], Concat(groups[1..]))
  {
    var rest := groups[1..];
    forall i | 0 <= i < |rest| - 1 ensures JustFull(f, rest[i]) {
      assert JustFull(f, groups[i + 1]);
    }
    assert rest != [] ==> rest[|rest| - 1] == groups[|groups| - 1];
  }

  lemma PrefixesNotYetFull<T>(f: Form<T>, group: seq<T>, k: nat)
    requires LastGroup(f, group) && k < |group|
    ensures NotYetFull(f, group[..k])
    decreases |group| - k
  {
    OpenedGrows(f, group[..|group| - 1], k);
    assert group[..|group| - 1][..k] == group[..k];
  }

  /** The split is the only one whose groups are non-empty, follow each other as the items do, and end where they
      first become full. */
  lemma {:induction false} SplitIsTheGreedyOne<T(!new)>(f: Form<T>, groups: seq<seq<T>>, items: seq<T>)
    ensures GreedySplit(f, groups, items) <==> groups == Split(f, [], items)
  {
    SplitIsGreedyFrom(f, [], items);
    assert [] + items == items;
    if GreedySplit(f, groups, items) {
      GreedyIsSplit(f, groups);
    }
  }

  // ---------- packets ----------

  /** Every rendered item is at most `size` characters long. */
  ghost predicate AtMost<T(!new)>(f: Form<T>, items: seq<T>, size: nat) {
    forall x :: x in items ==> |f.render(x)| <= size
  }

  lemma {:induction false} GroupInConcat<T>(groups: seq<seq<T>>, i: nat)
    requires i < |groups|
    ensures forall x :: x in groups[i] ==> x in Concat(groups)
  {
    if i > 0 { GroupInConcat(groups[1..], i - 1); }
  }

  // ---------- the exact bound ----------

  /** No item is rendered as fewer than `least` characters, and `sample(k)` is rendered as `k` characters, for every `k`
      from there up to `size`. */
  ghost predicate Lengths<T(!new)>(f: Form<T>, sample: nat -> T, least: nat, size: nat) {
    && (forall x :: least <= |f.render(x)|)
    && forall k: nat :: least <= k <= size ==> |f.render(sample(k))| == k
  }

  ghost predicate Fit<T>(f: Form<T>, items: seq<T>, packet: nat) {
    forall i :: 0 <= i < |Split(f, [], items)| ==> |Statement(f, Split(f, [], items)[i])| <= packet
  }

  /** Every statement that any container of items of at most `size` characters gives has at most `packet` characters. */
  ghost predicate AllFit<T(!new)>(f: Form<T>, size: nat, packet: nat) {
    forall items :: AtMost(f, items, size) ==> Fit(f, items, packet)
  }

  /** What an item of `k` characters takes: its quotes and a comma. */
  function Space<T>(f: Form<T>, k: nat): nat { |f.left| + |f.right| + k + 1 }

  /** The most items that go in front of the last one. */
  function Most<T>(f: Form<T>, least: nat): nat
    requires |f.head| <= f.limit
  {
    (f.limit - |f.head| + 1) / Space(f, least)
  }

  /** The most that the items in front of the last one take, all of at most `size` characters. */
  function Filled<T>(f: Form<T>, least: nat, size: nat): nat
    requires |f.head| <= f.limit
  {
    var room, most := f.limit - |f.head| + 1, Times(Most(f, least), Space(f, size));
    if most < room then most else room
  }

  /** The longest statement: an item of `size` characters behind items that fill as much of the limit as they can. */
  function Longest<T>(f: Form<T>, least: nat, size: nat): nat
    requires |f.head| <= f.limit
  {
    |f.head| + Filled(f, least, size) + |f.left| + size + |f.right| + |f.tail|
  }

  lemma OpenedSnoc<T>(f: Form<T>, group: seq<T>, item: T)
    ensures |Opened(f, group + [item])|
         == |Opened(f, group)| + (if group == [] then 0 else 1) + Space(f, |f.render(item)|) - 1
  {
    assert (group + [item])[..|group|] == group;
  }

  /** What a group takes, a comma behind it included. */
  function Taken<T>(f: Form<T>, group: seq<T>): int {
    |Opened(f, group)| - |f.head| + if group == [] then 0 else 1
  }

  lemma TakenSnoc<T>(f: Form<T>, group: seq<T>, item: T)
    ensures Taken(f, group + [item]) == Taken(f, group) + Space(f, |f.render(item)|)
  {
    OpenedSnoc(f, group, item);
  }

  lemma {:induction false} TakenBounds<T(!new)>(f: Form<T>, group: seq<T>, least: nat, size: nat)
    requires AtMost(f, group, size) && forall x :: x in group ==> least <= |f.render(x)|
    ensures Times(|group|, Space(f, least)) <= Taken(f, group) <= Times(|group|, Space(f, size))
  {
    if group != [] {
      var n := |group| - 1;
      TakenBounds(f, group[..n], least, size);
      assert group == group[..n] + [group[n]] && group[n] in group;
      TakenSnoc(f, group[..n], group[n]);
      TimesNext(n + 1, Space(f, least));
      TimesNext(n + 1, Space(f, size));
      hide Taken, Times;
    }
  }

  /** What stands in front of the last item takes no more than `Filled`. */
  lemma FrontIsFilled<T(!new)>(f: Form<T>, front: seq<T>, least: nat, size: nat)
    requires |f.head| <= f.limit && NotYetFull(f, front) && AtMost(f, front, size)
    requires forall x :: x in front ==> least <= |f.render(x)|
    ensures Taken(f, front) <= Filled(f, least, size)
  {
    var room := f.limit - |f.head| + 1;
    TakenBounds(f, front, least, size);
    assert Taken(f, front) <= room;
    TimesFits(|front|, Space(f, least), room);
    TimesGrows(|front|, Most(f, least), Space(f, size), Space(f, size));
  }

  lemma LastGroupIsNoLonger<T(!new)>(f: Form<T>, group: seq<T>, least: nat, size: nat)
    requires LastGroup(f, group) && |f.head| <= f.limit && AtMost(f, group, size)
    requires forall x :: x in group ==> least <= |f.render(x)|
    ensures |Statement(f, group)| <= Longest(f, least, size)
  {
    var k := |group| - 1;
    assert group == group[..k] + [group[k]] && group[k] in group;
    OpenedSnoc(f, group[..k], group[k]);
    FrontIsFilled(f, group[..k], least, size);
  }

  lemma NoneIsLonger<T(!new)>(f: Form<T>, items: seq<T>, least: nat, size: nat)
    requires |f.head| <= f.limit && AtMost(f, items, size) && forall x :: x in items ==> least <= |f.render(x)|
    ensures Fit(f, items, Longest(f, least, size))
  {
    var groups := Split(f, [], items);
    SplitIsGreedyFrom(f, [], items);
    assert [] + items == items;
    forall i | 0 <= i < |groups| ensures |Statement(f, groups[i])| <= Longest(f, least, size) {
      GroupInConcat(groups, i);
      assert i < |groups| - 1 ==> JustFull(f, groups[i]);
      LastGroupIsNoLonger(f, groups[i], least, size);
    }
  }

  /** However many items take any space between `n` of the least and `n` of the greatest. */
  lemma {:induction false} Filling<T(!new)>(f: Form<T>, sample: nat -> T, least: nat, size: nat, n: nat, space: nat)
    returns (group: seq<T>)
    requires Lengths(f, sample, least, size) && least <= size
    requires Times(n, Space(f, least)) <= space <= Times(n, Space(f, size))
    ensures |group| == n && Taken(f, group) == space && AtMost(f, group, size)
  {
    if n == 0 {
      group := [];
    } else {
      TimesNext(n, Space(f, least));
      TimesNext(n, Space(f, size));
      TimesGrows(n - 1, n - 1, Space(f, least), Space(f, size));
      hide Taken, Times;
      var low := Times(n - 1, Space(f, least));
      var last := if space - low < Space(f, size) then space - low - Space(f, 0) else size;
      var front := Filling(f, sample, least, size, n - 1, space - Space(f, last));
      TakenSnoc(f, front, sample(last));
      group := front + [sample(last)];
    }
  }

  /** A group that just fits and one item more are sent in one statement. */
  lemma OneMoreItem<T(!new)>(f: Form<T>, group: seq<T>, item: T)
    requires NotYetFull(f, group) && Full(f, group + [item])
    ensures Split(f, [], group + [item]) == [group + [item]]
  {
    var g := group + [item];
    assert g[..|g| - 1] == group && [g][1..] == [] && Concat([g]) == g;
    assert LastGroup(f, [g][|[g]| - 1]);
    assert GreedySplit(f, [g], g);
    SplitIsTheGreedyOne(f, [g], g);
  }

  /** `Filled` can be filled by as many items as go in front of the last one, and then the last one is one too many. */
  lemma FilledIsBetween<T>(f: Form<T>, least: nat, size: nat)
    requires |f.head| <= f.limit && least <= size
    ensures Times(Most(f, least), Space(f, least)) <= Filled(f, least, size) <= Times(Most(f, least), Space(f, size))
    ensures Filled(f, least, size) + Space(f, size) > f.limit - |f.head| + 1
  {
    TimesQuotient(f.limit - |f.head| + 1, Space(f, least));
    TimesGrows(Most(f, least), Most(f, least), Space(f, least), Space(f, size));
  }

  lemma LongestIsReached<T(!new)>(f: Form<T>, sample: nat -> T, least: nat, size: nat) returns (items: seq<T>)
    requires Lengths(f, sample, least, size) && least <= size && |f.head| <= f.limit
    ensures AtMost(f, items, size) && Split(f, [], items) == [items]
    ensures |Statement(f, items)| == Longest(f, least, size)
  {
    FilledIsBetween(f, least, size);
    var group := Filling(f, sample, least, size, Most(f, least), Filled(f, least, size));
    OpenedSnoc(f, group, sample(size));
    OneMoreItem(f, group, sample(size));
    items := group + [sample(size)];
  }

  /** All statements of all containers fit exactly when the longest does, or when there is no item at all so short. */
  lemma FitExactly<T(!new)>(f: Form<T>, sample: nat -> T, least: nat, size: nat, packet: nat)
    requires Lengths(f, sample, least, size) && |f.head| <= f.limit
    ensures AllFit(f, size, packet) <==> size < least || Longest(f, least, size) <= packet
  {
    forall items | AtMost(f, items, size)
      ensures size < least ==> items == []
      ensures Fit(f, items, Longest(f, least, size))
    {
      if items != [] { assert items[0] in items; }
      NoneIsLonger(f, items, least, size);
    }
    if least <= size {
      var items := LongestIsReached(f, sample, least, size);
      if AllFit(f, size, packet) { assert Fit(f, items, packet) && Split(f, [], items)[0] == items; }
    }
  }

  /** A head that leaves room for an item below the limit lets items fill the limit to the last character, if two of the
      shortest items take no more than one of the longest; another head makes statements of one item each. */
  lemma LongestInGeneral<T>(f: Form<T>, least: nat, size: nat)
    requires |f.head| <= f.limit
    requires |f.head| + Space(f, least) <= f.limit + 1 ==> |f.left| + |f.right| + 2 * least <= size
    ensures Longest(f, least, size) == (if |f.head| + Space(f, least) <= f.limit + 1 then f.limit + 1 else |f.head|)
                                       + |f.left| + size + |f.right| + |f.tail|
  {
    var room, low, n := f.limit - |f.head| + 1, Space(f, least), Most(f, least);
    if low <= room {
      TimesNext(1, low);
      TimesFits(1, low, room);
      TimesQuotient(room, low);
      TimesDouble(n, low);
      TimesGrows(n, n, 2 * low - 1, Space(f, size));
    } else {
      SmallQuotient(room, low);
    }
  }
}
