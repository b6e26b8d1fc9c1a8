/** Which groups of rows or keys a server can tell apart by the texts of their statements. */
module StatementTexts {
  import opened Batches
  import opened MySqlConn
  import opened Sequences

  ghost predicate SameEffect<S(!new), T>(effect: (S, seq<T>) -> S, g: seq<T>, h: seq<T>) {
    forall s :: effect(s, g) == effect(s, h)
  }

  /** Groups whose statements have the same text have the same effect. */
  ghost predicate Unambiguous<S(!new), T>(f: Form<T>, effect: (S, seq<T>) -> S, groups: seq<seq<T>>) {
    forall i, j :: 0 <= i < |groups| && 0 <= j < |groups| && Statement(f, groups[i]) == Statement(f, groups[j]) ==>
      SameEffect(effect, groups[i], groups[j])
  }

  /** The server that reads a text as the first of the groups it can stand for. */
  function ReadAs<S, T>(f: Form<T>, effect: (S, seq<T>) -> S, groups: seq<seq<T>>, text: string, s: S): S {
    if groups == [] then s
    else if Statement(f, groups[0]) == text then effect(s, groups[0])
    else ReadAs(f, effect, groups[1..], text, s)
  }

  lemma {:induction false} ReadAsOne<S(!new), T>(f: Form<T>, effect: (S, seq<T>) -> S, groups: seq<seq<T>>, i: nat, s: S)
    requires i < |groups| && forall j :: 0 <= j < |groups| && Statement(f, groups[j]) == Statement(f, groups[i]) ==>
      SameEffect(effect, groups[j], groups[i])
    ensures ReadAs(f, effect, groups, Statement(f, groups[i]), s) == effect(s, groups[i])
  {
    if Statement(f, groups[0]) == Statement(f, groups[i]) {
      assert SameEffect(effect, groups[0], groups[i]);
    } else {
      forall j | 0 <= j < |groups[1..]| && Statement(f, groups[1..][j]) == Statement(f, groups[i])
        ensures SameEffect(effect, groups[1..][j], groups[i])
      {
        assert groups[1..][j] == groups[j + 1];
      }
      ReadAsOne(f, effect, groups[1..], i - 1, s);
    }
  }

  /** Some server understands the statements of these groups exactly if their texts are unambiguous. */
  lemma SomeServerUnderstands<S(!new), T(!new)>(f: Form<T>, effect: (S, seq<T>) -> S, groups: seq<seq<T>>)
    ensures (exists meaning: (string, S) -> S :: Understood(meaning, f, effect, groups))
       <==> Unambiguous(f, effect, groups)
  {
    if meaning: (string, S) -> S :| Understood(meaning, f, effect, groups) {
      forall i, j | 0 <= i < |groups| && 0 <= j < |groups| && Statement(f, groups[i]) == Statement(f, groups[j])
        ensures SameEffect(effect, groups[i], groups[j])
      {
        forall s ensures effect(s, groups[i]) == effect(s, groups[j]) {
          assert Means(meaning, f, effect, s, groups[i]) && Means(meaning, f, effect, s, groups[j]);
        }
      }
    }
    if Unambiguous(f, effect, groups) {
      var meaning := (text: string, s: S) => ReadAs(f, effect, groups, text, s);
      forall s, i | 0 <= i < |groups| ensures Means(meaning, f, effect, s, groups[i]) {
        ReadAsOne(f, effect, groups, i, s);
      }
      assert Understood(meaning, f, effect, groups);
    }
  }

  // ---------- when texts tell the groups ----------

  /** Where a text ends with an item that is `clean`, it shows which. */
  ghost predicate ShowsLast<T(!new)>(f: Form<T>, clean: T -> bool) {
    forall x, y, a: string, b: string :: clean(x) && clean(y) && a + Piece(f, x) == b + Piece(f, y) ==> a == b && x == y
  }

  ghost predicate AllClean<T>(clean: T -> bool, group: seq<T>) { forall k :: 0 <= k < |group| ==> clean(group[k]) }

  /** The text in front of the last item. */
  function InFront<T>(f: Form<T>, group: seq<T>): string
    requires group != []
  {
    if |group| > 1 then Opened(f, group[..|group| - 1]) + "," else f.head
  }

  lemma OpenedLast<T>(f: Form<T>, group: seq<T>)
    requires group != []
    ensures Opened(f, group) == InFront(f, group) + Piece(f, group[|group| - 1])
  {
    var k := |group| - 1;
    assert k == 0 ==> group[..k] == [] && f.head + "" == f.head;
  }

  lemma {:induction false} OpenedIsLonger<T>(f: Form<T>, group: seq<T>)
    ensures |Opened(f, group)| >= |f.head|
  {
    if group != [] { OpenedIsLonger(f, group[..|group| - 1]); }
  }

  lemma FrontTellsOne<T>(f: Form<T>, g: seq<T>, h: seq<T>)
    requires g != [] && h != [] && InFront(f, g) == InFront(f, h)
    ensures |g| > 1 <==> |h| > 1
    ensures |g| > 1 ==> Opened(f, g[..|g| - 1]) == Opened(f, h[..|h| - 1])
  {
    OpenedIsLonger(f, g[..|g| - 1]);
    OpenedIsLonger(f, h[..|h| - 1]);
    if |g| > 1 && |h| > 1 { SameStart(Opened(f, g[..|g| - 1]), Opened(f, h[..|h| - 1]), ","); }
  }

  lemma HeadIsNoGroup<T>(f: Form<T>, group: seq<T>)
    requires group != [] && |f.left| > 0
    ensures Opened(f, group) != f.head
  {
    OpenedLast(f, group);
    OpenedIsLonger(f, group[..|group| - 1]);
  }

  /** Then the text shows the whole group. */
  lemma {:induction false} TextTellsGroup<T(!new)>(f: Form<T>, clean: T -> bool, g: seq<T>, h: seq<T>)
    requires ShowsLast(f, clean) && AllClean(clean, g) && AllClean(clean, h) && |f.left| > 0
    requires Opened(f, g) == Opened(f, h)
    ensures g == h
    decreases |g|
  {
    if g == [] {
      if h != [] { HeadIsNoGroup(f, h); }
    } else if h == [] {
      HeadIsNoGroup(f, g);
    } else {
      hide Opened, InFront, Piece;
      var m, n := |g| - 1, |h| - 1;
      OpenedLast(f, g);
      OpenedLast(f, h);
      assert InFront(f, g) == InFront(f, h) && g[m] == h[n];
      hide ShowsLast;
      FrontTellsOne(f, g, h);
      if m > 0 { TextTellsGroup(f, clean, g[..m], h[..n]); }
      assert g == g[..m] + [g[m]] && h == h[..n] + [h[n]];
    }
  }

  lemma SameStart(a: string, b: string, c: string)
    requires a + c == b + c
    ensures a == b
  {
    assert a == (a + c)[..|a|] && b == (b + c)[..|b|];
  }

  /** And any groups of clean items are understood by some server, whatever their effect. */
  lemma CleanIsUnambiguous<S(!new), T(!new)>(f: Form<T>, clean: T -> bool, effect: (S, seq<T>) -> S, groups: seq<seq<T>>)
    requires ShowsLast(f, clean) && |f.left| > 0 && forall i :: 0 <= i < |groups| ==> AllClean(clean, groups[i])
    ensures Unambiguous(f, effect, groups)
  {
    forall i, j | 0 <= i < |groups| && 0 <= j < |groups| && Statement(f, groups[i]) == Statement(f, groups[j])
      ensures SameEffect(effect, groups[i], groups[j])
    {
      SameStart(Opened(f, groups[i]), Opened(f, groups[j]), f.tail);
      TextTellsGroup(f, clean, groups[i], groups[j]);
    }
  }

  /** A text that can be cut at two marks has the later one behind the earlier. */
  lemma MarkBehind(a: string, x: string, b: string, y: string, mark: char)
    requires a + [mark] + x == b + [mark] + y && |a| < |b|
    ensures mark in x
  {
    assert x[|b| - |a| - 1] == (b + [mark] + y)[|b|];
  }

  /** What stands behind the last mark, if there is none in it, is what the text shows. */
  lemma BehindLastMark(a: string, x: string, b: string, y: string, mark: char)
    requires a + [mark] + x == b + [mark] + y && mark !in x && mark !in y
    ensures a == b && x == y
  {
    if |a| < |b| { MarkBehind(a, x, b, y, mark); }
    if |b| < |a| { MarkBehind(b, y, a, x, mark); }
    var t := a + [mark] + x;
    assert a == t[..|a|] && b == t[..|b|] && x == t[|a| + 1..] && y == t[|b| + 1..];
  }

  // ---------- keys of text ----------

  function Verbatim(table: string, keyName: string, safe: nat): Form<string>
    requires safe > 0
  {
    DeleteForm(table, keyName, (k: string) => k, safe)
  }

  predicate NoBacktick(key: string) { '`' !in key }

  lemma KeysShowLast(table: string, keyName: string, safe: nat)
    requires safe > 0
    ensures ShowsLast(Verbatim(table, keyName, safe), NoBacktick)
  {
    var f := Verbatim(table, keyName, safe);
    forall x, y, a: string, b: string | NoBacktick(x) && NoBacktick(y) && a + Piece(f, x) == b + Piece(f, y)
      ensures a == b && x == y
    {
      assert a + Piece(f, x) == a + "`" + x + "`" && b + Piece(f, y) == b + "`" + y + "`";
      SameStart(a + "`" + x, b + "`" + y, "`");
      BehindLastMark(a, x, b, y, '`');
    }
  }

  /** For keys of text without a backtick some server understands every statement that `deleteWhereByKeys` can send. */
  lemma PlainKeysAreUnderstood<V(!new)>(table: string, keyName: string, safe: nat, keys: seq<string>)
    requires safe > 0 && AllClean(NoBacktick, keys)
    ensures var f := Verbatim(table, keyName, safe);
      exists meaning: (string, map<string, V>) -> map<string, V> ::
        Understood(meaning, f, DeleteEach, Split(f, [], keys))
  {
    var f := Verbatim(table, keyName, safe);
    var groups := Split(f, [], keys);
    KeysShowLast(table, keyName, safe);
    SplitIsCut(f, NoBacktick, keys);
    CleanIsUnambiguous<map<string, V>, string>(f, NoBacktick, DeleteEach, groups);
    SomeServerUnderstands<map<string, V>, string>(f, DeleteEach, groups);
  }

  /** The groups of a container of clean items hold clean items. */
  lemma SplitIsCut<T(!new)>(f: Form<T>, clean: T -> bool, items: seq<T>)
    requires AllClean(clean, items)
    ensures forall i :: 0 <= i < |Split(f, [], items)| ==> AllClean(clean, Split(f, [], items)[i])
  {
    var groups := Split(f, [], items);
    SplitIsTheGreedyOne(f, groups, items);
    forall i | 0 <= i < |groups| ensures AllClean(clean, groups[i]) {
      GroupInConcat(groups, i);
      forall k | 0 <= k < |groups[i]| ensures clean(groups[i][k]) { assert groups[i][k] in items; }
    }
  }

  /** With backticks in them, one key and two keys can have one text, which no server reads as both. */
  lemma KeysMayBeAmbiguous(table: string, keyName: string, safe: nat)
    requires safe > 0
    ensures !Unambiguous<map<string, int>, string>(Verbatim(table, keyName, safe), DeleteEach, [["a`,`b"], ["a", "b"]])
  {
    var f, g, h := Verbatim(table, keyName, safe), ["a`,`b"], ["a", "b"];
    OpenedLast(f, g);
    OpenedLast(f, h);
    OpenedLast(f, ["a"]);
    assert h[..1] == ["a"];
    assert Opened(f, g) == f.head + ("`" + "a`,`b" + "`") == f.head + "`a`,`b`";
    assert Opened(f, h) == f.head + ("`" + "a" + "`") + "," + ("`" + "b" + "`") == f.head + "`a`,`b`";
    var t := map["a" := 0];
    assert "a" in DeleteEach(t, g) && "a" !in DeleteEach(t, h);
    assert !SameEffect<map<string, int>, string>(DeleteEach, g, h);
    var groups := [g, h];
    assert groups[0] == g && groups[1] == h;
  }
}
