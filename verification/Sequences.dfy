/** Sequences put together. */
module Sequences {

  lemma Behind<T>(a: seq<T>, b: seq<T>, c: seq<T>)
    ensures a + b + c == a + (b + c)
  {
  }

  /** No element stands at two places. */
  ghost predicate Distinct<T>(s: seq<T>) { forall i, j | 0 <= i < j < |s| :: s[i] != s[j] }

  function Concat<T>(parts: seq<seq<T>>): seq<T> {
    if parts == [] then [] else parts[0] + Concat(parts[1..])
  }

  lemma {:induction false} ConcatAppend<T>(a: seq<seq<T>>, b: seq<seq<T>>)
    ensures Concat(a + b) == Concat(a) + Concat(b)
  {
    if a == [] {
      assert a + b == b;
    } else {
      assert (a + b)[1..] == a[1..] + b;
      ConcatAppend(a[1..], b);
      Behind(a[0], Concat(a[1..]), Concat(b));
    }
  }

  /** The parts with a separator between any two. */
  function Joined<T>(parts: seq<seq<T>>, separator: seq<T>): seq<T> {
    if parts == [] then [] else if |parts| == 1 then parts[0] else parts[0] + separator + Joined(parts[1..], separator)
  }

  lemma {:induction false} JoinedSnoc<T>(parts: seq<seq<T>>, separator: seq<T>, part: seq<T>)
    requires parts != []
    ensures Joined(parts + [part], separator) == Joined(parts, separator) + separator + part
  {
    var more := parts + [part];
    assert more[1..] == parts[1..] + [part] && more[0] == parts[0];
    if |parts| == 1 {
      assert more[1..] == [part] && Joined([part], separator) == part;
    } else {
      JoinedSnoc(parts[1..], separator, part);
      var first, rest := parts[0] + separator, Joined(parts[1..], separator);
      Behind(first, rest, separator);
      Behind(first, rest + separator, part);
    }
  }

  lemma ConcatSnoc<T>(parts: seq<seq<T>>, part: seq<T>)
    ensures Concat(parts + [part]) == Concat(parts) + part
  {
    ConcatAppend(parts, [part]);
    assert [part][1..] == [] && Concat([part]) == part;
  }
}
