/**
 Runs of deterministic step machines. A schedule names, step by step, which thread acts and how;
 a statement about every schedule is a statement about every interleaving.
 */
module Machines {

  function Run<S, A>(step: (S, A) -> S, s: S, schedule: seq<A>): S
    decreases |schedule|
  {
    if schedule == [] then s else Run(step, step(s, schedule[0]), schedule[1..])
  }

  lemma {:induction false} RunAppend<S, A>(step: (S, A) -> S, s: S, xs: seq<A>, ys: seq<A>)
    ensures Run(step, s, xs + ys) == Run(step, Run(step, s, xs), ys)
    decreases |xs|
  {
    if xs == [] {
      assert xs + ys == ys;
    } else {
      assert (xs + ys)[1..] == xs[1..] + ys;
      RunAppend(step, step(s, xs[0]), xs[1..], ys);
    }
  }

  lemma RunOne<S, A>(step: (S, A) -> S, s: S, xs: seq<A>, a: A)
    ensures Run(step, s, xs + [a]) == step(Run(step, s, xs), a)
  {
    RunAppend(step, s, xs, [a]);
    assert [a][1..] == [];
  }

  lemma RunSingle<S, A>(step: (S, A) -> S, s: S, a: A)
    ensures Run(step, s, [a]) == step(s, a)
  {
    assert [a][1..] == [];
  }

  /** The same action `n` times over. */
  function Repeat<S, A>(step: (S, A) -> S, s: S, a: A, n: nat): S {
    if n == 0 then s else Repeat(step, step(s, a), a, n - 1)
  }

  lemma {:induction false} RepeatIsRun<S, A>(step: (S, A) -> S, s: S, a: A, n: nat)
    ensures Repeat(step, s, a, n) == Run(step, s, seq(n, _ => a))
    decreases n
  {
    if n > 0 {
      assert seq(n, _ => a)[1..] == seq(n - 1, _ => a);
      RepeatIsRun(step, step(s, a), a, n - 1);
    }
  }

  lemma RepeatTwo<S, A>(step: (S, A) -> S, s: S, a: A)
    ensures Repeat(step, s, a, 2) == step(step(s, a), a)
  {
  }

  lemma RepeatMore<S, A>(step: (S, A) -> S, s: S, a: A, n: nat)
    ensures Repeat(step, s, a, n + 1) == step(Repeat(step, s, a, n), a)
    decreases n
  {
    if n > 0 { RepeatMore(step, step(s, a), a, n - 1); }
  }

  lemma RepeatFive<S, A>(step: (S, A) -> S, s: S, a: A)
    ensures Repeat(step, s, a, 5) == step(step(step(step(step(s, a), a), a), a), a)
  {
    RepeatTwo(step, s, a);
    RepeatMore(step, s, a, 2);
    RepeatMore(step, s, a, 3);
    RepeatMore(step, s, a, 4);
  }

  /** What every step keeps, every run keeps. */
  lemma {:induction false} RunKeeps<S(!new), A(!new)>(step: (S, A) -> S, inv: S -> bool, s: S, schedule: seq<A>)
    requires inv(s)
    requires forall x, a :: inv(x) ==> inv(step(x, a))
    ensures inv(Run(step, s, schedule))
    decreases |schedule|
  {
    if schedule != [] { RunKeeps(step, inv, step(s, schedule[0]), schedule[1..]); }
  }

  /** A call in progress over the moments `lo..hi`, and none afterwards up to moment `n`. */
  ghost predicate LastCall(inCall: nat -> bool, k: nat, e: nat, n: nat) {
    && k <= e <= n && 0 < e && inCall(e - 1)
    && (forall j | k < j < e :: inCall(j))
    && forall j | e <= j <= n :: !inCall(j)
  }

  /** `flag` starts false and is kept, from the start of each call to its end, as "the condition has held
      at some moment of this call". */
  ghost predicate Flagged(inCall: nat -> bool, holds: nat -> bool, flag: nat -> bool, n: nat) {
    && !flag(0)
    && forall k: nat | k < n ::
         flag(k + 1) ==
           if !inCall(k) && !inCall(k + 1) then flag(k)
           else (if inCall(k) then flag(k) else holds(k)) || holds(k + 1)
  }

  /** Then the flag tells the truth about the moments of the current or last call. */
  lemma {:induction false} FlagMeansMoment(inCall: nat -> bool, holds: nat -> bool, flag: nat -> bool, n: nat)
    requires Flagged(inCall, holds, flag, n) && flag(n)
    ensures inCall(n) ==> exists k: nat | k <= n :: holds(k) && forall j | k < j <= n :: inCall(j)
    ensures !inCall(n) ==> exists k: nat, e: nat | k <= n :: LastCall(inCall, k, e, n) && holds(k)
    decreases n, 1
  {
    var m := n - 1;
    if !inCall(m) && !inCall(n) {
      FlagMeansMoment(inCall, holds, flag, m);
      var k: nat, e: nat :| k <= m && LastCall(inCall, k, e, m) && holds(k);
      assert LastCall(inCall, k, e, n);
    } else {
      var k := MomentUpTo(inCall, holds, flag, n);
      if !inCall(n) { assert LastCall(inCall, k, n, n); }
    }
  }

  /** The moment itself, when the step to `n` starts, continues or ends a call. */
  lemma MomentUpTo(inCall: nat -> bool, holds: nat -> bool, flag: nat -> bool, n: nat) returns (k: nat)
    requires Flagged(inCall, holds, flag, n) && flag(n) && n > 0 && (inCall(n - 1) || inCall(n))
    ensures k <= n && holds(k) && forall j | k < j < n :: inCall(j)
    decreases n, 0
  {
    if holds(n) { return n; }
    if !inCall(n - 1) { return n - 1; }
    FlagMeansMoment(inCall, holds, flag, n - 1);
    k :| k <= n - 1 && holds(k) && forall j | k < j <= n - 1 :: inCall(j);
  }
}
