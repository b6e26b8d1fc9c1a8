/**
 The structure of SipHash over any kind of words whose addition, exclusive or and rotations can be undone.
 Sections 2.1 to 2.4 of "SipHash: a fast short-input PRF" (Aumasson and Bernstein).
 */
module SipAlgebra {

  datatype Turn = By13 | By16 | By17 | By21 | By32

  datatype Arith<!W> = Arith(add: (W, W) -> W, sub: (W, W) -> W, xor: (W, W) -> W,
                             rotl: (W, Turn) -> W, rotr: (W, Turn) -> W)

  datatype V<W> = V(v0: W, v1: W, v2: W, v3: W)

  /** Subtracting undoes adding, exclusive or undoes itself, and turning right undoes turning left. */
  ghost predicate Lawful<W(!new)>(w: Arith<W>) {
    && (forall x, y :: w.sub(w.add(x, y), y) == x && w.add(w.sub(x, y), y) == x)
    && (forall x, y :: w.xor(w.xor(x, y), y) == x)
    && (forall x, t :: w.rotr(w.rotl(x, t), t) == x && w.rotl(w.rotr(x, t), t) == x)
  }

  /** The round with both halves of the state side by side, as the figure of the paper draws it. */
  function Round<W>(w: Arith<W>, v: V<W>): V<W> {
    var a, c := w.add(v.v0, v.v1), w.add(v.v2, v.v3);
    var b, d := w.xor(w.rotl(v.v1, By13), a), w.xor(w.rotl(v.v3, By16), c);
    var a', c' := w.add(w.rotl(a, By32), d), w.add(c, b);
    V(a', w.xor(w.rotl(b, By17), c'), w.rotl(c', By32), w.xor(w.rotl(d, By21), a'))
  }

  function Unround<W>(w: Arith<W>, v: V<W>): V<W> {
    var a', c' := v.v0, w.rotr(v.v2, By32);
    var b, d := w.rotr(w.xor(v.v1, c'), By17), w.rotr(w.xor(v.v3, a'), By21);
    var a, c := w.rotr(w.sub(a', d), By32), w.sub(c', b);
    var v1, v3 := w.rotr(w.xor(b, a), By13), w.rotr(w.xor(d, c), By16);
    V(w.sub(a, v1), v1, w.sub(c, v3), v3)
  }

  lemma RoundIsBijective<W(!new)>(w: Arith<W>, v: V<W>)
    requires Lawful(w)
    ensures Unround(w, Round(w, v)) == v && Round(w, Unround(w, v)) == v
  {
  }

  /** Two rounds between the two exclusive ors of a message word. */
  function Compress<W>(w: Arith<W>, v: V<W>, m: W): V<W> {
    var u := Round(w, Round(w, v.(v3 := w.xor(v.v3, m))));
    u.(v0 := w.xor(u.v0, m))
  }

  function Uncompress<W>(w: Arith<W>, v: V<W>, m: W): V<W> {
    var u := Unround(w, Unround(w, v.(v0 := w.xor(v.v0, m))));
    u.(v3 := w.xor(u.v3, m))
  }

  /** Compressing a fixed word permutes the states. */
  lemma CompressIsBijective<W(!new)>(w: Arith<W>, v: V<W>, m: W)
    requires Lawful(w)
    ensures Uncompress(w, Compress(w, v, m), m) == v && Compress(w, Uncompress(w, v, m), m) == v
  {
    var a := v.(v3 := w.xor(v.v3, m));
    RoundIsBijective(w, a);
    RoundIsBijective(w, Round(w, a));
    var b := v.(v0 := w.xor(v.v0, m));
    RoundIsBijective(w, b);
    RoundIsBijective(w, Unround(w, b));
  }

  function Absorb<W>(w: Arith<W>, v: V<W>, words: seq<W>): V<W>
    decreases |words|
  {
    if words == [] then v else Absorb(w, Compress(w, v, words[0]), words[1..])
  }

  /** Absorbing the same words keeps different states different. */
  lemma {:induction false} AbsorbIsInjective<W(!new)>(w: Arith<W>, v: V<W>, u: V<W>, words: seq<W>)
    requires Lawful(w)
    ensures Absorb(w, v, words) == Absorb(w, u, words) ==> v == u
    decreases |words|
  {
    if words != [] {
      AbsorbIsInjective(w, Compress(w, v, words[0]), Compress(w, u, words[0]), words[1..]);
      CompressIsBijective(w, v, words[0]);
      CompressIsBijective(w, u, words[0]);
    }
  }

  function Rounds<W>(w: Arith<W>, v: V<W>, n: nat): V<W> {
    if n == 0 then v else Round(w, Rounds(w, v, n - 1))
  }

  lemma RoundsUnrolled<W>(w: Arith<W>, v: V<W>)
    ensures Rounds(w, v, 2) == Round(w, Round(w, v))
    ensures Rounds(w, v, 4) == FourRounds(w, v)
  {
    assert Rounds(w, v, 1) == Round(w, Rounds(w, v, 0));
    assert Rounds(w, v, 3) == Round(w, Rounds(w, v, 2));
  }

  lemma AbsorbOne<W>(w: Arith<W>, v: V<W>, words: seq<W>, m: W, rest: seq<W>)
    requires words == [m] + rest
    ensures Absorb(w, v, words) == Absorb(w, Compress(w, v, m), rest)
  {
    assert words[1..] == rest;
  }

  function FourRounds<W>(w: Arith<W>, v: V<W>): V<W> { Round(w, Round(w, Round(w, Round(w, v)))) }

  lemma RoundIsInjective<W(!new)>(w: Arith<W>, v: V<W>, u: V<W>)
    requires Lawful(w)
    ensures Round(w, v) == Round(w, u) ==> v == u
  {
    RoundIsBijective(w, v);
    RoundIsBijective(w, u);
  }

  lemma FourRoundsIsInjective<W(!new)>(w: Arith<W>, v: V<W>, u: V<W>)
    requires Lawful(w)
    ensures FourRounds(w, v) == FourRounds(w, u) ==> v == u
  {
    RoundIsInjective(w, Round(w, Round(w, Round(w, v))), Round(w, Round(w, Round(w, u))));
    RoundIsInjective(w, Round(w, Round(w, v)), Round(w, Round(w, u)));
    RoundIsInjective(w, Round(w, v), Round(w, u));
    RoundIsInjective(w, v, u);
  }

  function Fold<W>(w: Arith<W>, v: V<W>): W { w.xor(w.xor(w.xor(v.v0, v.v1), v.v2), v.v3) }
}
