/** `siphash` step by step, over one memory of bytes in which the caller's pointers are positions. */
module SipHashCode {
  import opened SipAlgebra
  import opened SipHashSpec

  const C_ROUNDS := 2
  const D_ROUNDS := 4

  // ---------- loading and storing words ----------

  function Joined(b0: Octet, b1: Octet, b2: Octet, b3: Octet, b4: Octet, b5: Octet, b6: Octet, b7: Octet): Word {
    (b0 as Word) | ((b1 as Word) << 8) | ((b2 as Word) << 16) | ((b3 as Word) << 24)
    | ((b4 as Word) << 32) | ((b5 as Word) << 40) | ((b6 as Word) << 48) | ((b7 as Word) << 56)
  }

  lemma Assemble(b0: Octet, b1: Octet, b2: Octet, b3: Octet, b4: Octet, b5: Octet, b6: Octet, b7: Octet)
    ensures PushOctet(PushOctet(PushOctet(PushOctet(PushOctet(PushOctet(PushOctet(PushOctet(
              0, b7), b6), b5), b4), b3), b2), b1), b0)
         == Joined(b0, b1, b2, b3, b4, b5, b6, b7)
  {
  }

  /** `U8TO64_LE`. */
  method Load(p: array<Octet>, i: nat) returns (x: Word)
    requires i + 8 <= p.Length
    ensures x == Little(p[..][i..i + 8])
  {
    x := (p[i] as Word) | ((p[i + 1] as Word) << 8) | ((p[i + 2] as Word) << 16) | ((p[i + 3] as Word) << 24)
         | ((p[i + 4] as Word) << 32) | ((p[i + 5] as Word) << 40) | ((p[i + 6] as Word) << 48) | ((p[i + 7] as Word) << 56);
    EightJoined(p[i], p[i + 1], p[i + 2], p[i + 3], p[i + 4], p[i + 5], p[i + 6], p[i + 7]);
    assert p[..][i..i + 8] == [p[i], p[i + 1], p[i + 2], p[i + 3], p[i + 4], p[i + 5], p[i + 6], p[i + 7]];
  }

  function Low32(x: Word): bv32 { (x & 0xffff_ffff) as bv32 }

  function Byte32(x: bv32): Octet { (x & 0xff) as Octet }

  lemma BytesOfHalf(x: Word)
    ensures Byte32(Low32(x)) == LowOctet(x)
    ensures Byte32(Low32(x) >> 8) == LowOctet(DropOctet(x))
    ensures Byte32(Low32(x) >> 16) == LowOctet(DropOctet(DropOctet(x)))
    ensures Byte32(Low32(x) >> 24) == LowOctet(DropOctet(DropOctet(DropOctet(x))))
  {
  }

  lemma TwoOctets(x: Word, n: nat)
    requires n >= 2
    ensures Octets(x, n) == [LowOctet(x), LowOctet(DropOctet(x))] + Octets(DropOctet(DropOctet(x)), n - 2)
  {
    assert Octets(DropOctet(x), n - 1) == [LowOctet(DropOctet(x))] + Octets(DropOctet(DropOctet(x)), n - 2);
  }

  lemma DropFour(x: Word)
    ensures DropOctet(DropOctet(DropOctet(DropOctet(x)))) == x >> 32
  {
  }

  lemma FourOctets(x: Word, n: nat)
    requires n >= 4
    ensures Octets(x, n) == Half(x) + Octets(x >> 32, n - 4)
  {
    var y := DropOctet(DropOctet(x));
    TwoOctets(x, n);
    TwoOctets(y, n - 2);
    DropFour(x);
    TwoAndTwo(LowOctet(x), LowOctet(DropOctet(x)), LowOctet(y), LowOctet(DropOctet(y)), Octets(x >> 32, n - 4));
  }

  lemma TwoAndTwo(a: Octet, b: Octet, c: Octet, d: Octet, rest: seq<Octet>)
    ensures [a, b] + ([c, d] + rest) == [a, b, c, d] + rest
  {
  }

  /** The four bytes of the lower half. */
  function Half(x: Word): seq<Octet> {
    [LowOctet(x), LowOctet(DropOctet(x)), LowOctet(DropOctet(DropOctet(x))), LowOctet(DropOctet(DropOctet(DropOctet(x))))]
  }

  function Bytes32(v: bv32): seq<Octet> { [Byte32(v), Byte32(v >> 8), Byte32(v >> 16), Byte32(v >> 24)] }

  lemma HalfIsFourBytes(x: Word)
    ensures Bytes32(Low32(x)) == Half(x)
  {
    BytesOfHalf(x);
  }

  lemma OctetsByHalves(x: Word)
    ensures Octets(x, 8) == Bytes32(Low32(x)) + Bytes32(Low32(x >> 32))
  {
    hide Low32, Half, Bytes32;
    FourOctets(x, 8);
    FourOctets(x >> 32, 4);
    HalfIsFourBytes(x);
    HalfIsFourBytes(x >> 32);
  }

  function Put(s: seq<Octet>, i: nat, bytes: seq<Octet>): (r: seq<Octet>)
    requires i + |bytes| <= |s|
    ensures |r| == |s|
  {
    s[..i] + bytes + s[i + |bytes|..]
  }

  lemma PutTwice(s: seq<Octet>, i: nat, a: seq<Octet>, b: seq<Octet>)
    requires i + |a| + |b| <= |s|
    ensures Put(Put(s, i, a), i + |a|, b) == Put(s, i, a + b)
  {
  }

  /** `U32TO8_LE`. */
  method Store32(p: array<Octet>, i: nat, v: bv32)
    requires i + 4 <= p.Length
    modifies p
    ensures p[..] == Put(old(p[..]), i, Bytes32(v))
  {
    p[i] := Byte32(v);
    p[i + 1] := Byte32(v >> 8);
    p[i + 2] := Byte32(v >> 16);
    p[i + 3] := Byte32(v >> 24);
  }

  /** `U64TO8_LE`. */
  method Store(p: array<Octet>, i: nat, x: Word)
    requires i + 8 <= p.Length
    modifies p
    ensures p[..] == Put(old(p[..]), i, Octets(x, 8))
  {
    OctetsByHalves(x);
    ghost var low, high := Bytes32(Low32(x)), Bytes32(Low32(x >> 32));
    PutTwice(p[..], i, low, high);
    Store32(p, i, Low32(x));
    Store32(p, i + 4, Low32(x >> 32));
  }

  // ---------- the last word ----------

  predicate SameLow(x: Word, y: Octet) { LowOctet(x) == y }

  lemma PushSame(x: Word, y: Octet, bit: bool)
    requires SameLow(x, y)
    ensures SameLow(PushBit(x, bit), PushBit8(y, bit))
  {
  }

  lemma {:induction false} LengthLow(n: nat)
    ensures SameLow(ToWord(n), ToOctet(n))
  {
    if n > 0 {
      LengthLow(n / 2);
      PushSame(ToWord(n / 2), ToOctet(n / 2), n % 2 == 1);
    }
  }

  lemma TopOctet(x: Word, y: Octet)
    requires SameLow(x, y)
    ensures x << 56 == (y as Word) << 56
  {
  }

  lemma EightJoined(b0: Octet, b1: Octet, b2: Octet, b3: Octet, b4: Octet, b5: Octet, b6: Octet, b7: Octet)
    ensures Little([b0, b1, b2, b3, b4, b5, b6, b7]) == Joined(b0, b1, b2, b3, b4, b5, b6, b7)
  {
    hide Joined, PushOctet, Little;
    EightBytes([b0, b1, b2, b3, b4, b5, b6, b7]);
    Assemble(b0, b1, b2, b3, b4, b5, b6, b7);
  }

  lemma LastBytesAt(tail: seq<Octet>, n: nat)
    requires |tail| < 8
    ensures LastBytes(tail, n)
         == [At(tail, 0), At(tail, 1), At(tail, 2), At(tail, 3), At(tail, 4), At(tail, 5), At(tail, 6), ToOctet(n)]
  {
    hide ToOctet;
  }

  /** The bytes left over and the length, gathered as the `switch` does. */
  lemma Gathered(tail: seq<Octet>, n: nat)
    requires |tail| < 8
    ensures Little(LastBytes(tail, n)) == Gather(tail, ToOctet(n))
  {
    hide Or0, Or1, Or2, Or3, Or4, Or5, Or6, Joined, At, Little, LastBytes, ToOctet;
    LastBytesAt(tail, n);
    EightJoined(At(tail, 0), At(tail, 1), At(tail, 2), At(tail, 3), At(tail, 4), At(tail, 5), At(tail, 6), ToOctet(n));
    GatherAll(At(tail, 0), At(tail, 1), At(tail, 2), At(tail, 3), At(tail, 4), At(tail, 5), At(tail, 6), ToOctet(n));
  }

  function At(tail: seq<Octet>, k: nat): Octet { if k < |tail| then tail[k] else 0 }

  function Or0(x: Word, b: Octet): Word { x | (b as Word) }
  function Or1(x: Word, b: Octet): Word { x | ((b as Word) << 8) }
  function Or2(x: Word, b: Octet): Word { x | ((b as Word) << 16) }
  function Or3(x: Word, b: Octet): Word { x | ((b as Word) << 24) }
  function Or4(x: Word, b: Octet): Word { x | ((b as Word) << 32) }
  function Or5(x: Word, b: Octet): Word { x | ((b as Word) << 40) }
  function Or6(x: Word, b: Octet): Word { x | ((b as Word) << 48) }

  function Gather(tail: seq<Octet>, top: Octet): Word {
    Or0(Or1(Or2(Or3(Or4(Or5(Or6((top as Word) << 56,
      At(tail, 6)), At(tail, 5)), At(tail, 4)), At(tail, 3)), At(tail, 2)), At(tail, 1)), At(tail, 0))
  }

  lemma GatherAll(b0: Octet, b1: Octet, b2: Octet, b3: Octet, b4: Octet, b5: Octet, b6: Octet, b7: Octet)
    ensures Or0(Or1(Or2(Or3(Or4(Or5(Or6((b7 as Word) << 56, b6), b5), b4), b3), b2), b1), b0)
         == Joined(b0, b1, b2, b3, b4, b5, b6, b7)
  {
  }

  lemma OrZero(x: Word)
    ensures Or0(x, 0) == Or1(x, 0) == Or2(x, 0) == Or3(x, 0) == Or4(x, 0) == Or5(x, 0) == Or6(x, 0) == x
  {
  }

  /** The `switch` on the bytes left over, which falls through from the highest to the lowest. */
  method LastWord(mem: array<Octet>, ni: nat, inlen: nat) returns (b: Word)
    requires ni + inlen % 8 <= mem.Length
    ensures b == Little(LastBytes(mem[..][ni..ni + inlen % 8], inlen))
  {
    hide Or0, Or1, Or2, Or3, Or4, Or5, Or6, Little, LastBytes, ToWord, ToOctet;
    var left := inlen % 8;
    ghost var tail := mem[..][ni..ni + left];
    b := ToWord(inlen) << 56;
    LengthLow(inlen);
    TopOctet(ToWord(inlen), ToOctet(inlen));
    OrZero(b);
    ghost var g6 := Or6(b, At(tail, 6));
    if left >= 7 { b := Or6(b, mem[ni + 6]); }
    assert b == g6;
    OrZero(b);
    ghost var g5 := Or5(b, At(tail, 5));
    if left >= 6 { b := Or5(b, mem[ni + 5]); }
    assert b == g5;
    OrZero(b);
    ghost var g4 := Or4(b, At(tail, 4));
    if left >= 5 { b := Or4(b, mem[ni + 4]); }
    assert b == g4;
    OrZero(b);
    ghost var g3 := Or3(b, At(tail, 3));
    if left >= 4 { b := Or3(b, mem[ni + 3]); }
    assert b == g3;
    OrZero(b);
    ghost var g2 := Or2(b, At(tail, 2));
    if left >= 3 { b := Or2(b, mem[ni + 2]); }
    assert b == g2;
    OrZero(b);
    ghost var g1 := Or1(b, At(tail, 1));
    if left >= 2 { b := Or1(b, mem[ni + 1]); }
    assert b == g1;
    OrZero(b);
    ghost var g0 := Or0(b, At(tail, 0));
    if left >= 1 { b := Or0(b, mem[ni]); }
    assert b == g0;
    Gathered(tail, inlen);
  }

  // ---------- rounds ----------

  /** `SIPROUND`. */
  method SipRound(a: Word, b: Word, c: Word, d: Word) returns (v0: Word, v1: Word, v2: Word, v3: Word)
    ensures V(v0, v1, v2, v3) == Round(Words64(), V(a, b, c, d))
  {
    v0, v1, v2, v3 := a, b, c, d;
    v0 := Add(v0, v1);
    v1 := Rotl13(v1);
    v1 := Xor(v1, v0);
    v0 := Rotl32(v0);
    v2 := Add(v2, v3);
    v3 := Rotl16(v3);
    v3 := Xor(v3, v2);
    v0 := Add(v0, v3);
    v3 := Rotl21(v3);
    v3 := Xor(v3, v0);
    v2 := Add(v2, v1);
    v1 := Rotl17(v1);
    v1 := Xor(v1, v2);
    v2 := Rotl32(v2);
  }

  method SipRounds(n: nat, a: Word, b: Word, c: Word, d: Word) returns (v0: Word, v1: Word, v2: Word, v3: Word)
    ensures V(v0, v1, v2, v3) == Rounds(Words64(), V(a, b, c, d), n)
  {
    v0, v1, v2, v3 := a, b, c, d;
    for i := 0 to n
      invariant V(v0, v1, v2, v3) == Rounds(Words64(), V(a, b, c, d), i)
    {
      v0, v1, v2, v3 := SipRound(v0, v1, v2, v3);
    }
  }

  /** One message word: exclusive or, `C_ROUNDS` rounds, exclusive or. */
  method Mix(a: Word, b: Word, c: Word, d: Word, m: Word) returns (v0: Word, v1: Word, v2: Word, v3: Word)
    ensures V(v0, v1, v2, v3) == Compress(Words64(), V(a, b, c, d), m)
  {
    v0, v1, v2, v3 := a, b, c, Xor(d, m);
    RoundsUnrolled(Words64(), V(v0, v1, v2, v3));
    v0, v1, v2, v3 := SipRounds(C_ROUNDS, v0, v1, v2, v3);
    v0 := Xor(v0, m);
  }

  // ---------- the whole function ----------

  function ModeOf(outlen: nat): Mode { if outlen == 16 then Long else Short }

  method Initialise(mem: array<Octet>, key: nat, outlen: nat) returns (v0: Word, v1: Word, v2: Word, v3: Word)
    requires key + 16 <= mem.Length
    ensures V(v0, v1, v2, v3) == Start(mem[..][key..key + 16], ModeOf(outlen))
  {
    v0 := 0x736f6d6570736575;
    v1 := 0x646f72616e646f6d;
    v2 := 0x6c7967656e657261;
    v3 := 0x7465646279746573;
    var k0 := Load(mem, key);
    var k1 := Load(mem, key + 8);
    SliceOfSlice(mem[..], key, 16, 0, 8);
    SliceOfSlice(mem[..], key, 16, 8, 16);
    ghost var k := mem[..][key..key + 16];
    assert k[..8] == k[0..8] && k[8..] == k[8..16];
    v3 := Xor(v3, k1);
    v2 := Xor(v2, k0);
    v1 := Xor(v1, k1);
    v0 := Xor(v0, k0);
    if outlen == 16 {
      v1 := Xor(v1, 0xee);
    }
    XorSwaps(k0, 0x736f6d6570736575);
    XorSwaps(k1, 0x646f72616e646f6d);
    XorSwaps(k0, 0x6c7967656e657261);
    XorSwaps(k1, 0x7465646279746573);
  }

  lemma XorSwaps(x: Word, y: Word)
    ensures Xor(x, y) == Xor(y, x)
  {
  }

  /** The state once the message from `ni` on has been absorbed as well. */
  function AbsorbFrom(v: V<Word>, msg: seq<Octet>, ni: nat): V<Word>
    requires ni <= |msg|
  {
    Absorb(Words64(), v, Padded(msg[ni..], |msg|))
  }

  lemma AbsorbBlock(v: V<Word>, msg: seq<Octet>, ni: nat)
    requires ni + 8 <= |msg|
    ensures AbsorbFrom(v, msg, ni) == AbsorbFrom(Compress(Words64(), v, Little(msg[ni..ni + 8])), msg, ni + 8)
  {
    var bytes := msg[ni..];
    assert bytes[..8] == msg[ni..ni + 8] && bytes[8..] == msg[ni + 8..];
    AbsorbOne(Words64(), v, Padded(bytes, |msg|), Little(msg[ni..ni + 8]), Padded(msg[ni + 8..], |msg|));
  }

  lemma AbsorbLast(v: V<Word>, msg: seq<Octet>, ni: nat)
    requires ni <= |msg| < ni + 8
    ensures AbsorbFrom(v, msg, ni) == Compress(Words64(), v, Little(LastBytes(msg[ni..], |msg|)))
  {
    AbsorbOne(Words64(), v, Padded(msg[ni..], |msg|), Little(LastBytes(msg[ni..], |msg|)), []);
  }

  lemma SliceOfSlice(s: seq<Octet>, from: nat, len: nat, i: nat, j: nat)
    requires from + len <= |s| && i <= j <= len
    ensures s[from..from + len][i..j] == s[from + i..from + j]
  {
    var part := s[from..from + len];
    assert |part[i..j]| == |s[from + i..from + j]| == j - i;
    assert forall k :: 0 <= k < j - i ==> part[i..j][k] == part[i + k] == s[from + (i + k)];
  }

  /** Absorbing the message: the block loop and the last word. */
  method AbsorbMessage(mem: array<Octet>, input: nat, inlen: nat, a: Word, b: Word, c: Word, d: Word)
    returns (v0: Word, v1: Word, v2: Word, v3: Word)
    requires input + inlen <= mem.Length
    ensures V(v0, v1, v2, v3) == AbsorbFrom(V(a, b, c, d), mem[..][input..input + inlen], 0)
  {
    hide Compress, AbsorbFrom, Little, LastBytes, Words64;
    v0, v1, v2, v3 := a, b, c, d;
    ghost var msg := mem[..][input..input + inlen];
    var ni, end := input, input + (inlen - inlen % 8);
    while ni != end
      invariant input <= ni <= end && (ni - input) % 8 == 0
      invariant AbsorbFrom(V(v0, v1, v2, v3), msg, ni - input) == AbsorbFrom(V(a, b, c, d), msg, 0)
    {
      AbsorbBlock(V(v0, v1, v2, v3), msg, ni - input);
      SliceOfSlice(mem[..], input, inlen, ni - input, ni - input + 8);
      var m := Load(mem, ni);
      v0, v1, v2, v3 := Mix(v0, v1, v2, v3, m);
      ni := ni + 8;
    }
    AbsorbLast(V(v0, v1, v2, v3), msg, ni - input);
    SliceOfSlice(mem[..], input, inlen, ni - input, inlen);
    assert msg[ni - input..inlen] == msg[ni - input..];
    var last := LastWord(mem, ni, inlen);
    v0, v1, v2, v3 := Mix(v0, v1, v2, v3, last);
  }

  /** Everything up to the first fold. */
  method Digest(mem: array<Octet>, input: nat, inlen: nat, key: nat, outlen: nat)
    returns (v0: Word, v1: Word, v2: Word, v3: Word)
    requires input + inlen <= mem.Length && key + 16 <= mem.Length
    ensures V(v0, v1, v2, v3) == Finished(mem[..][input..input + inlen], mem[..][key..key + 16], ModeOf(outlen))
  {
    hide Compress, Round, Rounds, FourRounds, Absorb, Padded, Little, LastBytes, Start, Xor, Words64;
    v0, v1, v2, v3 := Initialise(mem, key, outlen);
    v0, v1, v2, v3 := AbsorbMessage(mem, input, inlen, v0, v1, v2, v3);
    ghost var msg, k := mem[..][input..input + inlen], mem[..][key..key + 16];
    assert msg[0..] == msg;
    ghost var v := V(v0, v1, v2, v3);
    assert v == Absorbed(msg, k, ModeOf(outlen));
    if outlen == 16 {
      v2 := Xor(v2, 0xee);
    } else {
      v2 := Xor(v2, 0xff);
    }
    assert V(v0, v1, v2, v3) == v.(v2 := Xor(v.v2, if ModeOf(outlen).Long? then 0xee else 0xff));
    RoundsUnrolled(Words64(), V(v0, v1, v2, v3));
    v0, v1, v2, v3 := SipRounds(D_ROUNDS, v0, v1, v2, v3);
  }

  /** However message, key and output overlap, the output receives the hash of what the message and the key were, and no
      other byte changes. */
  method SipHash(mem: array<Octet>, input: nat, inlen: nat, key: nat, out: nat, outlen: nat) returns (r: int)
    requires input + inlen <= mem.Length && key + 16 <= mem.Length
    requires (outlen == 8 || outlen == 16) && out + outlen <= mem.Length
    modifies mem
    ensures r == 0
    ensures mem[..] == Put(old(mem[..]), out,
      Hash(old(mem[..])[input..input + inlen], old(mem[..])[key..key + 16], ModeOf(outlen)))
  {
    hide Finished, Round, Rounds, FourRounds, Fold, Octets, Put, Words64;
    ghost var was := mem[..];
    ghost var msg, k := was[input..input + inlen], was[key..key + 16];
    var v0, v1, v2, v3 := Digest(mem, input, inlen, key, outlen);
    var b := Xor(Xor(Xor(v0, v1), v2), v3);
    FoldIs(V(v0, v1, v2, v3));
    Store(mem, out, b);
    ghost var first := Octets(b, 8);
    if outlen == 8 {
      assert Hash(msg, k, Short) == first + [] == first;
      return 0;
    }
    v1 := Xor(v1, 0xdd);
    RoundsUnrolled(Words64(), V(v0, v1, v2, v3));
    v0, v1, v2, v3 := SipRounds(D_ROUNDS, v0, v1, v2, v3);
    b := Xor(Xor(Xor(v0, v1), v2), v3);
    FoldIs(V(v0, v1, v2, v3));
    Store(mem, out + 8, b);
    assert Hash(msg, k, Long) == first + Octets(b, 8);
    PutTwice(was, out, first, Octets(b, 8));
    return 0;
  }

  lemma FoldIs(v: V<Word>)
    ensures Fold(Words64(), v) == Xor(Xor(Xor(v.v0, v.v1), v.v2), v.v3)
  {
  }
}
