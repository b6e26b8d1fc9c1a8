/**
 SipHash-2-4 over 64-bit words, as section 2 of "SipHash: a fast short-input PRF" (Aumasson and Bernstein)
 defines it, with the 16-byte output of the reference code.
 */
module SipHashSpec {
  import opened SipAlgebra

  type Octet = bv8
  type Word = bv64

  function Rotl13(x: Word): Word { (x << 13) | (x >> 51) }
  function Rotr13(x: Word): Word { (x >> 13) | (x << 51) }
  function Rotl16(x: Word): Word { (x << 16) | (x >> 48) }
  function Rotr16(x: Word): Word { (x >> 16) | (x << 48) }
  function Rotl17(x: Word): Word { (x << 17) | (x >> 47) }
  function Rotr17(x: Word): Word { (x >> 17) | (x << 47) }
  function Rotl21(x: Word): Word { (x << 21) | (x >> 43) }
  function Rotr21(x: Word): Word { (x >> 21) | (x << 43) }
  function Rotl32(x: Word): Word { (x << 32) | (x >> 32) }
  function Rotr32(x: Word): Word { (x >> 32) | (x << 32) }

  function RotateLeft(x: Word, t: Turn): Word {
    match t
    case By13 => Rotl13(x)
    case By16 => Rotl16(x)
    case By17 => Rotl17(x)
    case By21 => Rotl21(x)
    case By32 => Rotl32(x)
  }

  function RotateRight(x: Word, t: Turn): Word {
    match t
    case By13 => Rotr13(x)
    case By16 => Rotr16(x)
    case By17 => Rotr17(x)
    case By21 => Rotr21(x)
    case By32 => Rotr32(x)
  }

  function Add(x: Word, y: Word): Word { x + y }
  function Sub(x: Word, y: Word): Word { x - y }
  function Xor(x: Word, y: Word): Word { x ^ y }

  function Words64(): Arith<Word> { Arith(Add, Sub, Xor, RotateLeft, RotateRight) }

  lemma Turn13(x: Word) ensures Rotr13(Rotl13(x)) == x && Rotl13(Rotr13(x)) == x {}
  lemma Turn16(x: Word) ensures Rotr16(Rotl16(x)) == x && Rotl16(Rotr16(x)) == x {}
  lemma Turn17(x: Word) ensures Rotr17(Rotl17(x)) == x && Rotl17(Rotr17(x)) == x {}
  lemma Turn21(x: Word) ensures Rotr21(Rotl21(x)) == x && Rotl21(Rotr21(x)) == x {}
  lemma Turn32(x: Word) ensures Rotr32(Rotl32(x)) == x && Rotl32(Rotr32(x)) == x {}

  lemma TurnsInvert(x: Word, t: Turn)
    ensures RotateRight(RotateLeft(x, t), t) == x && RotateLeft(RotateRight(x, t), t) == x
  {
    match t
    case By13 => Turn13(x);
    case By16 => Turn16(x);
    case By17 => Turn17(x);
    case By21 => Turn21(x);
    case By32 => Turn32(x);
  }

  lemma AddThenSub(x: Word, y: Word)
    ensures Sub(x + y, y) == x
  {
  }

  lemma SubThenAdd(x: Word, y: Word)
    ensures Add(x - y, y) == x
  {
  }

  lemma AddIsUndone(x: Word, y: Word)
    ensures Sub(Add(x, y), y) == x
  {
    AddThenSub(x, y);
    hide Sub;
  }

  lemma SubIsUndone(x: Word, y: Word)
    ensures Add(Sub(x, y), y) == x
  {
    SubThenAdd(x, y);
    hide Add;
  }

  lemma XorTwice(x: Word, y: Word)
    ensures Xor(Xor(x, y), y) == x
  {
    assert Xor(x ^ y, y) == x;
  }

  lemma Words64AreLawful()
    ensures Lawful(Words64())
  {
    var w := Words64();
    forall x, y ensures w.sub(w.add(x, y), y) == x && w.add(w.sub(x, y), y) == x {
      AddIsUndone(x, y);
      SubIsUndone(x, y);
    }
    forall x, y ensures w.xor(w.xor(x, y), y) == x { XorTwice(x, y); }
    forall x, t ensures w.rotr(w.rotl(x, t), t) == x && w.rotl(w.rotr(x, t), t) == x { TurnsInvert(x, t); }
  }

  // ---------- bytes, numbers and words ----------

  function PushBit(x: Word, bit: bool): Word { (x << 1) | (if bit then 1 else 0) }
  function PushBit8(x: Octet, bit: bool): Octet { (x << 1) | (if bit then 1 else 0) }

  /** A number written in binary, its low 64 bits. */
  function ToWord(n: nat): Word { if n == 0 then 0 else PushBit(ToWord(n / 2), n % 2 == 1) }

  /** A number written in binary, its low 8 bits. */
  function ToOctet(n: nat): Octet { if n == 0 then 0 else PushBit8(ToOctet(n / 2), n % 2 == 1) }

  function PushOctet(x: Word, b: Octet): Word { (x << 8) | (b as Word) }
  function LowOctet(x: Word): Octet { (x & 0xff) as Octet }
  function DropOctet(x: Word): Word { x >> 8 }

  /** The word whose bytes, low byte first, are given. */
  function Little(bytes: seq<Octet>): Word {
    if bytes == [] then 0 else PushOctet(Little(bytes[1..]), bytes[0])
  }

  /** The bytes from `i` on, pushed one by one. */
  function PushAll(b: seq<Octet>, i: nat): Word
    requires i <= |b| == 8
    decreases |b| - i
  {
    if i == |b| then 0 else PushOctet(PushAll(b, i + 1), b[i])
  }

  lemma EightBytes(b: seq<Octet>)
    requires |b| == 8
    ensures Little(b) == PushOctet(PushOctet(PushOctet(PushOctet(PushOctet(PushOctet(PushOctet(PushOctet(
                         0, b[7]), b[6]), b[5]), b[4]), b[3]), b[2]), b[1]), b[0])
  {
    for i := 8 downto 0
      invariant Little(b[i..]) == PushAll(b, i)
    {
      assert b[i..][1..] == b[i + 1..] && b[i..][0] == b[i];
    }
    assert b[0..] == b;
    assert PushAll(b, 6) == PushOctet(PushOctet(0, b[7]), b[6]);
    assert PushAll(b, 4) == PushOctet(PushOctet(PushAll(b, 6), b[5]), b[4]);
    assert PushAll(b, 2) == PushOctet(PushOctet(PushAll(b, 4), b[3]), b[2]);
  }

  /** The `n` low bytes of a word, low byte first. */
  function Octets(x: Word, n: nat): (r: seq<Octet>)
    ensures |r| == n
  {
    if n == 0 then [] else [LowOctet(x)] + Octets(DropOctet(x), n - 1)
  }

  /** The eight bytes of the last word: what is left of the message, zeros, and the length of the whole message. */
  function LastBytes(tail: seq<Octet>, n: nat): (r: seq<Octet>)
    requires |tail| < 8
    ensures |r| == 8 && r[..|tail|] == tail && (forall i :: |tail| <= i < 7 ==> r[i] == 0) && r[7] == ToOctet(n)
  {
    tail + seq(7 - |tail|, _ => 0) + [ToOctet(n)]
  }

  /** The message as the words to absorb: its bytes eight by eight, then the last word. */
  function Padded(bytes: seq<Octet>, length: nat): seq<Word>
    decreases |bytes|
  {
    if |bytes| < 8 then [Little(LastBytes(bytes, length))]
    else [Little(bytes[..8])] + Padded(bytes[8..], length)
  }

  // ---------- the hash ----------

  datatype Mode = Short | Long   // 8 or 16 bytes of output

  function Key0(key: seq<Octet>): Word
    requires |key| == 16
  {
    Little(key[..8])
  }

  function Key1(key: seq<Octet>): Word
    requires |key| == 16
  {
    Little(key[8..])
  }

  function Start(key: seq<Octet>, mode: Mode): V<Word>
    requires |key| == 16
  {
    var k0, k1 := Key0(key), Key1(key);
    V(Xor(k0, 0x736f6d6570736575),
      if mode.Long? then Xor(Xor(k1, 0x646f72616e646f6d), 0xee) else Xor(k1, 0x646f72616e646f6d),
      Xor(k0, 0x6c7967656e657261), Xor(k1, 0x7465646279746573))
  }

  /** The state when all of the message has been absorbed. */
  function Absorbed(input: seq<Octet>, key: seq<Octet>, mode: Mode): V<Word>
    requires |key| == 16
  {
    Absorb(Words64(), Start(key, mode), Padded(input, |input|))
  }

  /** The state the first 8 bytes of output are folded from. */
  function Finished(input: seq<Octet>, key: seq<Octet>, mode: Mode): V<Word>
    requires |key| == 16
  {
    var v := Absorbed(input, key, mode);
    FourRounds(Words64(), v.(v2 := Xor(v.v2, if mode.Long? then 0xee else 0xff)))
  }

  /** The state the other 8 bytes of a long output are folded from. */
  function FinishedAgain(input: seq<Octet>, key: seq<Octet>): V<Word>
    requires |key| == 16
  {
    var v := Finished(input, key, Long);
    FourRounds(Words64(), v.(v1 := Xor(v.v1, 0xdd)))
  }

  function Hash(input: seq<Octet>, key: seq<Octet>, mode: Mode): (r: seq<Octet>)
    requires |key| == 16
    ensures |r| == if mode.Long? then 16 else 8
  {
    Octets(Fold(Words64(), Finished(input, key, mode)), 8)
    + if mode.Long? then Octets(Fold(Words64(), FinishedAgain(input, key)), 8) else []
  }
}
