/** What the construction of SipHash guarantees, whatever the input and the key. */
module SipHashTheorems {
  import opened SipAlgebra
  import opened SipHashSpec

  // ---------- bytes and words ----------

  /** The bits above the `n` low bytes, for fewer than eight bytes. */
  function Above(n: nat): Word
    requires n < 8
  {
    if n == 0 then 0xffff_ffff_ffff_ffff
    else if n == 1 then 0xffff_ffff_ffff_ff00
    else if n == 2 then 0xffff_ffff_ffff_0000
    else if n == 3 then 0xffff_ffff_ff00_0000
    else if n == 4 then 0xffff_ffff_0000_0000
    else if n == 5 then 0xffff_ff00_0000_0000
    else if n == 6 then 0xffff_0000_0000_0000
    else 0xff00_0000_0000_0000
  }

  predicate Fits(x: Word, n: nat)
    requires n < 8
  {
    x & Above(n) == 0
  }

  lemma PushFits(x: Word, b: Octet, n: nat)
    requires n < 7 && Fits(x, n)
    ensures Fits(PushOctet(x, b), n + 1)
  {
  }

  lemma {:induction false} LittleFits(bytes: seq<Octet>)
    requires |bytes| < 8
    ensures Fits(Little(bytes), |bytes|)
  {
    if bytes != [] {
      LittleFits(bytes[1..]);
      PushFits(Little(bytes[1..]), bytes[0], |bytes| - 1);
    }
  }

  lemma TakeOctetOff(x: Word, b: Octet, n: nat)
    requires n < 8 && Fits(x, n)
    ensures LowOctet(PushOctet(x, b)) == b && DropOctet(PushOctet(x, b)) == x
  {
  }

  /** Up to eight bytes can be read back from the word they make. */
  lemma {:induction false} OctetsOfLittle(bytes: seq<Octet>)
    requires |bytes| <= 8
    ensures Octets(Little(bytes), |bytes|) == bytes
  {
    if bytes != [] {
      LittleFits(bytes[1..]);
      TakeOctetOff(Little(bytes[1..]), bytes[0], |bytes| - 1);
      OctetsOfLittle(bytes[1..]);
    }
  }

  lemma LittleIsInjective(a: seq<Octet>, b: seq<Octet>)
    requires |a| == |b| <= 8
    ensures Little(a) == Little(b) ==> a == b
  {
    OctetsOfLittle(a);
    OctetsOfLittle(b);
  }

  lemma DropFits(x: Word, n: nat)
    requires n < 7 && Fits(x, n + 1)
    ensures Fits(DropOctet(x), n)
  {
  }

  lemma PutOctetBack(x: Word)
    ensures PushOctet(DropOctet(x), LowOctet(x)) == x && Fits(DropOctet(x), 7)
  {
  }

  lemma {:induction false} LittleOfOctetsThatFit(x: Word, n: nat)
    requires n < 8 && Fits(x, n)
    ensures Little(Octets(x, n)) == x
  {
    if n > 0 {
      DropFits(x, n - 1);
      LittleOfOctetsThatFit(DropOctet(x), n - 1);
      PutOctetBack(x);
      assert Octets(x, n)[1..] == Octets(DropOctet(x), n - 1);
    } else {
      assert x & Above(0) == x;
    }
  }

  /** The eight bytes written out for a word determine it. */
  lemma LittleOfOctets(x: Word)
    ensures Little(Octets(x, 8)) == x
  {
    PutOctetBack(x);
    LittleOfOctetsThatFit(DropOctet(x), 7);
    assert Octets(x, 8)[1..] == Octets(DropOctet(x), 7);
  }

  // ---------- padding ----------

  /** The two bytes agree in their `k` low bits. */
  predicate Agree(x: Octet, y: Octet, k: nat)
    requires k <= 3
  {
    (x ^ y) & (if k == 0 then 0 else if k == 1 then 1 else if k == 2 then 3 else 7) == 0
  }

  lemma PopBit(x: Octet, y: Octet, b: bool, c: bool, k: nat)
    requires k < 3 && Agree(PushBit8(x, b), PushBit8(y, c), k + 1)
    ensures b == c && Agree(x, y, k)
  {
  }

  lemma PopBitOfNumbers(n: nat, m: nat, k: nat)
    requires k < 3 && Agree(ToOctet(n), ToOctet(m), k + 1)
    ensures n % 2 == m % 2 && Agree(ToOctet(n / 2), ToOctet(m / 2), k)
  {
    ToOctetPushes(n);
    ToOctetPushes(m);
    PopBit(ToOctet(n / 2), ToOctet(m / 2), n % 2 == 1, m % 2 == 1, k);
  }

  lemma ToOctetPushes(n: nat)
    ensures ToOctet(n) == PushBit8(ToOctet(n / 2), n % 2 == 1)
  {
    assert PushBit8(0, false) == 0;
  }

  lemma EqualAgree(x: Octet)
    ensures Agree(x, x, 3)
  {
  }

  /** The length byte tells how many bytes the last word holds. */
  lemma LengthByteTells(n: nat, m: nat)
    requires ToOctet(n) == ToOctet(m)
    ensures n % 8 == m % 8
  {
    EqualAgree(ToOctet(n));
    PopBitOfNumbers(n, m, 2);
    PopBitOfNumbers(n / 2, m / 2, 1);
    PopBitOfNumbers(n / 2 / 2, m / 2 / 2, 0);
    ModEight(n);
    ModEight(m);
  }

  lemma ModEight(n: nat)
    ensures n % 8 == n % 2 + 2 * (n / 2 % 2) + 4 * (n / 2 / 2 % 2)
  {
  }

  lemma {:induction false} PaddedLength(a: seq<Octet>, n: nat)
    ensures |Padded(a, n)| == |a| / 8 + 1
    decreases |a|
  {
    if |a| >= 8 { PaddedLength(a[8..], n); }
  }

  lemma LastWordTells(a: seq<Octet>, b: seq<Octet>, n: nat, m: nat)
    requires |a| < 8 && |b| < 8 && |a| == n % 8 && |b| == m % 8
    ensures Little(LastBytes(a, n)) == Little(LastBytes(b, m)) ==> a == b
  {
    LittleIsInjective(LastBytes(a, n), LastBytes(b, m));
    if LastBytes(a, n) == LastBytes(b, m) { LengthByteTells(n, m); }
  }

  lemma {:induction false} PaddedIsInjectiveFrom(a: seq<Octet>, b: seq<Octet>, n: nat, m: nat)
    requires |a| % 8 == n % 8 && |b| % 8 == m % 8
    ensures Padded(a, n) == Padded(b, m) ==> a == b
    decreases |a|
  {
    PaddedLength(a, n);
    PaddedLength(b, m);
    if Padded(a, n) == Padded(b, m) {
      if |a| < 8 {
        assert Padded(a, n)[0] == Little(LastBytes(a, n)) && Padded(b, m)[0] == Little(LastBytes(b, m));
        LastWordTells(a, b, n, m);
      } else {
        assert Padded(a, n)[0] == Little(a[..8]) && Padded(b, m)[0] == Little(b[..8]);
        LittleIsInjective(a[..8], b[..8]);
        assert Padded(a, n)[1..] == Padded(a[8..], n) && Padded(b, m)[1..] == Padded(b[8..], m);
        PaddedIsInjectiveFrom(a[8..], b[8..], n, m);
        assert a == a[..8] + a[8..] && b == b[..8] + b[8..];
      }
    }
  }

  /** Two messages of any lengths that absorb as the same words are the same message, byte for byte. */
  lemma {:induction false} PaddingIsInjective(a: seq<Octet>, b: seq<Octet>)
    ensures Padded(a, |a|) == Padded(b, |b|) ==> a == b
  {
    PaddedIsInjectiveFrom(a, b, |a|, |b|);
  }

  // ---------- keys and modes ----------

  lemma XorCancels(x: Word, y: Word, c: Word)
    ensures Xor(x, c) == Xor(y, c) ==> x == y
  {
    XorTwice(x, c);
    XorTwice(y, c);
  }

  lemma KeyIsItsHalves(k: seq<Octet>, j: seq<Octet>)
    requires |k| == |j| == 16
    ensures Key0(k) == Key0(j) && Key1(k) == Key1(j) ==> k == j
  {
    LittleIsInjective(k[..8], j[..8]);
    LittleIsInjective(k[8..], j[8..]);
    assert k == k[..8] + k[8..] && j == j[..8] + j[8..];
  }

  lemma StartIsInjective(k: seq<Octet>, j: seq<Octet>, mode: Mode)
    requires |k| == |j| == 16
    ensures Start(k, mode) == Start(j, mode) ==> k == j
  {
    XorCancels(Key0(k), Key0(j), 0x736f6d6570736575);
    XorCancels(Key1(k), Key1(j), 0x7465646279746573);
    KeyIsItsHalves(k, j);
  }

  lemma AbsorbedIsInjective(input: seq<Octet>, k: seq<Octet>, j: seq<Octet>, mode: Mode)
    requires |k| == |j| == 16
    ensures Absorbed(input, k, mode) == Absorbed(input, j, mode) ==> k == j
  {
    hide Absorb, Start, Padded, Words64;
    Words64AreLawful();
    AbsorbIsInjective(Words64(), Start(k, mode), Start(j, mode), Padded(input, |input|));
    StartIsInjective(k, j, mode);
  }

  /** For every message, the state that the first output is folded from is an injective function of the key. */
  lemma FinishedIsInjective(input: seq<Octet>, k: seq<Octet>, j: seq<Octet>, mode: Mode)
    requires |k| == |j| == 16
    ensures Finished(input, k, mode) == Finished(input, j, mode) ==> k == j
  {
    hide Absorbed, FourRounds, Words64, Xor;
    var v, u := Absorbed(input, k, mode), Absorbed(input, j, mode);
    var c: Word := if mode.Long? then 0xee else 0xff;
    Words64AreLawful();
    FourRoundsIsInjective(Words64(), v.(v2 := Xor(v.v2, c)), u.(v2 := Xor(u.v2, c)));
    XorCancels(v.v2, u.v2, c);
    AbsorbedIsInjective(input, k, j, mode);
  }

  /** So is the state that the second half of a long output is folded from. */
  lemma FinishedAgainIsInjective(input: seq<Octet>, k: seq<Octet>, j: seq<Octet>)
    requires |k| == |j| == 16
    ensures FinishedAgain(input, k) == FinishedAgain(input, j) ==> k == j
  {
    hide Finished, FourRounds, Words64, Xor;
    var v, u := Finished(input, k, Long), Finished(input, j, Long);
    Words64AreLawful();
    FourRoundsIsInjective(Words64(), v.(v1 := Xor(v.v1, 0xdd)), u.(v1 := Xor(u.v1, 0xdd)));
    XorCancels(v.v1, u.v1, 0xdd);
    FinishedIsInjective(input, k, j, Long);
  }

  lemma ModeByteShows(x: Word)
    ensures Xor(x, 0xee) != x
  {
  }

  lemma StartsDiffer(k: seq<Octet>, j: seq<Octet>)
    requires |k| == |j| == 16
    ensures Start(k, Short) != Start(j, Long)
  {
    ModeByteShows(Xor(Key1(j), 0x646f72616e646f6d));
    XorCancels(Key1(k), Key1(j), 0x7465646279746573);
  }

  /** A short and a long hash of the same message never share a state while absorbing, whatever the two keys. */
  lemma ModesNeverMeet(input: seq<Octet>, k: seq<Octet>, j: seq<Octet>)
    requires |k| == |j| == 16
    ensures Absorbed(input, k, Short) != Absorbed(input, j, Long)
  {
    hide Absorb, Start, Padded, Words64;
    Words64AreLawful();
    AbsorbIsInjective(Words64(), Start(k, Short), Start(j, Long), Padded(input, |input|));
    StartsDiffer(k, j);
  }
}
