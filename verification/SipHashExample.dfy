/** Two hashes worked through by the definition, with key 00 .. 0f: the example of appendix A of the SipHash paper, with
    message 00 .. 0e, and the empty message with 16 bytes of output. */
module SipHashExample {
  import opened SipAlgebra
  import opened SipHashSpec

  function PaperKey(): (r: seq<Octet>)
    ensures |r| == 16
  {
    [0x00, 0x01, 0x02, 0x03, 0x04, 0x05, 0x06, 0x07, 0x08, 0x09, 0x0a, 0x0b, 0x0c, 0x0d, 0x0e, 0x0f]
  }

  lemma PaperWord0()
    ensures Compress(Words64(), V(0x7469686173716475, 0x6b617f6d656e6665, 0x6b7f62616d677361, 0x7b6b696e727e6c7b),
                     0x0706050403020100)
         == V(0x4a017198de0a59e0, 0x0d52f6f62a4f59a4, 0x634cb3577b01fd3d, 0xa5224d6f55c7d9c8)
  {
    assert Round(Words64(), V(0x7469686173716475, 0x6b617f6d656e6665, 0x6b7f62616d677361, 0x7c6d6c6a717c6d7b))
        == V(0x64668a929363847f, 0x4ed232083d9aa8dc, 0xf2f74892d8141a2e, 0x9290f9810552f4a8);
    assert Round(Words64(), V(0x64668a929363847f, 0x4ed232083d9aa8dc, 0xf2f74892d8141a2e, 0x9290f9810552f4a8))
        == V(0x4d07749cdd0858e0, 0x0d52f6f62a4f59a4, 0x634cb3577b01fd3d, 0xa5224d6f55c7d9c8);
  }

  lemma PaperWord1()
    ensures Compress(Words64(), V(0x4a017198de0a59e0, 0x0d52f6f62a4f59a4, 0x634cb3577b01fd3d, 0xa5224d6f55c7d9c8),
                     0x0f0e0d0c0b0a0908)
         == V(0x3c85b3ab6f55be51, 0x414fc3fb98efe374, 0xccf13ea527b9f4bd, 0x5293f5da84008f82)
  {
    assert Round(Words64(), V(0x4a017198de0a59e0, 0x0d52f6f62a4f59a4, 0x634cb3577b01fd3d, 0xaa2c40635ecdd0c0))
        == V(0x557560fb6063d060, 0x4c8e675bd961133e, 0xbd3d002b1703a181, 0xfb9441179a4a7315);
    assert Round(Words64(), V(0x557560fb6063d060, 0x4c8e675bd961133e, 0xbd3d002b1703a181, 0xfb9441179a4a7315))
        == V(0x338bbea7645fb759, 0x414fc3fb98efe374, 0xccf13ea527b9f4bd, 0x5293f5da84008f82);
  }

  lemma PaperFinal()
    ensures FourRounds(Words64(), V(0x3c85b3ab6f55be51, 0x414fc3fb98efe374, 0xccf13ea527b9f442, 0x5293f5da84008f82))
         == V(0xf6bcd53893fecff1, 0x54b9964c7ea0d937, 0x1b38329c099bb55a, 0x1814bb89ad7be679)
  {
    assert Round(Words64(), V(0x3c85b3ab6f55be51, 0x414fc3fb98efe374, 0xccf13ea527b9f442, 0x5293f5da84008f82))
        == V(0xf2a55244a20e48fe, 0xac5ad16ccc3ca6e4, 0x9fe5adb0a52f393a, 0xfd41d55e88f30308);
    assert Round(Words64(), V(0xf2a55244a20e48fe, 0xac5ad16ccc3ca6e4, 0x9fe5adb0a52f393a, 0xfd41d55e88f30308))
        == V(0xb6c3fbdecc2ae4b4, 0x1638c86adc6b3cf0, 0x28b8b6ab62553d46, 0xc9465e86ec43eb95);
    assert Round(Words64(), V(0xb6c3fbdecc2ae4b4, 0x1638c86adc6b3cf0, 0x28b8b6ab62553d46, 0xc9465e86ec43eb95))
        == V(0x58101b167209a5e6, 0xf8792ae75b66e7dd, 0x1da14c3ec7f0b4f7, 0x7624ba8a41bc4ad9);
    assert Round(Words64(), V(0x58101b167209a5e6, 0xf8792ae75b66e7dd, 0x1da14c3ec7f0b4f7, 0x7624ba8a41bc4ad9))
        == V(0xf6bcd53893fecff1, 0x54b9964c7ea0d937, 0x1b38329c099bb55a, 0x1814bb89ad7be679);
  }

  function PaperMessage(): seq<Octet> { PaperKey()[..15] }

  lemma PaperWords()
    ensures Key0(PaperKey()) == 0x0706050403020100 && Key1(PaperKey()) == 0x0f0e0d0c0b0a0908
    ensures Padded(PaperMessage(), 15) == [0x0706050403020100, 0x0f0e0d0c0b0a0908]
  {
    var k, m := PaperKey(), PaperMessage();
    EightBytes(k[..8]);
    EightBytes(k[8..]);
    assert m[..8] == k[..8];
    assert LastBytes(m[8..], 15) == m[8..] + [0x0f];
    assert Padded(m[8..], 15) == [Little(m[8..] + [0x0f])];
    assert m[8..] + [0x0f] == k[8..];
  }

  lemma PaperAbsorbed()
    ensures Absorbed(PaperMessage(), PaperKey(), Short)
         == V(0x3c85b3ab6f55be51, 0x414fc3fb98efe374, 0xccf13ea527b9f4bd, 0x5293f5da84008f82)
  {
    PaperWords();
    PaperWord0();
    PaperWord1();
    var v := V(0x7469686173716475, 0x6b617f6d656e6665, 0x6b7f62616d677361, 0x7b6b696e727e6c7b);
    assert Start(PaperKey(), Short) == v;
    AbsorbTwo(v, 0x0706050403020100, 0x0f0e0d0c0b0a0908);
  }

  lemma AbsorbTwo(v: V<Word>, m0: Word, m1: Word)
    ensures Absorb(Words64(), v, [m0, m1]) == Compress(Words64(), Compress(Words64(), v, m0), m1)
  {
    assert [m0, m1][1..] == [m1] && [m1][1..] == [];
    var v' := Compress(Words64(), v, m0);
    assert Absorb(Words64(), v', [m1]) == Absorb(Words64(), Compress(Words64(), v', m1), []);
  }

  lemma PaperOutput()
    ensures Octets(0xa129ca6149be45e5, 8) == [0xe5, 0x45, 0xbe, 0x49, 0x61, 0xca, 0x29, 0xa1]
  {
    assert Octets(0xa129ca61, 4) == [0x61, 0xca, 0x29, 0xa1];
    assert DropOctet(DropOctet(DropOctet(DropOctet(0xa129ca6149be45e5)))) == 0xa129ca61;
  }

  lemma PaperFolds()
    ensures Fold(Words64(), V(0xf6bcd53893fecff1, 0x54b9964c7ea0d937, 0x1b38329c099bb55a, 0x1814bb89ad7be679))
         == 0xa129ca6149be45e5
  {
  }

  lemma PaperFinished()
    ensures Finished(PaperMessage(), PaperKey(), Short)
         == V(0xf6bcd53893fecff1, 0x54b9964c7ea0d937, 0x1b38329c099bb55a, 0x1814bb89ad7be679)
  {
    PaperAbsorbed();
    PaperFinal();
  }

  lemma ShortHash(input: seq<Octet>, key: seq<Octet>, v: V<Word>, x: Word)
    requires |key| == 16
    ensures Finished(input, key, Short) == v && Fold(Words64(), v) == x ==> Hash(input, key, Short) == Octets(x, 8)
  {
    hide Finished, Fold, Octets, Words64;
  }

  /** The hash the paper works out. */
  lemma PaperHash()
    ensures Hash(PaperMessage(), PaperKey(), Short) == [0xe5, 0x45, 0xbe, 0x49, 0x61, 0xca, 0x29, 0xa1]
  {
    PaperFinished();
    PaperFolds();
    ShortHash(PaperMessage(), PaperKey(),
              V(0xf6bcd53893fecff1, 0x54b9964c7ea0d937, 0x1b38329c099bb55a, 0x1814bb89ad7be679), 0xa129ca6149be45e5);
    PaperOutput();
  }

  // ---------- sixteen bytes of output ----------

  lemma NoOctet()
    ensures PushOctet(0, 0) == 0
  {
  }

  lemma NoBytes(zeros: seq<Octet>)
    requires |zeros| == 8 && forall i :: 0 <= i < 8 ==> zeros[i] == 0
    ensures Little(zeros) == 0
  {
    EightBytes(zeros);
    NoOctet();
    hide PushOctet;
  }

  lemma EmptyWords()
    ensures Padded([], 0) == [0]
  {
    hide Little;
    NoBytes(LastBytes([], 0));
  }

  lemma EmptyWord()
    ensures Compress(Words64(), V(0x7469686173716475, 0x6b617f6d656e668b, 0x6b7f62616d677361, 0x7b6b696e727e6c7b), 0)
         == V(0xf7b86ac24af190f8, 0xe82b4d1aae62964f, 0xdb00cdf58024b1b6, 0xf16c7ddbe82534d7)
  {
    assert Round(Words64(), V(0x7469686173716475, 0x6b617f6d656e668b, 0x6b7f62616d677361, 0x7b6b696e727e6c7b))
        == V(0x686484b293698c85, 0x41d43f2fbf2d6606, 0xf3f48648d7121732, 0x5e52f76605987c12);
    assert Round(Words64(), V(0x686484b293698c85, 0x41d43f2fbf2d6606, 0xf3f48648d7121732, 0x5e52f76605987c12))
        == V(0xf7b86ac24af190f8, 0xe82b4d1aae62964f, 0xdb00cdf58024b1b6, 0xf16c7ddbe82534d7);
  }

  lemma EmptyAbsorbed()
    ensures Absorbed([], PaperKey(), Long)
         == V(0xf7b86ac24af190f8, 0xe82b4d1aae62964f, 0xdb00cdf58024b1b6, 0xf16c7ddbe82534d7)
  {
    PaperWords();
    EmptyWords();
    EmptyWord();
    var v := V(0x7469686173716475, 0x6b617f6d656e668b, 0x6b7f62616d677361, 0x7b6b696e727e6c7b);
    assert Start(PaperKey(), Long) == v;
    AbsorbOne(v, 0);
  }

  lemma AbsorbOne(v: V<Word>, m: Word)
    ensures Absorb(Words64(), v, [m]) == Compress(Words64(), v, m)
  {
    assert Absorb(Words64(), v, [m]) == Absorb(Words64(), Compress(Words64(), v, m), []);
  }

  lemma LongFirst()
    ensures FourRounds(Words64(), V(0xf7b86ac24af190f8, 0xe82b4d1aae62964f, 0xdb00cdf58024b158, 0xf16c7ddbe82534d7))
         == V(0x1f15b3407cdcad4e, 0x5b8ac2287ced11f0, 0xc5c120a9b46fe469, 0x67f6747bb021d974)
  {
    assert Round(Words64(), V(0xf7b86ac24af190f8, 0xe82b4d1aae62964f, 0xdb00cdf58024b158, 0xf16c7ddbe82534d7))
        == V(0xab0acb3c3c81cf1f, 0x468f7ad9a762acf0, 0x13e7c07182ae2de2, 0xd58158fed4f7f9cb);
    assert Round(Words64(), V(0xab0acb3c3c81cf1f, 0x468f7ad9a762acf0, 0x13e7c07182ae2de2, 0xd58158fed4f7f9cb))
        == V(0x957c4997a0083841, 0xedd9e09ee79ca109, 0x0e209c8b082a8c6a, 0x25898429e59e0ab8);
    assert Round(Words64(), V(0x957c4997a0083841, 0xedd9e09ee79ca109, 0x0e209c8b082a8c6a, 0x25898429e59e0ab8))
        == V(0x3f289e756ac6dce1, 0x1f7a3071c8ad0298, 0x014e7c13f2f0177a, 0x9a7470633fb02c99);
    assert Round(Words64(), V(0x3f289e756ac6dce1, 0x1f7a3071c8ad0298, 0x014e7c13f2f0177a, 0x9a7470633fb02c99))
        == V(0x1f15b3407cdcad4e, 0x5b8ac2287ced11f0, 0xc5c120a9b46fe469, 0x67f6747bb021d974);
  }

  lemma LongSecond()
    ensures FourRounds(Words64(), V(0x1f15b3407cdcad4e, 0x5b8ac2287ced112d, 0xc5c120a9b46fe469, 0x67f6747bb021d974))
         == V(0x69de21b5d4c9e81a, 0x8a83cac43fc5add3, 0x9e809e9103369a09, 0xeedf2027fc4829ad)
  {
    assert Round(Words64(), V(0x1f15b3407cdcad4e, 0x5b8ac2287ced112d, 0xc5c120a9b46fe469, 0x67f6747bb021d974))
        == V(0x5395e38038864f93, 0xa577a7c2ea69972d, 0xc07dd2e7509d101a, 0xf3025f3b7ded7617);
    assert Round(Words64(), V(0x5395e38038864f93, 0xa577a7c2ea69972d, 0xc07dd2e7509d101a, 0xf3025f3b7ded7617))
        == V(0x0fab3690b1ab0076, 0x6d6a28247a48c374, 0xde94d89fc1760830, 0xf65c253e17d6971f);
    assert Round(Words64(), V(0x0fab3690b1ab0076, 0x6d6a28247a48c374, 0xde94d89fc1760830, 0xf65c253e17d6971f))
        == V(0x1dc2adf5cb68c7c8, 0xaefaa8e090679db5, 0x0ce9ed960d02cfda, 0x5cab6798e916fe15);
    assert Round(Words64(), V(0x1dc2adf5cb68c7c8, 0xaefaa8e090679db5, 0x0ce9ed960d02cfda, 0x5cab6798e916fe15))
        == V(0x69de21b5d4c9e81a, 0x8a83cac43fc5add3, 0x9e809e9103369a09, 0xeedf2027fc4829ad);
  }

  lemma LongFolds()
    ensures Fold(Words64(), V(0x1f15b3407cdcad4e, 0x5b8ac2287ced11f0, 0xc5c120a9b46fe469, 0x67f6747bb021d974))
         == 0xe6a825ba047f81a3
    ensures Fold(Words64(), V(0x69de21b5d4c9e81a, 0x8a83cac43fc5add3, 0x9e809e9103369a09, 0xeedf2027fc4829ad))
         == 0x930255c71472f66d
  {
  }

  lemma LongFinished()
    ensures Finished([], PaperKey(), Long)
         == V(0x1f15b3407cdcad4e, 0x5b8ac2287ced11f0, 0xc5c120a9b46fe469, 0x67f6747bb021d974)
    ensures FinishedAgain([], PaperKey())
         == V(0x69de21b5d4c9e81a, 0x8a83cac43fc5add3, 0x9e809e9103369a09, 0xeedf2027fc4829ad)
  {
    EmptyAbsorbed();
    LongFirst();
    LongSecond();
  }

  lemma FirstOutput()
    ensures Octets(0xe6a825ba047f81a3, 8) == [0xa3, 0x81, 0x7f, 0x04, 0xba, 0x25, 0xa8, 0xe6]
  {
    assert Octets(0xe6a825ba, 4) == [0xba, 0x25, 0xa8, 0xe6];
    assert DropOctet(DropOctet(DropOctet(DropOctet(0xe6a825ba047f81a3)))) == 0xe6a825ba;
  }

  lemma SecondOutput()
    ensures Octets(0x930255c71472f66d, 8) == [0x6d, 0xf6, 0x72, 0x14, 0xc7, 0x55, 0x02, 0x93]
  {
    assert Octets(0x930255c7, 4) == [0xc7, 0x55, 0x02, 0x93];
    assert DropOctet(DropOctet(DropOctet(DropOctet(0x930255c71472f66d)))) == 0x930255c7;
  }

  lemma LongHash(input: seq<Octet>, key: seq<Octet>, v: V<Word>, w: V<Word>, x: Word, y: Word)
    requires |key| == 16
    ensures
      && Finished(input, key, Long) == v && FinishedAgain(input, key) == w
      && Fold(Words64(), v) == x && Fold(Words64(), w) == y
      ==> Hash(input, key, Long) == Octets(x, 8) + Octets(y, 8)
  {
    hide Finished, FinishedAgain, Fold, Octets, Words64;
  }

  /** The first of the vectors with 16 bytes of output that come with the reference code: the empty message. */
  lemma EmptyHash()
    ensures Hash([], PaperKey(), Long)
         == [0xa3, 0x81, 0x7f, 0x04, 0xba, 0x25, 0xa8, 0xe6, 0x6d, 0xf6, 0x72, 0x14, 0xc7, 0x55, 0x02, 0x93]
  {
    hide Hash, Finished, FinishedAgain, Fold, Octets, Words64;
    LongFinished();
    LongFolds();
    LongHash([], PaperKey(),
             V(0x1f15b3407cdcad4e, 0x5b8ac2287ced11f0, 0xc5c120a9b46fe469, 0x67f6747bb021d974),
             V(0x69de21b5d4c9e81a, 0x8a83cac43fc5add3, 0x9e809e9103369a09, 0xeedf2027fc4829ad),
             0xe6a825ba047f81a3, 0x930255c71472f66d);
    FirstOutput();
    SecondOutput();
  }
}
