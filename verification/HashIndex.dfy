/** The bucket of a 64-bit address, computed alike by clients and servers. */
module HashIndex {
  import opened Murmur3

  const TABLE_SIZE: nat := 251

  function ToWord(n: nat): bv32
    requires n < 0x1_0000_0000
  {
    n as bv32
  }

  function LowHalf(a: nat): bv32 { ToWord(a % 0x1_0000_0000) }
  function HighHalf(a: nat): bv32 { ToWord(a / 0x1_0000_0000 % 0x1_0000_0000) }

  function KeyOf(a: nat): bv32 { Hash(PointerBytes(LowHalf(a), HighHalf(a))) }

  function IndexOf(a: nat): (i: nat)
    ensures i < TABLE_SIZE
  {
    (KeyOf(a) as nat % TABLE_SIZE + TABLE_SIZE) % TABLE_SIZE
  }

  /** Addresses that differ by the node number alone have different keys, yet the keys below
      fall into the same bucket. */
  lemma SameBucketForTwoNodes()
    ensures IndexOf(0x7f5a01c00010) == IndexOf(0x17f5a01c00010) == 156
  {
    FirstKey();
    SecondKey();
    hide KeyOf;
  }

  lemma HalvesOf(a: nat, low: nat, high: nat)
    requires a == high * 0x1_0000_0000 + low && low < 0x1_0000_0000 && high < 0x1_0000_0000
    ensures LowHalf(a) == ToWord(low) && HighHalf(a) == ToWord(high)
  {
    hide ToWord;
    assert a % 0x1_0000_0000 == low && a / 0x1_0000_0000 == high;
  }

  lemma Words()
    ensures ToWord(0x01c00010) == 0x01c00010 && ToWord(0x7f5a) == 0x7f5a && ToWord(0x17f5a) == 0x17f5a
  {
    assert (0x01c00010 as bv32) == 0x01c00010;
    assert (0x7f5a as bv32) == 0x7f5a;
    assert (0x17f5a as bv32) == 0x17f5a;
  }

  lemma FirstKey()
    ensures KeyOf(0x7f5a01c00010) == 0xb94b1c74
  {
    hide Hash, PointerBytes, LowHalf, HighHalf, ToWord, Round, Fmix, Xor, LowWord;
    HalvesOf(0x7f5a01c00010, 0x01c00010, 0x7f5a);
    Words();
    HashOfPointer(0x01c00010, 0x7f5a);
    FirstRound();
    SecondRoundA();
    FinishA();
  }

  lemma FirstRound()
    ensures Round(0, 0x01c00010) == 0xef16ad61
  {
  }

  lemma SecondRoundA()
    ensures Round(0xef16ad61, 0x7f5a) == 0xf8f29ebd
  {
  }

  lemma FinishA()
    ensures Fmix(Xor(0xf8f29ebd, LowWord(8))) == 0xb94b1c74
  {
    assert Xor(0xf8f29ebd, LowWord(8)) == 0xf8f29eb5;
    assert XorShift16(0xf8f29eb5) == 0xf8f26647;
    assert TimesF1(0xf8f26647) == 0x1831c5ad;
    assert XorShift13(0x1831c5ad) == 0x18310423;
    assert TimesF2(0x18310423) == 0xb94ba53f;
  }

  lemma SecondKey()
    ensures KeyOf(0x17f5a01c00010) == 0xc4e85630
  {
    hide Hash, PointerBytes, LowHalf, HighHalf, ToWord, Round, Fmix, Xor, LowWord;
    HalvesOf(0x17f5a01c00010, 0x01c00010, 0x17f5a);
    Words();
    HashOfPointer(0x01c00010, 0x17f5a);
    FirstRound();
    SecondRoundB();
    FinishB();
  }

  lemma SecondRoundB()
    ensures Round(0xef16ad61, 0x17f5a) == 0x18fb1bc4
  {
  }

  lemma FinishB()
    ensures Fmix(Xor(0x18fb1bc4, LowWord(8))) == 0xc4e85630
  {
    assert Xor(0x18fb1bc4, LowWord(8)) == 0x18fb1bcc;
    assert XorShift16(0x18fb1bcc) == 0x18fb0337;
    assert TimesF1(0x18fb0337) == 0x07f0bdfd;
    assert XorShift13(0x07f0bdfd) == 0x07f08278;
    assert TimesF2(0x07f08278) == 0xc4e892d8;
  }
}
