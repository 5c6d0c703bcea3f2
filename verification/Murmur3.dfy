/**
 The 32-bit hash behind both hash tables.  Every mixing step is a bijection of the
 32-bit words, so keys that differ in one block only never collide.

 Each machine operation is a named function with a named inverse; the bit-level facts
 are proved one operation at a time and composed by equality alone.
 */
module Murmur3 {

  type Byte = bv8

  // ---------- machine operations ----------

  function Xor(x: bv32, y: bv32): bv32 { x ^ y }
  function Rotl13(x: bv32): bv32 { (x << 13) | (x >> 19) }
  function Rotl15(x: bv32): bv32 { (x << 15) | (x >> 17) }
  function XorShift16(h: bv32): bv32 { h ^ (h >> 16) }
  function XorShift13(h: bv32): bv32 { h ^ (h >> 13) }
  function TimesC1(x: bv32): bv32 { x * 0xcc9e2d51 }
  function TimesC2(x: bv32): bv32 { x * 0x1b873593 }
  function TimesF1(x: bv32): bv32 { x * 0x85ebca6b }
  function TimesF2(x: bv32): bv32 { x * 0xc2b2ae35 }
  function Times5Plus(x: bv32): bv32 { x * 5 + 0xe6546b64 }

  function UnRotl13(x: bv32): bv32 { (x >> 13) | (x << 19) }
  function UnRotl15(x: bv32): bv32 { (x >> 15) | (x << 17) }
  function UnXorShift16(h: bv32): bv32 { h ^ (h >> 16) }
  function UnXorShift13(h: bv32): bv32 { h ^ (h >> 13) ^ (h >> 26) }
  function UnTimesC1(x: bv32): bv32 { x * 0xdee13bb1 }
  function UnTimesC2(x: bv32): bv32 { x * 0x56ed309b }
  function UnTimesF1(x: bv32): bv32 { x * 0xa5cb9243 }
  function UnTimesF2(x: bv32): bv32 { x * 0x7ed1b41d }
  function UnTimes5Plus(x: bv32): bv32 { (x - 0xe6546b64) * 0xcccccccd }

  /** The inverses, on the operations written out. */
  lemma RawInverses(x: bv32, y: bv32)
    ensures Xor(x ^ y, y) == x && Xor(x ^ y, x) == y
    ensures UnRotl13((x << 13) | (x >> 19)) == x && UnRotl15((x << 15) | (x >> 17)) == x
    ensures UnXorShift16(x ^ (x >> 16)) == x && UnXorShift13(x ^ (x >> 13)) == x
    ensures UnTimesC1(x * 0xcc9e2d51) == x && UnTimesC2(x * 0x1b873593) == x
    ensures UnTimesF1(x * 0x85ebca6b) == x && UnTimesF2(x * 0xc2b2ae35) == x
    ensures UnTimes5Plus(x * 5 + 0xe6546b64) == x
  {
  }

  lemma Inverses(x: bv32)
    ensures UnRotl13(Rotl13(x)) == x && UnRotl15(Rotl15(x)) == x
    ensures UnXorShift16(XorShift16(x)) == x && UnXorShift13(XorShift13(x)) == x
    ensures UnTimesC1(TimesC1(x)) == x && UnTimesC2(TimesC2(x)) == x
    ensures UnTimesF1(TimesF1(x)) == x && UnTimesF2(TimesF2(x)) == x
    ensures UnTimes5Plus(Times5Plus(x)) == x
  {
    hide UnRotl13, UnRotl15, UnXorShift16, UnXorShift13, UnTimesC1, UnTimesC2, UnTimesF1, UnTimesF2, UnTimes5Plus;
    RawInverses(x, x);
  }

  lemma XorCancels(x: bv32, y: bv32, z: bv32)
    ensures Xor(x, z) == Xor(y, z) ==> x == y
    ensures Xor(z, x) == Xor(z, y) ==> x == y
  {
    XorTwice(x, z);
    XorTwice(y, z);
    hide Xor;
  }

  lemma XorTwice(x: bv32, z: bv32)
    ensures Xor(Xor(x, z), z) == x && Xor(Xor(z, x), z) == x
  {
    RawInverses(x, z);
    RawInverses(z, x);
  }

  // ---------- the hash ----------

  /** The finalisation mix. */
  function Fmix(h: bv32): bv32 {
    XorShift16(TimesF2(XorShift13(TimesF1(XorShift16(h)))))
  }

  /** The scrambling of one block. */
  function Mix(k: bv32): bv32 { TimesC2(Rotl15(TimesC1(k))) }

  /** One round of the body. */
  function Round(h: bv32, k: bv32): bv32 { Times5Plus(Rotl13(Xor(h, Mix(k)))) }

  function Word(b0: Byte, b1: Byte, b2: Byte, b3: Byte): bv32 {
    (b0 as bv32) | ((b1 as bv32) << 8) | ((b2 as bv32) << 16) | ((b3 as bv32) << 24)
  }

  /** The i-th little-endian 4-byte block. */
  function GetBlock(key: seq<Byte>, i: nat): bv32
    requires 4 * i + 4 <= |key|
  {
    Word(key[4 * i], key[4 * i + 1], key[4 * i + 2], key[4 * i + 3])
  }

  /** The state after the first n blocks. */
  function Body(key: seq<Byte>, n: nat): bv32
    requires 4 * n <= |key|
  {
    if n == 0 then 0 else Round(Body(key, n - 1), GetBlock(key, n - 1))
  }

  /** The word made of the one to three bytes behind the last block. */
  function TailWord(tail: seq<Byte>): bv32
    requires |tail| < 4
  {
    Word(if |tail| > 0 then tail[0] else 0, if |tail| > 1 then tail[1] else 0,
         if |tail| > 2 then tail[2] else 0, 0)
  }

  function WithTail(h: bv32, tail: seq<Byte>): bv32
    requires |tail| < 4
  {
    if tail == [] then h else Xor(h, Mix(TailWord(tail)))
  }

  function Tail(key: seq<Byte>): (t: seq<Byte>)
    ensures |t| == |key| % 4
  {
    key[|key| / 4 * 4..]
  }

  /** `length` is a size_t; xor-ing it into a 32-bit word keeps its low 32 bits. */
  function LowWord(length: nat): bv32 { (length % 0x1_0000_0000) as bv32 }

  function Hash(key: seq<Byte>): bv32 {
    Fmix(Xor(WithTail(Body(key, |key| / 4), Tail(key)), LowWord(|key|)))
  }

  /** `MurmurHash3_x86_32`, with its loop over negative block indices. */
  method MurmurHash3(key: seq<Byte>) returns (h1: bv32)
    ensures h1 == Hash(key)
  {
    hide Xor, Word, TimesC1, TimesC2, Rotl15, Rotl13, Times5Plus, LowWord;
    var nblocks := |key| / 4;
    h1 := 0;
    var i: int := -nblocks;
    while i != 0
      invariant -nblocks <= i <= 0
      invariant h1 == Body(key, nblocks + i)
      decreases -i
    {
      var k1 := GetBlock(key, nblocks + i);
      k1 := TimesC1(k1);
      k1 := Rotl15(k1);
      k1 := TimesC2(k1);
      h1 := Xor(h1, k1);
      h1 := Rotl13(h1);
      h1 := Times5Plus(h1);
      i := i + 1;
    }
    var tail := Tail(key);
    if tail != [] {
      var k1 := GatherTail(tail);
      k1 := TimesC1(k1);
      k1 := Rotl15(k1);
      k1 := TimesC2(k1);
      h1 := Xor(h1, k1);
    }
    h1 := Xor(h1, LowWord(|key|));
    h1 := FinalMix(h1);
  }

  function XorByte0(k: bv32, b: Byte): bv32 { k ^ (b as bv32) }
  function XorByte1(k: bv32, b: Byte): bv32 { k ^ ((b as bv32) << 8) }
  function XorByte2(k: bv32, b: Byte): bv32 { k ^ ((b as bv32) << 16) }

  /** The fall-through switch over the length of the tail. */
  method GatherTail(tail: seq<Byte>) returns (k1: bv32)
    requires 1 <= |tail| < 4
    ensures k1 == TailWord(tail)
  {
    hide XorByte0, XorByte1, XorByte2, Word;
    k1 := 0;
    if |tail| == 3 {
      k1 := XorByte2(k1, tail[2]);
    }
    if |tail| >= 2 {
      k1 := XorByte1(k1, tail[1]);
    }
    k1 := XorByte0(k1, tail[0]);
    BytesXored(tail[0], if |tail| >= 2 then tail[1] else 0, if |tail| == 3 then tail[2] else 0);
  }

  lemma BytesXored(a: Byte, b: Byte, c: Byte)
    ensures Word(0, 0, 0, 0) == 0
    ensures XorByte2(0, c) == Word(0, 0, c, 0)
    ensures XorByte1(Word(0, 0, c, 0), b) == Word(0, b, c, 0)
    ensures XorByte0(Word(0, b, c, 0), a) == Word(a, b, c, 0)
  {
    WordZero();
    hide XorByte0, XorByte1, XorByte2, Word;
    RawByte2(c);
    AddByte1(b, c);
    AddByte0(a, b, c);
  }

  lemma WordZero()
    ensures Word(0, 0, 0, 0) == 0
  {
  }

  lemma AddByte1(b: Byte, c: Byte)
    ensures XorByte1(Word(0, 0, c, 0), b) == Word(0, b, c, 0)
  {
    hide XorByte1;
    RawByte1(b, c);
  }

  lemma AddByte0(a: Byte, b: Byte, c: Byte)
    ensures XorByte0(Word(0, b, c, 0), a) == Word(a, b, c, 0)
  {
    hide XorByte0;
    RawByte0(a, b, c);
  }

  lemma RawByte2(c: Byte)
    ensures XorByte2(0, c) == Word(0, 0, c, 0)
  {
  }

  lemma RawByte1(b: Byte, c: Byte)
    ensures XorByte1((0 as Byte as bv32) | ((0 as Byte as bv32) << 8) | ((c as bv32) << 16) | ((0 as Byte as bv32) << 24), b)
            == Word(0, b, c, 0)
  {
  }

  lemma RawByte0(a: Byte, b: Byte, c: Byte)
    ensures XorByte0((0 as Byte as bv32) | ((b as bv32) << 8) | ((c as bv32) << 16) | ((0 as Byte as bv32) << 24), a)
            == Word(a, b, c, 0)
  {
  }

  method FinalMix(h0: bv32) returns (h: bv32)
    ensures h == Fmix(h0)
  {
    hide XorShift13, XorShift16, TimesF1, TimesF2;
    h := XorShift16(h0);
    h := TimesF1(h);
    h := XorShift13(h);
    h := TimesF2(h);
    h := XorShift16(h);
  }

  // ---------- every step is injective ----------

  lemma MixInjective(x: bv32, y: bv32)
    requires Mix(x) == Mix(y)
    ensures x == y
  {
    hide TimesC1, TimesC2, Rotl15, UnTimesC1, UnTimesC2, UnRotl15;
    Inverses(x);
    Inverses(y);
    Inverses(TimesC1(x));
    Inverses(TimesC1(y));
    Inverses(Rotl15(TimesC1(x)));
    Inverses(Rotl15(TimesC1(y)));
  }

  lemma FmixInjective(x: bv32, y: bv32)
    requires Fmix(x) == Fmix(y)
    ensures x == y
  {
    hide XorShift16, XorShift13, TimesF1, TimesF2, UnXorShift16, UnXorShift13, UnTimesF1, UnTimesF2;
    FmixChain(x);
    FmixChain(y);
  }

  lemma FmixChain(x: bv32)
    ensures UnXorShift16(UnTimesF1(UnXorShift13(UnTimesF2(UnXorShift16(Fmix(x)))))) == x
  {
    hide XorShift16, XorShift13, TimesF1, TimesF2, UnXorShift16, UnXorShift13, UnTimesF1, UnTimesF2;
    var a := TimesF1(XorShift16(x));
    Inverses(x);
    Inverses(XorShift16(x));
    Inverses(a);
    Inverses(XorShift13(a));
    Inverses(TimesF2(XorShift13(a)));
  }

  /** For a fixed block a round is injective in the state, for a fixed state in the block. */
  lemma RoundInjective(h: bv32, g: bv32, k: bv32, m: bv32)
    requires Round(h, k) == Round(g, m) && (h == g || k == m)
    ensures h == g && k == m
  {
    hide Xor, Mix, Rotl13, Times5Plus, UnRotl13, UnTimes5Plus;
    var x, y := Xor(h, Mix(k)), Xor(g, Mix(m));
    Inverses(Rotl13(x));
    Inverses(Rotl13(y));
    Inverses(x);
    Inverses(y);
    assert x == y;
    XorCancels(h, g, Mix(k));
    XorCancels(Mix(k), Mix(m), h);
    if Mix(k) == Mix(m) {
      MixInjective(k, m);
    }
  }

  // ---------- keys ----------

  function Byte0(w: bv32): Byte { (w & 0xff) as bv8 }
  function Byte1(w: bv32): Byte { ((w >> 8) & 0xff) as bv8 }
  function Byte2(w: bv32): Byte { ((w >> 16) & 0xff) as bv8 }
  function Byte3(w: bv32): Byte { ((w >> 24) & 0xff) as bv8 }

  lemma RawBytes(a: Byte, b: Byte, c: Byte, d: Byte)
    ensures var w := (a as bv32) | ((b as bv32) << 8) | ((c as bv32) << 16) | ((d as bv32) << 24);
            Byte0(w) == a && Byte1(w) == b && Byte2(w) == c && Byte3(w) == d
  {
  }

  lemma WordBytes(a: Byte, b: Byte, c: Byte, d: Byte)
    ensures var w := Word(a, b, c, d);
            Byte0(w) == a && Byte1(w) == b && Byte2(w) == c && Byte3(w) == d
  {
    hide Byte0, Byte1, Byte2, Byte3;
    RawBytes(a, b, c, d);
  }

  /** The keys agree outside the bytes lo..hi. */
  predicate SameOutside(a: seq<Byte>, b: seq<Byte>, lo: nat, hi: nat) {
    |a| == |b| && forall i :: 0 <= i < |a| && !(lo <= i < hi) ==> a[i] == b[i]
  }

  lemma SameBlock(a: seq<Byte>, b: seq<Byte>, j: nat)
    requires |a| == |b| && 4 * j + 4 <= |a|
    ensures GetBlock(a, j) == GetBlock(b, j) <==> forall i :: 4 * j <= i < 4 * j + 4 ==> a[i] == b[i]
  {
    hide Word;
    WordBytes(a[4 * j], a[4 * j + 1], a[4 * j + 2], a[4 * j + 3]);
    WordBytes(b[4 * j], b[4 * j + 1], b[4 * j + 2], b[4 * j + 3]);
    hide Byte0, Byte1, Byte2, Byte3;
  }

  lemma {:induction false} BodySame(a: seq<Byte>, b: seq<Byte>, n: nat)
    requires |a| == |b| && 4 * n <= |a| && forall i :: 0 <= i < 4 * n ==> a[i] == b[i]
    ensures Body(a, n) == Body(b, n)
  {
    hide Round, Word;
    if n > 0 {
      BodySame(a, b, n - 1);
    }
  }

  /** Keys differing within block j only: their states agree from there on iff the keys do. */
  lemma {:induction false} BodyTracksBlock(a: seq<Byte>, b: seq<Byte>, j: nat, n: nat)
    requires SameOutside(a, b, 4 * j, 4 * j + 4) && j < n && 4 * n <= |a|
    ensures Body(a, n) == Body(b, n) <==> a == b
    decreases n
  {
    hide Round, Word;
    if n == j + 1 {
      BodySame(a, b, j);
      SameBlock(a, b, j);
    } else {
      BodyTracksBlock(a, b, j, n - 1);
      SameBlock(a, b, n - 1);
    }
    if Body(a, n) == Body(b, n) {
      RoundInjective(Body(a, n - 1), Body(b, n - 1), GetBlock(a, n - 1), GetBlock(b, n - 1));
    }
  }

  lemma HashTracks(a: seq<Byte>, b: seq<Byte>)
    requires |a| == |b|
    ensures Hash(a) == Hash(b)
            <==> WithTail(Body(a, |a| / 4), Tail(a)) == WithTail(Body(b, |b| / 4), Tail(b))
  {
    hide Xor, LowWord, Fmix, WithTail, Body;
    var x, y, z := WithTail(Body(a, |a| / 4), Tail(a)), WithTail(Body(b, |b| / 4), Tail(b)), LowWord(|a|);
    XorCancels(x, y, z);
    if Hash(a) == Hash(b) {
      FmixInjective(Xor(x, z), Xor(y, z));
    }
  }

  /** Keys of equal length that differ in a single 4-byte block never collide. */
  lemma BlockInjective(a: seq<Byte>, b: seq<Byte>, j: nat)
    requires SameOutside(a, b, 4 * j, 4 * j + 4) && 4 * j + 4 <= |a|
    ensures Hash(a) == Hash(b) <==> a == b
  {
    HashTracks(a, b);
    BodyTracksBlock(a, b, j, |a| / 4);
    assert Tail(a) == Tail(b);
    hide Hash, Body, Tail, Mix, Xor, TailWord;
    if Tail(a) != [] {
      XorCancels(Body(a, |a| / 4), Body(b, |b| / 4), Mix(TailWord(Tail(a))));
    }
  }

  lemma TailWordInjective(s: seq<Byte>, t: seq<Byte>)
    requires |s| == |t| < 4 && TailWord(s) == TailWord(t)
    ensures s == t
  {
    hide Word, Byte0, Byte1, Byte2, Byte3;
    WordBytes(if |s| > 0 then s[0] else 0, if |s| > 1 then s[1] else 0, if |s| > 2 then s[2] else 0, 0);
    WordBytes(if |t| > 0 then t[0] else 0, if |t| > 1 then t[1] else 0, if |t| > 2 then t[2] else 0, 0);
  }

  /** Keys of equal length that differ only behind the last whole block never collide. */
  lemma TailInjective(a: seq<Byte>, b: seq<Byte>)
    requires SameOutside(a, b, |a| / 4 * 4, |a|)
    ensures Hash(a) == Hash(b) <==> a == b
  {
    HashTracks(a, b);
    BodySame(a, b, |a| / 4);
    assert Tail(a) == Tail(b) <==> a == b by {
      assert a == a[..|a| / 4 * 4] + Tail(a) && b == b[..|a| / 4 * 4] + Tail(b);
    }
    hide Hash, Body, Tail, Mix, Xor, TailWord;
    if WithTail(Body(a, |a| / 4), Tail(a)) == WithTail(Body(b, |b| / 4), Tail(b)) && Tail(a) != [] {
      XorCancels(Mix(TailWord(Tail(a))), Mix(TailWord(Tail(b))), Body(a, |a| / 4));
      MixInjective(TailWord(Tail(a)), TailWord(Tail(b)));
      TailWordInjective(Tail(a), Tail(b));
    }
  }

  /** The bytes of a pointer, low half first. */
  function PointerBytes(lo: bv32, hi: bv32): (key: seq<Byte>)
    ensures |key| == 8
  {
    [Byte0(lo), Byte1(lo), Byte2(lo), Byte3(lo), Byte0(hi), Byte1(hi), Byte2(hi), Byte3(hi)]
  }

  /** Two addresses that share either half have the same key only if they are the same. */
  lemma AddressesSharingAHalf(lo1: bv32, hi1: bv32, lo2: bv32, hi2: bv32)
    requires lo1 == lo2 || hi1 == hi2
    ensures Hash(PointerBytes(lo1, hi1)) == Hash(PointerBytes(lo2, hi2)) <==> lo1 == lo2 && hi1 == hi2
  {
    hide Hash, Byte0, Byte1, Byte2, Byte3;
    var a, b := PointerBytes(lo1, hi1), PointerBytes(lo2, hi2);
    WordOfBytes(lo1);
    WordOfBytes(lo2);
    WordOfBytes(hi1);
    WordOfBytes(hi2);
    hide Word;
    BlockInjective(a, b, if lo1 == lo2 then 1 else 0);
    assert a == b ==> a[0] == b[0] && a[1] == b[1] && a[2] == b[2] && a[3] == b[3]
                      && a[4] == b[4] && a[5] == b[5] && a[6] == b[6] && a[7] == b[7];
  }

  lemma WordOfBytes(w: bv32)
    ensures Word(Byte0(w), Byte1(w), Byte2(w), Byte3(w)) == w
  {
    RawWord(w);
    hide Word;
  }

  lemma RawWord(w: bv32)
    ensures Word((w & 0xff) as bv8, ((w >> 8) & 0xff) as bv8, ((w >> 16) & 0xff) as bv8, ((w >> 24) & 0xff) as bv8) == w
  {
  }

  /** The hash of an 8-byte key in terms of its two blocks. */
  lemma HashOfPointer(lo: bv32, hi: bv32)
    ensures Hash(PointerBytes(lo, hi)) == Fmix(Xor(Round(Round(0, lo), hi), LowWord(8)))
  {
    hide Round, Fmix, Xor, LowWord, Byte0, Byte1, Byte2, Byte3;
    WordOfBytes(lo);
    WordOfBytes(hi);
    hide Word;
    var b := PointerBytes(lo, hi);
    assert GetBlock(b, 0) == lo && GetBlock(b, 1) == hi;
    assert Body(b, 1) == Round(Body(b, 0), lo);
    assert Body(b, 2) == Round(Body(b, 1), hi);
    assert Tail(b) == [];
  }

  /** A key that is all tail, the bytes of "abc": the value published for a zero seed. */
  lemma ThreeByteKey()
    ensures Hash([0x61, 0x62, 0x63]) == 0xb3dd93fa
  {
    var key: seq<Byte> := [0x61, 0x62, 0x63];
    ThreeByteTail();
    ThreeByteFinish();
    hide Fmix, Mix, Xor, Word, LowWord;
    assert Tail(key) == key;
    assert Body(key, 0) == 0;
  }

  lemma ThreeByteTail()
    ensures Word(0x61, 0x62, 0x63, 0) == 0x636261
    ensures Xor(0, Mix(0x636261)) == 0xa7349db7
  {
    assert TimesC1(0x636261) == 0x9b9b2db1;
    assert Rotl15(0x9b9b2db1) == 0x96d8cdcd;
    assert TimesC2(0x96d8cdcd) == 0xa7349db7;
  }

  lemma ThreeByteFinish()
    ensures Fmix(Xor(0xa7349db7, LowWord(3))) == 0xb3dd93fa
  {
    assert Xor(0xa7349db7, LowWord(3)) == 0xa7349db4;
    assert XorShift16(0xa7349db4) == 0xa7343a80;
    assert TimesF1(0xa7343a80) == 0x4c7d7380;
    assert XorShift13(0x4c7d7380) == 0x4c7f106b;
    assert TimesF2(0x4c7f106b) == 0xb3dd2027;
  }
}
