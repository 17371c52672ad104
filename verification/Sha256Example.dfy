/** The example of FIPS 180-4 for the three-byte message "abc", word by word and round by
    round.  It pins how the functions, the schedule, the rounds and the final sums are put
    together. */
module Sha256Example {
  import opened Sha256
  import opened Hexadecimal

  const ABC: seq<Byte> := [0x61, 0x62, 0x63]

  // The schedule, the working variables before each round and after the last, and the
  // words of the digest

  const W0: seq<Word> := [
    0x61626380, 0x00000000, 0x00000000, 0x00000000,
    0x00000000, 0x00000000, 0x00000000, 0x00000000]

  const W1: seq<Word> := [
    0x00000000, 0x00000000, 0x00000000, 0x00000000,
    0x00000000, 0x00000000, 0x00000000, 0x00000018]

  const W2: seq<Word> := [
    0x61626380, 0x000f0000, 0x7da86405, 0x600003c6,
    0x3e9d7b78, 0x0183fc00, 0x12dcbfdb, 0xe2e2c38e]

  const W3: seq<Word> := [
    0xc8215c1a, 0xb73679a2, 0xe5bc3909, 0x32663c5b,
    0x9d209d67, 0xec8726cb, 0x702138a4, 0xd3b7973b]

  const W4: seq<Word> := [
    0x93f5997f, 0x3b68ba73, 0xaff4ffc1, 0xf10a5c62,
    0x0a8b3996, 0x72af830a, 0x9409e33e, 0x24641522]

  const W5: seq<Word> := [
    0x9f47bf94, 0xf0a64f5a, 0x3e246a79, 0x27333ba3,
    0x0c4763f2, 0x840abf27, 0x7a290d5d, 0x065c43da]

  const W6: seq<Word> := [
    0xfb3e89cb, 0xcc7617db, 0xb9e66c34, 0xa9993667,
    0x84badedd, 0xc21462bc, 0x1487472c, 0xb20f7a99]

  const W7: seq<Word> := [
    0xef57b9cd, 0xebe6b238, 0x9fe3095e, 0x78bc8d4b,
    0xa43fcf15, 0x668b2ff8, 0xeeaba2cc, 0x12b1edeb]

  const S0: seq<Working> := [
    Working(0x6a09e667, 0xbb67ae85, 0x3c6ef372, 0xa54ff53a, 0x510e527f, 0x9b05688c, 0x1f83d9ab, 0x5be0cd19),
    Working(0x5d6aebcd, 0x6a09e667, 0xbb67ae85, 0x3c6ef372, 0xfa2a4622, 0x510e527f, 0x9b05688c, 0x1f83d9ab),
    Working(0x5a6ad9ad, 0x5d6aebcd, 0x6a09e667, 0xbb67ae85, 0x78ce7989, 0xfa2a4622, 0x510e527f, 0x9b05688c),
    Working(0xc8c347a7, 0x5a6ad9ad, 0x5d6aebcd, 0x6a09e667, 0xf92939eb, 0x78ce7989, 0xfa2a4622, 0x510e527f),
    Working(0xd550f666, 0xc8c347a7, 0x5a6ad9ad, 0x5d6aebcd, 0x24e00850, 0xf92939eb, 0x78ce7989, 0xfa2a4622),
    Working(0x04409a6a, 0xd550f666, 0xc8c347a7, 0x5a6ad9ad, 0x43ada245, 0x24e00850, 0xf92939eb, 0x78ce7989),
    Working(0x2b4209f5, 0x04409a6a, 0xd550f666, 0xc8c347a7, 0x714260ad, 0x43ada245, 0x24e00850, 0xf92939eb),
    Working(0xe5030380, 0x2b4209f5, 0x04409a6a, 0xd550f666, 0x9b27a401, 0x714260ad, 0x43ada245, 0x24e00850)]

  const S1: seq<Working> := [
    Working(0x85a07b5f, 0xe5030380, 0x2b4209f5, 0x04409a6a, 0x0c657a79, 0x9b27a401, 0x714260ad, 0x43ada245),
    Working(0x8e04ecb9, 0x85a07b5f, 0xe5030380, 0x2b4209f5, 0x32ca2d8c, 0x0c657a79, 0x9b27a401, 0x714260ad),
    Working(0x8c87346b, 0x8e04ecb9, 0x85a07b5f, 0xe5030380, 0x1cc92596, 0x32ca2d8c, 0x0c657a79, 0x9b27a401),
    Working(0x4798a3f4, 0x8c87346b, 0x8e04ecb9, 0x85a07b5f, 0x436b23e8, 0x1cc92596, 0x32ca2d8c, 0x0c657a79),
    Working(0xf71fc5a9, 0x4798a3f4, 0x8c87346b, 0x8e04ecb9, 0x816fd6e9, 0x436b23e8, 0x1cc92596, 0x32ca2d8c),
    Working(0x87912990, 0xf71fc5a9, 0x4798a3f4, 0x8c87346b, 0x1e578218, 0x816fd6e9, 0x436b23e8, 0x1cc92596),
    Working(0xd932eb16, 0x87912990, 0xf71fc5a9, 0x4798a3f4, 0x745a48de, 0x1e578218, 0x816fd6e9, 0x436b23e8),
    Working(0xc0645fde, 0xd932eb16, 0x87912990, 0xf71fc5a9, 0x0b92f20c, 0x745a48de, 0x1e578218, 0x816fd6e9)]

  const S2: seq<Working> := [
    Working(0xb0fa238e, 0xc0645fde, 0xd932eb16, 0x87912990, 0x07590dcd, 0x0b92f20c, 0x745a48de, 0x1e578218),
    Working(0x21da9a9b, 0xb0fa238e, 0xc0645fde, 0xd932eb16, 0x8034229c, 0x07590dcd, 0x0b92f20c, 0x745a48de),
    Working(0xc2fbd9d1, 0x21da9a9b, 0xb0fa238e, 0xc0645fde, 0x846ee454, 0x8034229c, 0x07590dcd, 0x0b92f20c),
    Working(0xfe777bbf, 0xc2fbd9d1, 0x21da9a9b, 0xb0fa238e, 0xcc899961, 0x846ee454, 0x8034229c, 0x07590dcd),
    Working(0xe1f20c33, 0xfe777bbf, 0xc2fbd9d1, 0x21da9a9b, 0xb0638179, 0xcc899961, 0x846ee454, 0x8034229c),
    Working(0x9dc68b63, 0xe1f20c33, 0xfe777bbf, 0xc2fbd9d1, 0x8ada8930, 0xb0638179, 0xcc899961, 0x846ee454),
    Working(0xc2606d6d, 0x9dc68b63, 0xe1f20c33, 0xfe777bbf, 0xe1257970, 0x8ada8930, 0xb0638179, 0xcc899961),
    Working(0xa7a3623f, 0xc2606d6d, 0x9dc68b63, 0xe1f20c33, 0x49f5114a, 0xe1257970, 0x8ada8930, 0xb0638179)]

  const S3: seq<Working> := [
    Working(0xc5d53d8d, 0xa7a3623f, 0xc2606d6d, 0x9dc68b63, 0xaa47c347, 0x49f5114a, 0xe1257970, 0x8ada8930),
    Working(0x1c2c2838, 0xc5d53d8d, 0xa7a3623f, 0xc2606d6d, 0x2823ef91, 0xaa47c347, 0x49f5114a, 0xe1257970),
    Working(0xcde8037d, 0x1c2c2838, 0xc5d53d8d, 0xa7a3623f, 0x14383d8e, 0x2823ef91, 0xaa47c347, 0x49f5114a),
    Working(0xb62ec4bc, 0xcde8037d, 0x1c2c2838, 0xc5d53d8d, 0xc74c6516, 0x14383d8e, 0x2823ef91, 0xaa47c347),
    Working(0x77d37528, 0xb62ec4bc, 0xcde8037d, 0x1c2c2838, 0xedffbff8, 0xc74c6516, 0x14383d8e, 0x2823ef91),
    Working(0x363482c9, 0x77d37528, 0xb62ec4bc, 0xcde8037d, 0x6112a3b7, 0xedffbff8, 0xc74c6516, 0x14383d8e),
    Working(0xa0060b30, 0x363482c9, 0x77d37528, 0xb62ec4bc, 0xade79437, 0x6112a3b7, 0xedffbff8, 0xc74c6516),
    Working(0xea992a22, 0xa0060b30, 0x363482c9, 0x77d37528, 0x0109ab3a, 0xade79437, 0x6112a3b7, 0xedffbff8)]

  const S4: seq<Working> := [
    Working(0x73b33bf5, 0xea992a22, 0xa0060b30, 0x363482c9, 0xba591112, 0x0109ab3a, 0xade79437, 0x6112a3b7),
    Working(0x98e12507, 0x73b33bf5, 0xea992a22, 0xa0060b30, 0x9cd9f5f6, 0xba591112, 0x0109ab3a, 0xade79437),
    Working(0xfe604df5, 0x98e12507, 0x73b33bf5, 0xea992a22, 0x59249dd3, 0x9cd9f5f6, 0xba591112, 0x0109ab3a),
    Working(0xa9a7738c, 0xfe604df5, 0x98e12507, 0x73b33bf5, 0x085f3833, 0x59249dd3, 0x9cd9f5f6, 0xba591112),
    Working(0x65a0cfe4, 0xa9a7738c, 0xfe604df5, 0x98e12507, 0xf4b002d6, 0x085f3833, 0x59249dd3, 0x9cd9f5f6),
    Working(0x41a65cb1, 0x65a0cfe4, 0xa9a7738c, 0xfe604df5, 0x0772a26b, 0xf4b002d6, 0x085f3833, 0x59249dd3),
    Working(0x34df1604, 0x41a65cb1, 0x65a0cfe4, 0xa9a7738c, 0xa507a53d, 0x0772a26b, 0xf4b002d6, 0x085f3833),
    Working(0x6dc57a8a, 0x34df1604, 0x41a65cb1, 0x65a0cfe4, 0xf0781bc8, 0xa507a53d, 0x0772a26b, 0xf4b002d6)]

  const S5: seq<Working> := [
    Working(0x79ea687a, 0x6dc57a8a, 0x34df1604, 0x41a65cb1, 0x1efbc0a0, 0xf0781bc8, 0xa507a53d, 0x0772a26b),
    Working(0xd6670766, 0x79ea687a, 0x6dc57a8a, 0x34df1604, 0x26352d63, 0x1efbc0a0, 0xf0781bc8, 0xa507a53d),
    Working(0xdf46652f, 0xd6670766, 0x79ea687a, 0x6dc57a8a, 0x838b2711, 0x26352d63, 0x1efbc0a0, 0xf0781bc8),
    Working(0x17aa0dfe, 0xdf46652f, 0xd6670766, 0x79ea687a, 0xdecd4715, 0x838b2711, 0x26352d63, 0x1efbc0a0),
    Working(0x9d4baf93, 0x17aa0dfe, 0xdf46652f, 0xd6670766, 0xfda24c2e, 0xdecd4715, 0x838b2711, 0x26352d63),
    Working(0x26628815, 0x9d4baf93, 0x17aa0dfe, 0xdf46652f, 0xa80f11f0, 0xfda24c2e, 0xdecd4715, 0x838b2711),
    Working(0x72ab4b91, 0x26628815, 0x9d4baf93, 0x17aa0dfe, 0xb7755da1, 0xa80f11f0, 0xfda24c2e, 0xdecd4715),
    Working(0xa14c14b0, 0x72ab4b91, 0x26628815, 0x9d4baf93, 0xd57b94a9, 0xb7755da1, 0xa80f11f0, 0xfda24c2e)]

  const S6: seq<Working> := [
    Working(0x4172328d, 0xa14c14b0, 0x72ab4b91, 0x26628815, 0xfecf0bc6, 0xd57b94a9, 0xb7755da1, 0xa80f11f0),
    Working(0x05757ceb, 0x4172328d, 0xa14c14b0, 0x72ab4b91, 0xbd714038, 0xfecf0bc6, 0xd57b94a9, 0xb7755da1),
    Working(0xf11bfaa8, 0x05757ceb, 0x4172328d, 0xa14c14b0, 0x6e5c390c, 0xbd714038, 0xfecf0bc6, 0xd57b94a9),
    Working(0x7a0508a1, 0xf11bfaa8, 0x05757ceb, 0x4172328d, 0x52f1ccf7, 0x6e5c390c, 0xbd714038, 0xfecf0bc6),
    Working(0x886e7a22, 0x7a0508a1, 0xf11bfaa8, 0x05757ceb, 0x49231c1e, 0x52f1ccf7, 0x6e5c390c, 0xbd714038),
    Working(0x101fd28f, 0x886e7a22, 0x7a0508a1, 0xf11bfaa8, 0x529e7d00, 0x49231c1e, 0x52f1ccf7, 0x6e5c390c),
    Working(0xf5702fdb, 0x101fd28f, 0x886e7a22, 0x7a0508a1, 0x9f4787c3, 0x529e7d00, 0x49231c1e, 0x52f1ccf7),
    Working(0x3ec45cdb, 0xf5702fdb, 0x101fd28f, 0x886e7a22, 0xe50e1b4f, 0x9f4787c3, 0x529e7d00, 0x49231c1e)]

  const S7: seq<Working> := [
    Working(0x38cc9913, 0x3ec45cdb, 0xf5702fdb, 0x101fd28f, 0x54cb266b, 0xe50e1b4f, 0x9f4787c3, 0x529e7d00),
    Working(0xfcd1887b, 0x38cc9913, 0x3ec45cdb, 0xf5702fdb, 0x9b5e906c, 0x54cb266b, 0xe50e1b4f, 0x9f4787c3),
    Working(0xc062d46f, 0xfcd1887b, 0x38cc9913, 0x3ec45cdb, 0x7e44008e, 0x9b5e906c, 0x54cb266b, 0xe50e1b4f),
    Working(0xffb70472, 0xc062d46f, 0xfcd1887b, 0x38cc9913, 0x6d83bfc6, 0x7e44008e, 0x9b5e906c, 0x54cb266b),
    Working(0xb6ae8fff, 0xffb70472, 0xc062d46f, 0xfcd1887b, 0xb21bad3d, 0x6d83bfc6, 0x7e44008e, 0x9b5e906c),
    Working(0xb85e2ce9, 0xb6ae8fff, 0xffb70472, 0xc062d46f, 0x961f4894, 0xb21bad3d, 0x6d83bfc6, 0x7e44008e),
    Working(0x04d24d6c, 0xb85e2ce9, 0xb6ae8fff, 0xffb70472, 0x948d25b6, 0x961f4894, 0xb21bad3d, 0x6d83bfc6),
    Working(0xd39a2165, 0x04d24d6c, 0xb85e2ce9, 0xb6ae8fff, 0xfb121210, 0x948d25b6, 0x961f4894, 0xb21bad3d)]

  const LAST: Working :=
    Working(0x506e3058, 0xd39a2165, 0x04d24d6c, 0xb85e2ce9, 0x5ef50f24, 0xfb121210, 0x948d25b6, 0x961f4894)

  const ABC_WORDS: seq<Word> := [
    0xba7816bf, 0x8f01cfea, 0x414140de, 0x5dae2223,
    0xb00361a3, 0x96177a9c, 0xb410ff61, 0xf20015ad]

  function WRow(r: nat): (row: seq<Word>)
    ensures |row| == 8
  {
    if r == 0 then W0 else if r == 1 then W1 else if r == 2 then W2 else if r == 3 then W3
    else if r == 4 then W4 else if r == 5 then W5 else if r == 6 then W6 else W7
  }

  function WAt(t: nat): Word
    requires t < 64
  {
    WRow(t / 8)[t % 8]
  }

  function SRow(r: nat): (row: seq<Working>)
    ensures |row| == 8
  {
    if r == 0 then S0 else if r == 1 then S1 else if r == 2 then S2 else if r == 3 then S3
    else if r == 4 then S4 else if r == 5 then S5 else if r == 6 then S6 else S7
  }

  function StateAt(t: nat): Working
    requires t <= 64
  {
    if t == 64 then LAST else SRow(t / 8)[t % 8]
  }

  // The functions with rotations written as shifts

  function Three(a: Word, b: Word, c: Word): Word {
    a ^ b ^ c
  }

  function Shifted1(e: Word): Word {
    Three((e >> 6) | (e << 26), (e >> 11) | (e << 21), (e >> 25) | (e << 7))
  }

  function Shifted0(a: Word): Word {
    Three((a >> 2) | (a << 30), (a >> 13) | (a << 19), (a >> 22) | (a << 10))
  }

  lemma RotatedBy6(e: Word)
    ensures Rotr(e, 6) == (e >> 6) | (e << 26)
    ensures Rotr(e, 11) == (e >> 11) | (e << 21) && Rotr(e, 25) == (e >> 25) | (e << 7)
  {
  }

  lemma RotatedBy2(a: Word)
    ensures Rotr(a, 2) == (a >> 2) | (a << 30)
    ensures Rotr(a, 13) == (a >> 13) | (a << 19) && Rotr(a, 22) == (a >> 22) | (a << 10)
  {
  }

  lemma SigmasAreThree(a: Word, e: Word)
    ensures BigSigma1(e) == Three(Rotr(e, 6), Rotr(e, 11), Rotr(e, 25))
    ensures BigSigma0(a) == Three(Rotr(a, 2), Rotr(a, 13), Rotr(a, 22))
  {
    hide Rotr;
  }

  lemma SigmasAreShifted(a: Word, e: Word)
    ensures BigSigma1(e) == Shifted1(e) && BigSigma0(a) == Shifted0(a)
  {
    hide Three, Rotr, BigSigma0, BigSigma1;
    RotatedBy6(e);
    RotatedBy2(a);
    SigmasAreThree(a, e);
  }

  function ShiftedSmall1(w: Word): Word {
    Three((w >> 17) | (w << 15), (w >> 19) | (w << 13), w >> 10)
  }

  function ShiftedSmall0(w: Word): Word {
    Three((w >> 7) | (w << 25), (w >> 18) | (w << 14), w >> 3)
  }

  lemma RotatedBy17(w: Word)
    ensures Rotr(w, 17) == (w >> 17) | (w << 15) && Rotr(w, 19) == (w >> 19) | (w << 13)
    ensures Rotr(w, 7) == (w >> 7) | (w << 25) && Rotr(w, 18) == (w >> 18) | (w << 14)
  {
  }

  lemma SmallSigmasAreThree(w: Word)
    ensures SmallSigma1(w) == Three(Rotr(w, 17), Rotr(w, 19), w >> 10)
    ensures SmallSigma0(w) == Three(Rotr(w, 7), Rotr(w, 18), w >> 3)
  {
    hide Rotr;
  }

  lemma SmallSigmasAreShifted(w: Word)
    ensures SmallSigma1(w) == ShiftedSmall1(w) && SmallSigma0(w) == ShiftedSmall0(w)
  {
    hide Three, Rotr, SmallSigma0, SmallSigma1;
    RotatedBy17(w);
    SmallSigmasAreThree(w);
  }

  // The schedule

  /** The only block: the message, the bit, zeros and the length of 24 bits. */
  lemma BlockAt(k: nat)
    requires k < 64
    ensures |Padded(ABC)| == 64
    ensures Padded(ABC)[k] == if k == 0 then 0x61 else if k == 1 then 0x62 else if k == 2 then 0x63
                              else if k == 3 then 0x80 else if k == 63 then 0x18 else 0
  {
    assert ZeroCount(3) == 52;
    LengthField();
    hide BigEndian;
  }

  lemma LengthField()
    ensures BigEndian(24, 8) == [0, 0, 0, 0, 0, 0, 0, 0x18]
  {
    assert BigEndian(0, 1) == [0] && BigEndian(0, 2) == [0, 0] && BigEndian(0, 3) == [0, 0, 0];
    assert BigEndian(0, 4) == [0, 0, 0, 0] && BigEndian(0, 5) == [0, 0, 0, 0, 0];
    assert BigEndian(0, 6) == [0, 0, 0, 0, 0, 0] && BigEndian(0, 7) == [0, 0, 0, 0, 0, 0, 0];
  }

  lemma FirstWords(t: nat)
    requires t < 16
    ensures IsBlock(Padded(ABC)) && WordAt(Padded(ABC), t) == WAt(t)
  {
    BlockAt(t * 4);
    BlockAt(t * 4 + 1);
    BlockAt(t * 4 + 2);
    BlockAt(t * 4 + 3);
    hide Padded;
    assert WordOf(0x61, 0x62, 0x63, 0x80) == 0x61626380 && WordOf(0, 0, 0, 0) == 0 && WordOf(0, 0, 0, 0x18) == 0x18;
    hide WordOf;
    assert W0[0] == 0x61626380 && W1[7] == 0x18;
  }

  /** Where a single bit goes. */
  lemma SigmasOfOne()
    ensures BigSigma0(1) == 0x40080400 && BigSigma1(1) == 0x04200080
    ensures SmallSigma0(1) == 0x02004000 && SmallSigma1(1) == 0x0000a000
  {
    SigmasAreShifted(1, 1);
    SmallSigmasAreShifted(1);
    hide BigSigma0, BigSigma1, SmallSigma0, SmallSigma1;
  }

  predicate Comes(w: Word, w2: Word, w7: Word, w15: Word, w16: Word) {
    w == SumOfFour(ShiftedSmall1(w2), w7, ShiftedSmall0(w15), w16)
  }

  lemma ComesIsNext(w: Word, w2: Word, w7: Word, w15: Word, w16: Word)
    requires Comes(w, w2, w7, w15, w16)
    ensures w == NextWord(w2, w7, w15, w16)
  {
    hide SumOfFour, ShiftedSmall1, ShiftedSmall0, SmallSigma1, SmallSigma0;
    SmallSigmasAreShifted(w2);
    SmallSigmasAreShifted(w15);
  }

  /** The words of a row, from `j` on, come from the two rows before. */
  predicate RowOfWords(first: seq<Word>, second: seq<Word>, row: seq<Word>, j: nat)
    requires |first| == |second| == |row| == 8
    decreases 8 - j
  {
    j >= 8
    || (Comes(row[j], if j >= 2 then row[j - 2] else second[j + 6], if j == 7 then row[0] else second[j + 1],
              if j == 7 then second[0] else first[j + 1], first[j])
        && RowOfWords(first, second, row, j + 1))
  }

  lemma Words2()
    ensures RowOfWords(W0, W1, W2, 0)
  {
  }

  lemma Words3()
    ensures RowOfWords(W1, W2, W3, 0)
  {
  }

  lemma Words4()
    ensures RowOfWords(W2, W3, W4, 0)
  {
  }

  lemma Words5()
    ensures RowOfWords(W3, W4, W5, 0)
  {
  }

  lemma Words6()
    ensures RowOfWords(W4, W5, W6, 0)
  {
  }

  lemma Words7()
    ensures RowOfWords(W5, W6, W7, 0)
  {
  }

  lemma RowsOfWords(r: nat)
    requires 2 <= r < 8
    ensures RowOfWords(WRow(r - 2), WRow(r - 1), WRow(r), 0)
  {
    hide RowOfWords;
    if r == 2 { Words2(); } else if r == 3 { Words3(); } else if r == 4 { Words4(); }
    else if r == 5 { Words5(); } else if r == 6 { Words6(); } else { Words7(); }
  }

  lemma {:induction false} RowOfWordsAt(first: seq<Word>, second: seq<Word>, row: seq<Word>, i: nat, j: nat)
    requires |first| == |second| == |row| == 8 && i <= j < 8 && RowOfWords(first, second, row, i)
    ensures Comes(row[j], if j >= 2 then row[j - 2] else second[j + 6], if j == 7 then row[0] else second[j + 1],
                  if j == 7 then second[0] else first[j + 1], first[j])
    decreases j - i
  {
    hide Comes;
    if i < j { RowOfWordsAt(first, second, row, i + 1, j); }
  }

  lemma WordComesFrom(t: nat)
    requires 16 <= t < 64
    ensures WAt(t) == NextWord(WAt(t - 2), WAt(t - 7), WAt(t - 15), WAt(t - 16))
  {
    hide NextWord, WRow, RowOfWords, Comes;
    var r, j := t / 8, t % 8;
    RowsOfWords(r);
    RowOfWordsAt(WRow(r - 2), WRow(r - 1), WRow(r), 0, j);
    assert (t - 2) / 8 == (if j >= 2 then r else r - 1) && (t - 2) % 8 == (if j >= 2 then j - 2 else j + 6);
    assert (t - 7) / 8 == (if j == 7 then r else r - 1) && (t - 7) % 8 == (if j == 7 then 0 else j + 1);
    assert (t - 15) / 8 == (if j == 7 then r - 1 else r - 2) && (t - 15) % 8 == (if j == 7 then 0 else j + 1);
    assert (t - 16) / 8 == r - 2 && (t - 16) % 8 == j;
    ComesIsNext(WAt(t), WAt(t - 2), WAt(t - 7), WAt(t - 15), WAt(t - 16));
  }

  lemma IsOneBlock()
    ensures IsBlock(Padded(ABC))
  {
    BlockAt(0);
    hide Padded;
  }

  lemma EarlyWord(block: seq<Byte>, t: nat)
    requires IsBlock(block) && t < 16
    ensures Schedule(block, t) == WordAt(block, t)
  {
    hide WordAt;
  }

  lemma LaterWord(block: seq<Byte>, t: nat)
    requires IsBlock(block) && 16 <= t < 64
    ensures Schedule(block, t)
         == NextWord(Schedule(block, t - 2), Schedule(block, t - 7), Schedule(block, t - 15), Schedule(block, t - 16))
  {
    hide NextWord;
  }

  lemma {:induction false} ScheduleIs(t: nat)
    requires t < 64
    ensures IsBlock(Padded(ABC)) && Schedule(Padded(ABC), t) == WAt(t)
  {
    IsOneBlock();
    hide Padded, NextWord, WAt, Schedule;
    if t < 16 {
      FirstWords(t);
      EarlyWord(Padded(ABC), t);
    } else {
      LaterWord(Padded(ABC), t);
      ScheduleIs(t - 2);
      ScheduleIs(t - 7);
      ScheduleIs(t - 15);
      ScheduleIs(t - 16);
      WordComesFrom(t);
    }
  }

  // The rounds

  predicate SumsTo(d: Word, h: Word, s1: Word, ch: Word, k: Word, w: Word, s0: Word, mj: Word, a: Word, e: Word) {
    a == Sum(Temporary(h, s1, ch, k, w), Sum(s0, mj)) && e == Sum(d, Temporary(h, s1, ch, k, w))
  }

  /** `n` is what a round makes of `v`. */
  predicate Leads(v: Working, k: Word, w: Word, n: Working) {
    && SumsTo(v.d, v.h, Shifted1(v.e), Choose(v.e, v.f, v.g), k, w, Shifted0(v.a), Majority(v.a, v.b, v.c), n.a, n.e)
    && n.b == v.a && n.c == v.b && n.d == v.c && n.f == v.e && n.g == v.f && n.h == v.g
  }

  lemma LeadsIsRound(v: Working, k: Word, w: Word, n: Working)
    requires Leads(v, k, w, n)
    ensures Round(v, k, w) == n
  {
    hide BigSigma0, BigSigma1, Sum, Temporary, SumsTo, Round, Shifted1, Shifted0, Choose, Majority;
    SigmasAreShifted(v.a, v.e);
    SumsAreRound(v, k, w, n);
  }

  lemma SumsAreRound(v: Working, k: Word, w: Word, n: Working)
    requires SumsTo(v.d, v.h, BigSigma1(v.e), Choose(v.e, v.f, v.g), k, w, BigSigma0(v.a), Majority(v.a, v.b, v.c),
                    n.a, n.e)
    requires n.b == v.a && n.c == v.b && n.d == v.c && n.f == v.e && n.g == v.f && n.h == v.g
    ensures Round(v, k, w) == n
  {
    hide BigSigma0, BigSigma1, Choose, Majority, Sum, Temporary;
  }

  /** Each state of a row, from `j` on, leads to the following one; the last leads to
      `next`. */
  predicate RowOfRounds(states: seq<Working>, next: Working, constants: seq<Word>, words: seq<Word>, j: nat)
    requires |states| == |constants| == |words| == 8
    decreases 8 - j
  {
    j >= 8
    || (Leads(states[j], constants[j], words[j], if j == 7 then next else states[j + 1])
        && RowOfRounds(states, next, constants, words, j + 1))
  }

  lemma Rounds0()
    ensures RowOfRounds(S0, S1[0], K0, W0, 0)
  {
  }

  lemma Rounds1()
    ensures RowOfRounds(S1, S2[0], K1, W1, 0)
  {
  }

  lemma Rounds2()
    ensures RowOfRounds(S2, S3[0], K2, W2, 0)
  {
  }

  lemma Rounds3()
    ensures RowOfRounds(S3, S4[0], K3, W3, 0)
  {
  }

  lemma Rounds4()
    ensures RowOfRounds(S4, S5[0], K4, W4, 0)
  {
  }

  lemma Rounds5()
    ensures RowOfRounds(S5, S6[0], K5, W5, 0)
  {
  }

  lemma Rounds6()
    ensures RowOfRounds(S6, S7[0], K6, W6, 0)
  {
  }

  lemma Rounds7()
    ensures RowOfRounds(S7, LAST, K7, W7, 0)
  {
  }

  lemma RowsOfRounds(r: nat)
    requires r < 8
    ensures RowOfRounds(SRow(r), StateAt(8 * r + 8), KRow(r), WRow(r), 0)
  {
    hide RowOfRounds;
    if r == 0 { Rounds0(); } else if r == 1 { Rounds1(); } else if r == 2 { Rounds2(); }
    else if r == 3 { Rounds3(); } else if r == 4 { Rounds4(); } else if r == 5 { Rounds5(); }
    else if r == 6 { Rounds6(); } else { Rounds7(); }
  }

  lemma {:induction false} RowOfRoundsAt(
    states: seq<Working>, next: Working, constants: seq<Word>, words: seq<Word>, i: nat, j: nat)
    requires |states| == |constants| == |words| == 8 && i <= j < 8
    requires RowOfRounds(states, next, constants, words, i)
    ensures Leads(states[j], constants[j], words[j], if j == 7 then next else states[j + 1])
    decreases j - i
  {
    hide Leads;
    if i < j { RowOfRoundsAt(states, next, constants, words, i + 1, j); }
  }

  lemma StateLeads(t: nat)
    requires t < 64
    ensures Round(StateAt(t), KAt(t), WAt(t)) == StateAt(t + 1)
  {
    hide Round, Leads, RowOfRounds, SRow, KRow, WRow;
    var r, j := t / 8, t % 8;
    RowsOfRounds(r);
    RowOfRoundsAt(SRow(r), StateAt(8 * r + 8), KRow(r), WRow(r), 0, j);
    assert j < 7 ==> (t + 1) / 8 == r && (t + 1) % 8 == j + 1;
    assert j == 7 ==> t + 1 == 8 * r + 8;
    LeadsIsRound(StateAt(t), KAt(t), WAt(t), StateAt(t + 1));
  }

  lemma StartIs()
    ensures StartOf(INITIAL) == StateAt(0)
  {
  }

  lemma NoRound(block: seq<Byte>)
    requires IsBlock(block)
    ensures Rounds(StartOf(INITIAL), block, 0) == StartOf(INITIAL)
  {
  }

  lemma OneRound(block: seq<Byte>, t: nat)
    requires IsBlock(block) && 1 <= t <= 64
    ensures Rounds(StartOf(INITIAL), block, t)
         == Round(Rounds(StartOf(INITIAL), block, t - 1), KAt(t - 1), Schedule(block, t - 1))
  {
    hide Round, KAt, Schedule, StartOf;
  }

  lemma {:induction false} RoundsAre(t: nat)
    requires t <= 64
    ensures IsBlock(Padded(ABC)) && Rounds(StartOf(INITIAL), Padded(ABC), t) == StateAt(t)
  {
    IsOneBlock();
    hide Padded, Round, Schedule, KAt, WAt, StateAt, StartOf, Rounds;
    if t == 0 {
      StartIs();
      NoRound(Padded(ABC));
    } else {
      OneRound(Padded(ABC), t);
      RoundsAre(t - 1);
      ScheduleIs(t - 1);
      StateLeads(t - 1);
    }
  }

  // The digest

  lemma FinalSums()
    ensures Added(INITIAL, LAST) == ABC_WORDS
  {
  }

  /** The digest of "abc". */
  lemma DigestOfAbc()
    ensures Digest(ABC) == AllBytes(ABC_WORDS)
  {
    BlockAt(0);
    RoundsAre(64);
    FinalSums();
    var block := Padded(ABC);
    hide Padded, Rounds, StartOf, Added, AllBytes;
    assert StateAt(64) == LAST;
    assert block[..0] == [] && block[0..] == block;
    assert HashBlocks(INITIAL, []) == INITIAL;
  }

  // The digest as text

  lemma {:induction false} HexAppend(a: seq<Byte>, b: seq<Byte>)
    ensures HexText(a + b) == HexText(a) + HexText(b)
  {
    hide HexChar;
    if b == [] {
      assert a + b == a;
    } else {
      var n := |b| - 1;
      HexAppend(a, b[..n]);
      assert (a + b)[..|a + b| - 1] == a + b[..n];
    }
  }

  /** Four bytes as text. */
  function HexOfFour(b: seq<Byte>): string
    requires |b| == 4
  {
    [HexChar(b[0] as int / 16), HexChar(b[0] as int % 16), HexChar(b[1] as int / 16), HexChar(b[1] as int % 16),
     HexChar(b[2] as int / 16), HexChar(b[2] as int % 16), HexChar(b[3] as int / 16), HexChar(b[3] as int % 16)]
  }

  lemma FourBytes(b: seq<Byte>)
    requires |b| == 4
    ensures HexText(b) == HexOfFour(b)
  {
    hide HexText, HexChar;
    LastByte(b[..1]);
    LastByte(b[..2]);
    LastByte(b[..3]);
    LastByte(b);
    assert b[..1][..0] == [] && b[..2][..1] == b[..1] && b[..3][..2] == b[..2];
    NoBytes();
  }

  lemma NoBytes()
    ensures HexText([]) == ""
  {
  }

  lemma LastByte(b: seq<Byte>)
    requires b != []
    ensures HexText(b)
         == HexText(b[..|b| - 1]) + [HexChar(b[|b| - 1] as int / 16), HexChar(b[|b| - 1] as int % 16)]
  {
  }

  lemma Text0()
    ensures HexText(WordBytes(ABC_WORDS[0])) == "ba7816bf"
  {
    assert WordBytes(ABC_WORDS[0]) == [0xba, 0x78, 0x16, 0xbf];
    FourBytes(WordBytes(ABC_WORDS[0]));
  }

  lemma Text1()
    ensures HexText(WordBytes(ABC_WORDS[1])) == "8f01cfea"
  {
    assert WordBytes(ABC_WORDS[1]) == [0x8f, 0x01, 0xcf, 0xea];
    FourBytes(WordBytes(ABC_WORDS[1]));
  }

  lemma Text2()
    ensures HexText(WordBytes(ABC_WORDS[2])) == "414140de"
  {
    assert WordBytes(ABC_WORDS[2]) == [0x41, 0x41, 0x40, 0xde];
    FourBytes(WordBytes(ABC_WORDS[2]));
  }

  lemma Text3()
    ensures HexText(WordBytes(ABC_WORDS[3])) == "5dae2223"
  {
    assert WordBytes(ABC_WORDS[3]) == [0x5d, 0xae, 0x22, 0x23];
    FourBytes(WordBytes(ABC_WORDS[3]));
  }

  lemma Text4()
    ensures HexText(WordBytes(ABC_WORDS[4])) == "b00361a3"
  {
    assert WordBytes(ABC_WORDS[4]) == [0xb0, 0x03, 0x61, 0xa3];
    FourBytes(WordBytes(ABC_WORDS[4]));
  }

  lemma Text5()
    ensures HexText(WordBytes(ABC_WORDS[5])) == "96177a9c"
  {
    assert WordBytes(ABC_WORDS[5]) == [0x96, 0x17, 0x7a, 0x9c];
    FourBytes(WordBytes(ABC_WORDS[5]));
  }

  lemma Text6()
    ensures HexText(WordBytes(ABC_WORDS[6])) == "b410ff61"
  {
    assert WordBytes(ABC_WORDS[6]) == [0xb4, 0x10, 0xff, 0x61];
    FourBytes(WordBytes(ABC_WORDS[6]));
  }

  lemma Text7()
    ensures HexText(WordBytes(ABC_WORDS[7])) == "f20015ad"
  {
    assert WordBytes(ABC_WORDS[7]) == [0xf2, 0x00, 0x15, 0xad];
    FourBytes(WordBytes(ABC_WORDS[7]));
  }

  lemma {:induction false} TextOfWords(words: seq<Word>)
    requires words != []
    ensures HexText(AllBytes(words))
         == HexText(AllBytes(words[..|words| - 1])) + HexText(WordBytes(words[|words| - 1]))
  {
    hide HexText, WordBytes;
    HexAppend(AllBytes(words[..|words| - 1]), WordBytes(words[|words| - 1]));
  }

  lemma {:induction false} TextFrom(n: nat)
    requires 1 <= n <= 8
    ensures HexText(AllBytes(ABC_WORDS[..n]))
         == HexText(AllBytes(ABC_WORDS[..n - 1])) + HexText(WordBytes(ABC_WORDS[n - 1]))
  {
    hide HexText, WordBytes, AllBytes;
    TextOfWords(ABC_WORDS[..n]);
    assert ABC_WORDS[..n][..n - 1] == ABC_WORDS[..n - 1];
  }

  lemma TextOfHalf()
    ensures HexText(AllBytes(ABC_WORDS[..4])) == "ba7816bf" + "8f01cfea" + "414140de" + "5dae2223"
  {
    EmptyText();
    TextFrom(1);
    Text0();
    hide HexText, WordBytes, AllBytes;
    var first := HexText(AllBytes(ABC_WORDS[..1]));
    assert first == "ba7816bf";
    TextFrom(2);
    TextFrom(3);
    TextFrom(4);
    Text1();
    Text2();
    Text3();
  }

  /** The text of the example: hashing the bytes of "abc" prints it. */
  lemma TextOfAbc()
    ensures HexText(Digest(ABC))
         == "ba7816bf" + "8f01cfea" + "414140de" + "5dae2223"
            + "b00361a3" + "96177a9c" + "b410ff61" + "f20015ad"
  {
    hide HexText, WordBytes, AllBytes, Digest, Padded;
    DigestOfAbc();
    TextOfHalf();
    TextFrom(5);
    TextFrom(6);
    TextFrom(7);
    TextFrom(8);
    Text4();
    Text5();
    Text6();
    Text7();
    assert ABC_WORDS[..8] == ABC_WORDS;
  }

  lemma EmptyText()
    ensures HexText(AllBytes(ABC_WORDS[..0])) == ""
  {
  }
}
