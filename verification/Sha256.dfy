/** Streaming SHA-256 and its definition in FIPS 180-4. */
module Sha256 {
  import opened Types
  import opened Hexadecimal

  type Byte = bv8
  type Word = bv32

  // Section 4.1.2 of FIPS 180-4: functions

  function Rotr(x: Word, n: nat): Word
    requires 0 < n < 32
  {
    (x >> n) | (x << (32 - n))
  }

  function Choose(x: Word, y: Word, z: Word): Word {
    (x & y) ^ (!x & z)
  }

  function Majority(x: Word, y: Word, z: Word): Word {
    (x & y) ^ (x & z) ^ (y & z)
  }

  function BigSigma0(x: Word): Word {
    Rotr(x, 2) ^ Rotr(x, 13) ^ Rotr(x, 22)
  }

  function BigSigma1(x: Word): Word {
    Rotr(x, 6) ^ Rotr(x, 11) ^ Rotr(x, 25)
  }

  function SmallSigma0(x: Word): Word {
    Rotr(x, 7) ^ Rotr(x, 18) ^ (x >> 3)
  }

  function SmallSigma1(x: Word): Word {
    Rotr(x, 17) ^ Rotr(x, 19) ^ (x >> 10)
  }

  // Section 4.2.2: constants

  const K0: seq<Word> := [
    0x428a2f98, 0x71374491, 0xb5c0fbcf, 0xe9b5dba5,
    0x3956c25b, 0x59f111f1, 0x923f82a4, 0xab1c5ed5]

  const K1: seq<Word> := [
    0xd807aa98, 0x12835b01, 0x243185be, 0x550c7dc3,
    0x72be5d74, 0x80deb1fe, 0x9bdc06a7, 0xc19bf174]

  const K2: seq<Word> := [
    0xe49b69c1, 0xefbe4786, 0x0fc19dc6, 0x240ca1cc,
    0x2de92c6f, 0x4a7484aa, 0x5cb0a9dc, 0x76f988da]

  const K3: seq<Word> := [
    0x983e5152, 0xa831c66d, 0xb00327c8, 0xbf597fc7,
    0xc6e00bf3, 0xd5a79147, 0x06ca6351, 0x14292967]

  const K4: seq<Word> := [
    0x27b70a85, 0x2e1b2138, 0x4d2c6dfc, 0x53380d13,
    0x650a7354, 0x766a0abb, 0x81c2c92e, 0x92722c85]

  const K5: seq<Word> := [
    0xa2bfe8a1, 0xa81a664b, 0xc24b8b70, 0xc76c51a3,
    0xd192e819, 0xd6990624, 0xf40e3585, 0x106aa070]

  const K6: seq<Word> := [
    0x19a4c116, 0x1e376c08, 0x2748774c, 0x34b0bcb5,
    0x391c0cb3, 0x4ed8aa4a, 0x5b9cca4f, 0x682e6ff3]

  const K7: seq<Word> := [
    0x748f82ee, 0x78a5636f, 0x84c87814, 0x8cc70208,
    0x90befffa, 0xa4506ceb, 0xbef9a3f7, 0xc67178f2]

  function KRow(r: nat): (row: seq<Word>)
    ensures |row| == 8
  {
    if r == 0 then K0 else if r == 1 then K1 else if r == 2 then K2 else if r == 3 then K3
    else if r == 4 then K4 else if r == 5 then K5 else if r == 6 then K6 else K7
  }

  function KAt(t: nat): Word
    requires t < 64
  {
    KRow(t / 8)[t % 8]
  }

  /** Section 5.3.3: the initial hash value. */
  const INITIAL: seq<Word> := [
    0x6a09e667, 0xbb67ae85, 0x3c6ef372, 0xa54ff53a,
    0x510e527f, 0x9b05688c, 0x1f83d9ab, 0x5be0cd19]

  // Section 5: preprocessing

  /** The `k` low-order bytes of a number, most significant first. */
  function BigEndian(n: nat, k: nat): (s: seq<Byte>)
    ensures |s| == k
  {
    if k == 0 then [] else BigEndian(n / 256, k - 1) + [(n % 256) as bv8]
  }

  function Zeros(k: nat): (s: seq<Byte>)
    ensures |s| == k
  {
    seq(k, _ => 0 as bv8)
  }

  /** The number of zero bytes: the least that leaves room for exactly the length. */
  function ZeroCount(length: nat): (k: nat)
    ensures k < 64 && (length + 1 + k) % 64 == 56
  {
    (119 - length % 64) % 64
  }

  /** A sequence of whole 64-byte blocks. */
  predicate Whole(s: seq<Byte>) {
    |s| % 64 == 0
  }

  /** Section 5.1.1: one bit, zeros, and the length in bits as a 64-bit number.  The
      standard bounds messages by 2^64 bits; for longer ones this is what the code
      does, whose counter wraps. */
  function Padded(message: seq<Byte>): (padded: seq<Byte>)
    ensures Whole(padded)
  {
    PaddedLength(|message|);
    message + [0x80] + Zeros(ZeroCount(|message|)) + BigEndian(8 * |message|, 8)
  }

  lemma PaddedLength(n: nat)
    ensures (n + 1 + ZeroCount(n) + 8) % 64 == 0
  {
    var q := (n + 1 + ZeroCount(n)) / 64;
    assert n + 1 + ZeroCount(n) == 64 * q + 56;
  }

  // Section 6.2.2: the hash computation

  predicate IsBlock(block: seq<Byte>) {
    |block| == 64
  }

  /** Four bytes, most significant first. */
  function WordOf(a: Byte, b: Byte, c: Byte, d: Byte): Word {
    ((a as bv32) << 24) | ((b as bv32) << 16) | ((c as bv32) << 8) | (d as bv32)
  }

  function WordAt(block: seq<Byte>, i: nat): Word
    requires IsBlock(block) && i < 16
  {
    WordOf(block[i * 4], block[i * 4 + 1], block[i * 4 + 2], block[i * 4 + 3])
  }

  function SumOfFour(a: Word, b: Word, c: Word, d: Word): Word {
    a + b + c + d
  }

  /** A later word of the schedule, from the words 2, 7, 15 and 16 before it. */
  function NextWord(w2: Word, w7: Word, w15: Word, w16: Word): Word {
    SumOfFour(SmallSigma1(w2), w7, SmallSigma0(w15), w16)
  }

  /** The message schedule. */
  function Schedule(block: seq<Byte>, t: nat): Word
    requires IsBlock(block) && t < 64
  {
    if t < 16 then WordAt(block, t)
    else NextWord(Schedule(block, t - 2), Schedule(block, t - 7), Schedule(block, t - 15), Schedule(block, t - 16))
  }

  /** The eight working variables. */
  datatype Working = Working(a: Word, b: Word, c: Word, d: Word, e: Word, f: Word, g: Word, h: Word)

  /** Addition modulo 2^32. */
  function Sum(x: Word, y: Word): Word {
    x + y
  }

  /** The first temporary word of a round. */
  function Temporary(h: Word, s1: Word, ch: Word, k: Word, w: Word): Word {
    h + s1 + ch + k + w
  }

  function Round(v: Working, k: Word, w: Word): Working {
    var t1 := Temporary(v.h, BigSigma1(v.e), Choose(v.e, v.f, v.g), k, w);
    var t2 := Sum(BigSigma0(v.a), Majority(v.a, v.b, v.c));
    Working(Sum(t1, t2), v.a, v.b, v.c, Sum(v.d, t1), v.e, v.f, v.g)
  }

  function Rounds(start: Working, block: seq<Byte>, t: nat): Working
    requires IsBlock(block) && t <= 64
  {
    if t == 0 then start else Round(Rounds(start, block, t - 1), KAt(t - 1), Schedule(block, t - 1))
  }

  predicate IsHash(h: seq<Word>) {
    |h| == 8
  }

  function StartOf(h: seq<Word>): Working
    requires IsHash(h)
  {
    Working(h[0], h[1], h[2], h[3], h[4], h[5], h[6], h[7])
  }

  function Added(h: seq<Word>, v: Working): (r: seq<Word>)
    requires IsHash(h)
    ensures IsHash(r)
  {
    [Sum(h[0], v.a), Sum(h[1], v.b), Sum(h[2], v.c), Sum(h[3], v.d),
     Sum(h[4], v.e), Sum(h[5], v.f), Sum(h[6], v.g), Sum(h[7], v.h)]
  }

  /** One intermediate hash value from the last. */
  function Compress(h: seq<Word>, block: seq<Byte>): (r: seq<Word>)
    requires IsHash(h) && IsBlock(block)
    ensures IsHash(r)
  {
    Added(h, Rounds(StartOf(h), block, 64))
  }

  /** The intermediate hash value after all blocks. */
  function HashBlocks(h: seq<Word>, blocks: seq<Byte>): (r: seq<Word>)
    requires IsHash(h) && Whole(blocks)
    ensures IsHash(r)
  {
    if blocks == [] then h
    else
      Compress(HashBlocks(h, blocks[..|blocks| - 64]), blocks[|blocks| - 64..])
  }

  function WordBytes(w: Word): (s: seq<Byte>)
    ensures |s| == 4
  {
    [((w >> 24) & 0xff) as bv8, ((w >> 16) & 0xff) as bv8, ((w >> 8) & 0xff) as bv8, (w & 0xff) as bv8]
  }

  function AllBytes(words: seq<Word>): (s: seq<Byte>)
    ensures |s| == 4 * |words|
  {
    if words == [] then [] else AllBytes(words[..|words| - 1]) + WordBytes(words[|words| - 1])
  }

  /** The message digest. */
  function Digest(message: seq<Byte>): (d: seq<Byte>)
    ensures |d| == 32
  {
    AllBytes(HashBlocks(INITIAL, Padded(message)))
  }

  class Hasher {
    const state: array<Word>
    const buffer: array<Byte>
    var bufferSize: nat
    var totalBytes: nat
    /** The bytes of the blocks that have been hashed. */
    ghost var hashed: seq<Byte>

    ghost predicate Valid()
      reads this, state, buffer
    {
      && state.Length == 8 && buffer.Length == 64 && bufferSize < 64
      && Whole(hashed) && state[..] == HashBlocks(INITIAL, hashed)
      && totalBytes == Wrap(|Message()|)
    }

    /** Everything that was fed in. */
    ghost function Message(): seq<Byte>
      reads this, buffer
      requires bufferSize <= buffer.Length
    {
      hashed + buffer[..bufferSize]
    }

    constructor ()
      ensures Valid() && Message() == [] && fresh(state) && fresh(buffer)
    {
      state := new Word[8](i requires 0 <= i < 8 => INITIAL[i]);
      buffer := new Byte[64](_ => 0);
      bufferSize, totalBytes, hashed := 0, 0, [];
      new;
      assert state[..] == INITIAL;
    }

    /** The first sixteen words of the schedule are the block. */
    method FillFirst(words: array<Word>)
      requires words.Length == 64 && buffer.Length == 64
      modifies words
      ensures forall t :: 0 <= t < 16 ==> words[t] == Schedule(buffer[..], t)
    {
      hide WordOf, Schedule;
      ghost var block := buffer[..];
      for i := 0 to 16
        invariant buffer[..] == block
        invariant forall t :: 0 <= t < i ==> words[t] == Schedule(block, t)
      {
        ScheduleFirst(block, i);
        words[i] := WordOf(buffer[i * 4], buffer[i * 4 + 1], buffer[i * 4 + 2], buffer[i * 4 + 3]);
      }
    }

    /** The message schedule, filled in place. */
    method FillWords(words: array<Word>)
      requires words.Length == 64 && buffer.Length == 64
      modifies words
      ensures forall t :: 0 <= t < 64 ==> words[t] == Schedule(buffer[..], t)
    {
      hide Schedule, NextWord;
      FillFirst(words);
      ghost var block := buffer[..];
      for i := 16 to 64
        invariant buffer[..] == block
        invariant forall t :: 0 <= t < i ==> words[t] == Schedule(block, t)
      {
        ScheduleNext(block, i);
        words[i] := NextWord(words[i - 2], words[i - 7], words[i - 15], words[i - 16]);
      }
    }

    /** The sixty-four rounds. */
    method RunRounds(words: array<Word>) returns (v: Working)
      requires state.Length == 8 && buffer.Length == 64 && words.Length == 64
      requires forall t :: 0 <= t < 64 ==> words[t] == Schedule(buffer[..], t)
      ensures v == Rounds(StartOf(state[..]), buffer[..], 64)
    {
      hide Schedule, Round, KAt;
      v := Working(state[0], state[1], state[2], state[3], state[4], state[5], state[6], state[7]);
      for i := 0 to 64
        invariant v == Rounds(StartOf(state[..]), buffer[..], i)
      {
        v := Round(v, KAt(i), words[i]);
      }
    }

    method AddBack(v: Working)
      requires state.Length == 8
      modifies state
      ensures state[..] == Added(old(state[..]), v)
    {
      hide Sum;
      AddFirst(v);
      AddLast(v);
    }

    method AddFirst(v: Working)
      requires state.Length == 8
      modifies state
      ensures state[0] == Sum(old(state[0]), v.a) && state[1] == Sum(old(state[1]), v.b)
      ensures state[2] == Sum(old(state[2]), v.c) && state[3] == Sum(old(state[3]), v.d)
      ensures state[4..] == old(state[4..])
    {
      hide Sum;
      state[0] := Sum(state[0], v.a);
      state[1] := Sum(state[1], v.b);
      state[2] := Sum(state[2], v.c);
      state[3] := Sum(state[3], v.d);
    }

    method AddLast(v: Working)
      requires state.Length == 8
      modifies state
      ensures state[4] == Sum(old(state[4]), v.e) && state[5] == Sum(old(state[5]), v.f)
      ensures state[6] == Sum(old(state[6]), v.g) && state[7] == Sum(old(state[7]), v.h)
      ensures state[..4] == old(state[..4])
    {
      hide Sum;
      state[4] := Sum(state[4], v.e);
      state[5] := Sum(state[5], v.f);
      state[6] := Sum(state[6], v.g);
      state[7] := Sum(state[7], v.h);
    }

    /** Replaces the intermediate hash value; the block is in the buffer. */
    method Transform()
      requires state.Length == 8 && buffer.Length == 64
      modifies state
      ensures state[..] == Compress(old(state[..]), buffer[..])
    {
      hide Schedule, Rounds, Added, StartOf;
      var words := new Word[64](_ => 0);
      FillWords(words);
      var v := RunRounds(words);
      AddBack(v);
    }

    /** Stores one byte; a full buffer is hashed at once. */
    method Put(value: Byte)
      requires state.Length == 8 && buffer.Length == 64 && bufferSize < 64
      requires Whole(hashed) && state[..] == HashBlocks(INITIAL, hashed)
      modifies this`bufferSize, this`hashed, state, buffer
      ensures bufferSize < 64 && Whole(hashed) && state[..] == HashBlocks(INITIAL, hashed)
      ensures Message() == old(Message()) + [value]
      ensures bufferSize == (old(bufferSize) + 1) % 64
    {
      hide Compress, HashBlocks;
      buffer[bufferSize] := value;
      bufferSize := bufferSize + 1;
      if bufferSize == buffer.Length {
        OneMoreBlock(hashed, buffer[..]);
        Transform();
        hashed := hashed + buffer[..];
        bufferSize := 0;
      }
    }

    method Update(input: seq<Byte>)
      requires Valid()
      modifies this, state, buffer
      ensures Valid() && Message() == old(Message()) + input
    {
      hide Wrap, Whole, HashBlocks;
      assert input[..|input|] == input;
      for i := 0 to |input|
        invariant Valid() && Message() == old(Message()) + input[..i]
      {
        WrapStep(|Message()|);
        Put(input[i]);
        totalBytes := Wrap(totalBytes + 1);
        assert input[..i + 1] == input[..i] + [input[i]];
      }
    }

    /** State between the steps of `Finish`: the buffer may be full. */
    ghost predicate Finishing()
      reads this, state, buffer
    {
      && state.Length == 8 && buffer.Length == 64 && bufferSize <= 64
      && Whole(hashed) && state[..] == HashBlocks(INITIAL, hashed)
    }

    method Append(value: Byte)
      requires Finishing() && bufferSize < 64
      modifies this`bufferSize, buffer
      ensures Finishing() && Message() == old(Message()) + [value] && bufferSize == old(bufferSize) + 1
    {
      hide HashBlocks;
      buffer[bufferSize] := value;
      bufferSize := bufferSize + 1;
    }

    method FillZeros(end: nat)
      requires Finishing() && bufferSize <= end <= 64
      modifies this`bufferSize, buffer
      ensures Finishing() && Message() == old(Message()) + Zeros(end - old(bufferSize)) && bufferSize == end
    {
      hide HashBlocks, Whole;
      ghost var start, before := bufferSize, Message();
      while bufferSize < end
        invariant start <= bufferSize <= end && Finishing()
        invariant Message() == before + Zeros(bufferSize - start)
      {
        assert Zeros(bufferSize + 1 - start) == Zeros(bufferSize - start) + [0];
        Append(0);
      }
    }

    method Flush()
      requires Finishing() && bufferSize == 64
      modifies this`bufferSize, this`hashed, state
      ensures Finishing() && bufferSize == 0 && Message() == hashed == old(Message())
    {
      hide Compress;
      OneMoreBlock(hashed, buffer[..]);
      Transform();
      hashed := hashed + buffer[..];
      bufferSize := 0;
    }

    method AppendLength(totalBits: nat)
      requires Finishing() && bufferSize == 56
      modifies this`bufferSize, buffer
      ensures Finishing() && bufferSize == 64 && Message() == old(Message()) + BigEndian(totalBits, 8)
    {
      hide HashBlocks, Whole, BigEndian;
      ghost var before, bytes := Message(), BigEndian(totalBits, 8);
      for i := 0 to 8
        invariant Finishing() && bufferSize == 56 + i && Message() == before + bytes[..i]
      {
        BigEndianAt(totalBits, 8, i);
        assert bytes[..i + 1] == bytes[..i] + [bytes[i]];
        Append((totalBits / Pow256(7 - i) % 256) as bv8);
      }
      assert bytes[..8] == bytes;
    }

    /** The padding, in one block or two. */
    method Pad()
      requires Valid()
      modifies this, state, buffer
      ensures Finishing() && bufferSize == 0 && hashed == Padded(old(Message()))
    {
      hide HashBlocks, Zeros, BigEndian;
      ghost var message, size := Message(), bufferSize;
      BufferIsRest(hashed, buffer[..bufferSize]);
      var totalBits := Wrap(totalBytes * 8);
      LengthWraps(|message|);
      PaddingPieces(message, size, totalBits);
      hide Whole, Wrap;
      Append(0x80);
      if bufferSize > 56 {
        FillZeros(64);
        Flush();
      }
      FillZeros(56);
      AppendLength(totalBits);
      Flush();
    }

    /** The digest of everything that was fed in. */
    method Finish() returns (digest: seq<Byte>)
      requires Valid()
      modifies this, state, buffer
      ensures digest == Digest(old(Message()))
    {
      hide HashBlocks, WordBytes, Whole, Padded;
      Pad();
      digest := [];
      for i := 0 to 8
        invariant digest == AllBytes(state[..i])
      {
        assert state[..i + 1][..i] == state[..i];
        digest := digest + WordBytes(state[i]);
      }
      assert state[..8] == state[..];
    }
  }

  /** The 64-bit byte counter. */
  function Wrap(n: nat): nat {
    n % TWO_TO_THE_64
  }

  lemma WrapStep(n: nat)
    ensures Wrap(Wrap(n) + 1) == Wrap(n + 1)
  {
  }

  function Pow256(k: nat): (p: nat)
    ensures p > 0
  {
    if k == 0 then 1 else 256 * Pow256(k - 1)
  }

  /** Shifting out lower bytes gives the byte at a position. */
  lemma {:induction false} BigEndianAt(n: nat, k: nat, i: nat)
    requires i < k
    ensures BigEndian(n, k)[i] == (n / Pow256(k - 1 - i) % 256) as bv8
  {
    if i < k - 1 {
      BigEndianAt(n / 256, k - 1, i);
      DivideTwice(n, Pow256(k - 2 - i));
    }
  }

  lemma DivideTwice(n: nat, p: nat)
    requires p > 0
    ensures n / 256 / p == n / (256 * p)
  {
    var q, r := n / (256 * p), n % (256 * p);
    DivideBy(n, 256, q * p + r / 256, r % 256);
    DivideBy(n / 256, p, q, r / 256);
  }

  lemma MultipleOrZero(d: int, k: int)
    requires d > 0
    ensures k == 0 || d * k >= d || d * k <= 0 - d
  {
  }

  lemma DivideBy(n: nat, d: nat, q: nat, r: nat)
    requires n == d * q + r && r < d
    ensures n / d == q
  {
    assert d * (n / d - q) == r - n % d;
    MultipleOrZero(d, n / d - q);
  }

  /** Only the low-order bytes count. */
  lemma {:induction false} BigEndianWraps(n: nat, q: nat, k: nat)
    ensures BigEndian(n + q * Pow256(k), k) == BigEndian(n, k)
  {
    if k > 0 {
      var p := Pow256(k - 1);
      BigEndianWraps(n / 256, q, k - 1);
      AddMultiple(n, q, p);
    }
  }

  lemma AddMultiple(n: nat, q: nat, p: nat)
    ensures (n + q * (256 * p)) / 256 == n / 256 + q * p && (n + q * (256 * p)) % 256 == n % 256
  {
    assert q * (256 * p) == 256 * (q * p);
  }

  /** The wrapped bit count has the same low-order bytes as the true one. */
  lemma LengthWraps(n: nat)
    ensures BigEndian(Wrap(Wrap(n) * 8), 8) == BigEndian(8 * n, 8)
  {
    hide BigEndian;
    var low := Wrap(n);
    var bits, carry := Wrap(low * 8), n / TWO_TO_THE_64 * 8 + low * 8 / TWO_TO_THE_64;
    assert Pow256(8) == TWO_TO_THE_64;
    assert 8 * n == bits + carry * TWO_TO_THE_64;
    hide Wrap, Pow256;
    BigEndianWraps(bits, carry, 8);
  }

  /** The buffer holds the message's last incomplete block. */
  lemma BufferIsRest(blocks: seq<Byte>, rest: seq<Byte>)
    requires Whole(blocks) && |rest| < 64
    ensures |blocks + rest| % 64 == |rest|
  {
  }

  /** The padding as the code writes it, in one block or two. */
  lemma PaddingPieces(message: seq<Byte>, size: nat, totalBits: nat)
    requires size == |message| % 64 && BigEndian(totalBits, 8) == BigEndian(8 * |message|, 8)
    ensures size + 1 <= 56 ==> message + [0x80] + Zeros(56 - (size + 1)) + BigEndian(totalBits, 8) == Padded(message)
    ensures size + 1 > 56 ==>
              message + [0x80] + Zeros(64 - (size + 1)) + Zeros(56) + BigEndian(totalBits, 8) == Padded(message)
  {
    hide BigEndian;
    if size + 1 > 56 {
      var z := Zeros(64 - (size + 1));
      assert z + Zeros(56) == Zeros(ZeroCount(|message|));
      assert message + [0x80] + z + Zeros(56) == message + [0x80] + (z + Zeros(56));
    }
  }

  lemma OneMoreBlock(blocks: seq<Byte>, block: seq<Byte>)
    requires Whole(blocks) && IsBlock(block)
    ensures Whole(blocks + block)
    ensures HashBlocks(INITIAL, blocks + block) == Compress(HashBlocks(INITIAL, blocks), block)
  {
    hide Compress;
    var all := blocks + block;
    assert all[..|all| - 64] == blocks && all[|all| - 64..] == block;
  }

  lemma ScheduleFirst(block: seq<Byte>, t: nat)
    requires IsBlock(block) && t < 16
    ensures Schedule(block, t) == WordOf(block[t * 4], block[t * 4 + 1], block[t * 4 + 2], block[t * 4 + 3])
  {
    hide WordOf;
  }

  lemma ScheduleNext(block: seq<Byte>, t: nat)
    requires IsBlock(block) && 16 <= t < 64
    ensures Schedule(block, t)
         == NextWord(Schedule(block, t - 2), Schedule(block, t - 7), Schedule(block, t - 15), Schedule(block, t - 16))
  {
    hide WordAt, NextWord;
  }

  // Messages in pieces

  function Flatten(chunks: seq<seq<Byte>>): seq<Byte> {
    if chunks == [] then [] else Flatten(chunks[..|chunks| - 1]) + chunks[|chunks| - 1]
  }

  // The digest as text

  /** Two lower-case digits for each byte. */
  function HexText(bytes: seq<Byte>): (text: string)
    ensures |text| == 2 * |bytes|
  {
    if bytes == [] then ""
    else
      var n := |bytes| - 1;
      HexText(bytes[..n]) + [HexChar(bytes[n] as int / 16), HexChar(bytes[n] as int % 16)]
  }

  method ToHex(bytes: seq<Byte>) returns (text: string)
    ensures text == HexText(bytes)
  {
    text := "";
    for i := 0 to |bytes|
      invariant text == HexText(bytes[..i])
    {
      assert bytes[..i + 1][..i] == bytes[..i];
      text := text + [HexChar(bytes[i] as int / 16), HexChar(bytes[i] as int % 16)];
    }
    assert bytes[..|bytes|] == bytes;
  }

  /** Every byte can be read from its two digits, so different digests have different
      texts. */
  lemma {:induction false} HexTextReads(bytes: seq<Byte>, i: nat)
    requires i < |bytes|
    ensures HexDigit(HexText(bytes)[2 * i]) * 16 + HexDigit(HexText(bytes)[2 * i + 1]) == bytes[i] as int
    decreases |bytes|
  {
    hide HexChar, HexDigit;
    var n := |bytes| - 1;
    if i < n {
      HexTextReads(bytes[..n], i);
    } else {
      ByteBound(bytes[n]);
      PrintedDigitReads(bytes[n] as int / 16);
      PrintedDigitReads(bytes[n] as int % 16);
    }
  }

  lemma ByteBound(b: Byte)
    ensures 0 <= b as int < 256
  {
  }

  lemma HexTextIsInjective(a: seq<Byte>, b: seq<Byte>)
    requires HexText(a) == HexText(b)
    ensures a == b
  {
    forall i | 0 <= i < |a| ensures a[i] == b[i] {
      hide HexText, HexDigit;
      HexTextReads(a, i);
      HexTextReads(b, i);
      assert a[i] as int == b[i] as int;
      SameByte(a[i], b[i]);
    }
  }

  lemma SameByte(a: Byte, b: Byte)
    requires a as int == b as int
    ensures a == b
  {
    assert (a as int) as bv8 == (b as int) as bv8;
  }

  /** What reading a file gives: nothing, or its bytes in chunks, up to the end or up
      to a failure. */
  datatype FileRead = CannotOpen | Chunks(chunks: seq<seq<Byte>>, atEnd: bool)

  datatype FileHash = Hashed(text: string) | OpenFailed | ReadFailed

  lemma FlattenNone(chunks: seq<seq<Byte>>)
    ensures Flatten(chunks[..0]) == []
  {
  }

  lemma FlattenOneMore(chunks: seq<seq<Byte>>, i: nat)
    requires i < |chunks|
    ensures Flatten(chunks[..i + 1]) == Flatten(chunks[..i]) + chunks[i]
    ensures chunks[i] == [] ==> Flatten(chunks[..i + 1]) == Flatten(chunks[..i])
  {
    assert chunks[..i + 1][..i] == chunks[..i];
  }

  /** Hashing a file chunk by chunk: for every way of cutting it up, the digest of the
      whole; an error unless all of it was read. */
  method HashFile(file: FileRead) returns (hash: FileHash)
    ensures hash == if file.CannotOpen? then OpenFailed
                    else if !file.atEnd then ReadFailed
                    else Hashed(HexText(Digest(Flatten(file.chunks))))
  {
    hide Digest, HexText, Flatten;
    if file.CannotOpen? { return OpenFailed; }
    var hasher := new Hasher();
    var chunks := file.chunks;
    FlattenNone(chunks);
    for i := 0 to |chunks|
      invariant hasher.Valid() && hasher.Message() == Flatten(chunks[..i])
      invariant fresh(hasher) && fresh(hasher.state) && fresh(hasher.buffer)
    {
      FlattenOneMore(chunks, i);
      if |chunks[i]| > 0 {
        hasher.Update(chunks[i]);
      }
    }
    assert chunks[..|chunks|] == chunks;
    if !file.atEnd { return ReadFailed; }
    var digest := hasher.Finish();
    var hex := ToHex(digest);
    hash := Hashed(hex);
  }

  method HashBytes(bytes: seq<Byte>) returns (text: string)
    ensures text == HexText(Digest(bytes)) && |text| == 64
  {
    hide Digest, HexText;
    var hash := new Hasher();
    hash.Update(bytes);
    assert [] + bytes == bytes;
    var digest := hash.Finish();
    text := ToHex(digest);
  }

  // What the padding means

  /** Distinct messages have distinct paddings, so padding loses nothing: the length
      field and the byte 0x80 determine where the message ends. */
  lemma PaddingIsInjective(a: seq<Byte>, b: seq<Byte>)
    requires 8 * |a| < TWO_TO_THE_64 && 8 * |b| < TWO_TO_THE_64 && Padded(a) == Padded(b)
    ensures a == b
  {
    var p, q := Padded(a), Padded(b);
    hide BigEndian, Zeros;
    var u, v := a + [0x80] + Zeros(ZeroCount(|a|)), b + [0x80] + Zeros(ZeroCount(|b|));
    assert p[|p| - 8..] == BigEndian(8 * |a|, 8) && q[|q| - 8..] == BigEndian(8 * |b|, 8);
    BigEndianValue(8 * |a|, 8);
    BigEndianValue(8 * |b|, 8);
    assert Pow256(8) == TWO_TO_THE_64;
    assert a == p[..|a|] && b == q[..|b|];
  }

  function ValueOf(bytes: seq<Byte>): nat {
    if bytes == [] then 0 else 256 * ValueOf(bytes[..|bytes| - 1]) + bytes[|bytes| - 1] as nat
  }

  lemma ValueOfAppended(bytes: seq<Byte>, b: Byte)
    ensures ValueOf(bytes + [b]) == 256 * ValueOf(bytes) + b as nat
  {
    assert (bytes + [b])[..|bytes|] == bytes;
  }

  lemma BigEndianLast(n: nat, k: nat, b: Byte)
    requires k > 0 && b == (n % 256) as bv8
    ensures BigEndian(n, k) == BigEndian(n / 256, k - 1) + [b]
  {
  }

  lemma FitsDivided(n: nat, k: nat)
    requires k > 0 && n < Pow256(k)
    ensures n / 256 < Pow256(k - 1)
  {
  }

  lemma {:induction false} BigEndianValue(n: nat, k: nat)
    requires n < Pow256(k)
    ensures ValueOf(BigEndian(n, k)) == n
  {
    if k > 0 {
      var b := (n % 256) as bv8;
      ByteReads(n % 256);
      BigEndianLast(n, k, b);
      FitsDivided(n, k);
      hide ValueOf, BigEndian, Pow256;
      BigEndianValue(n / 256, k - 1);
      ValueOfAppended(BigEndian(n / 256, k - 1), b);
      QuotientAndRest(n, b as nat);
    } else {
      ValueOfNone();
    }
  }

  lemma QuotientAndRest(n: nat, r: nat)
    requires r == n % 256
    ensures n == 256 * (n / 256) + r
  {
  }

  lemma ValueOfNone()
    ensures ValueOf([]) == 0
  {
  }
}
