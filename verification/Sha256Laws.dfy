/** What the selecting functions of section 4.1.2 of FIPS 180-4 do to bits, and how words
    are laid out in bytes. */
module Sha256Laws {
  import opened Sha256

  const ONES: Word := 0xffff_ffff

  /** `Choose` takes each bit from the second word where the first has a one, and from
      the third where it has a zero. */
  lemma ChooseSelects(y: Word, z: Word)
    ensures Choose(ONES, y, z) == y && Choose(0, y, z) == z
  {
  }

  lemma ChooseIsBitwise(mask: Word, x: Word, y: Word, z: Word)
    ensures Choose(x, y, z) & mask == Choose(x & mask, y & mask, z & mask) & mask
  {
  }

  /** `Majority`: two equal words decide, in any places. */
  lemma MajorityDecides(x: Word, y: Word)
    ensures Majority(x, x, y) == x && Majority(x, y, x) == x && Majority(y, x, x) == x
  {
  }

  lemma MajorityIsBitwise(mask: Word, x: Word, y: Word, z: Word)
    ensures Majority(x, y, z) & mask == Majority(x & mask, y & mask, z & mask)
  {
  }

  /** Taking a word to bytes and back is the identity, most significant byte first. */
  lemma BytesOfWordRead(w: Word)
    ensures WordOf(WordBytes(w)[0], WordBytes(w)[1], WordBytes(w)[2], WordBytes(w)[3]) == w
  {
  }
}
