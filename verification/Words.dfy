/** 32-bit size arithmetic shared by the allocators. */
module Words {

  const WORD := 0x1_0000_0000
  const ALIGN := 4  // RT_ALIGN_SIZE

  /** `RT_ALIGN(size, 4)` in 32-bit arithmetic: the addition wraps. */
  function AlignUp(size: nat): nat {
    var sum := (size + (ALIGN - 1)) % WORD;
    sum - sum % ALIGN
  }

  /** Rounding gives the least multiple of 4 that holds the size, unless it passes 2^32. */
  lemma AlignCovers(size: nat)
    requires size < WORD
    ensures AlignUp(size) % ALIGN == 0 && AlignUp(size) < WORD
    ensures size <= AlignUp(size) < size + ALIGN <==> size <= WORD - ALIGN
    ensures size > WORD - ALIGN ==> AlignUp(size) == 0
  {
  }

  /** A multiple of 4 is left alone. */
  lemma AlignFixed(size: nat)
    requires size < WORD && size % ALIGN == 0
    ensures AlignUp(size) == size
  {
    assert size + ALIGN <= WORD;
    assert (size + 3) % ALIGN == 3;
  }

  lemma AlignTwice(size: nat)
    ensures AlignUp(AlignUp(size)) == AlignUp(size)
  {
    AlignFixed(AlignUp(size));
  }

  function Max(a: int, b: int): int {
    if a < b then b else a
  }
}
