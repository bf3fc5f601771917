/** Address arithmetic for words of 4 or 8 bytes. */
module Alignment {
  predicate IsWordSize(word: nat) {
    word == 4 || word == 8
  }

  predicate Aligned(address: nat, word: nat)
    requires IsWordSize(word)
  {
    if word == 4 then address % 4 == 0 else address % 8 == 0
  }

  // address / word * word
  function AlignDown(address: nat, word: nat): (r: nat)
    requires IsWordSize(word)
    ensures Aligned(r, word) && r <= address < r + word
  {
    if word == 4 then address / 4 * 4 else address / 8 * 8
  }

  // Aligned addresses are a whole word apart.
  lemma AlignedBelow(low: nat, high: nat, word: nat)
    requires IsWordSize(word) && low < high && Aligned(low, word) && Aligned(high, word)
    ensures low + word <= high && Aligned(high - word, word)
  {
    if word == 4 {
      MultiplesOf4(low / 4, high / 4);
    } else {
      MultiplesOf8(low / 8, high / 8);
    }
  }

  lemma MultiplesOf4(i: nat, j: nat)
    requires 4 * i < 4 * j
    ensures 4 * i + 4 <= 4 * j && (4 * j - 4) % 4 == 0
  {
    assert 4 * j - 4 == 4 * (j - 1);
  }

  lemma MultiplesOf8(i: nat, j: nat)
    requires 8 * i < 8 * j
    ensures 8 * i + 8 <= 8 * j && (8 * j - 8) % 8 == 0
  {
    assert 8 * j - 8 == 8 * (j - 1);
  }
}
