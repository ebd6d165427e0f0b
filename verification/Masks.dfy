/** Setting, clearing and testing bits of a word, as the device registers do. */
module Masks {
  import opened Rv32

  function SetBits(m: Word, bits: Word): Word { m | bits }
  function ClearBits(m: Word, bits: Word): Word { m & !bits }

  lemma SetKeeps(m: Word, x: Word, y: Word)
    requires Bit(m, y)
    ensures Bit(SetBits(m, x), y)
  {}
  lemma SetAdds(m: Word, x: Word, y: Word)
    requires Bit(x, y)
    ensures Bit(SetBits(m, x), y)
  {}
  lemma SetAddsNothingElse(m: Word, x: Word, y: Word)
    requires !Bit(m, y) && !Bit(x, y)
    ensures !Bit(SetBits(m, x), y)
  {}
  lemma ClearKeepsOthers(m: Word, x: Word, y: Word)
    requires !Bit(x, y) && Bit(m, y)
    ensures Bit(ClearBits(m, x), y)
  {}
  lemma ClearAddsNothing(m: Word, x: Word, y: Word)
    requires Bit(ClearBits(m, x), y)
    ensures Bit(m, y)
  {}
  lemma ClearHere(m: Word, x: Word)
    ensures !Bit(ClearBits(m, x), x)
  {}
}
