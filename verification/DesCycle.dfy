/**
 * A short cycle of the DES rounds under subkeys of zeros: two halves that the round function takes to zero and to
 * their difference.
 */
module DesCycle {
  import opened Feistel
  import opened DesRound
  import opened DesWords

  const NoKey: Groups := seq(8, i => seq(6, j => false))

  const STILL: bv32 := 0x81de429d
  const MOVED: bv32 := 0x7019e620

  lemma NoKeyBytes()
    ensures GroupsOf([0, 0, 0, 0, 0, 0, 0, 0]) == NoKey
  {
    assert SixBits(0) == seq(6, j => false) by { NoBits(); }
    hide SixBits;
  }

  lemma NoBits()
    ensures SixBits(0) == seq(6, j => false)
  {
    hide BitOf;
    forall j | 0 <= j < 6 ensures SixBits(0)[j] == false {
      NoBit(j);
    }
  }

  lemma StillValue()
    ensures F32(STILL, [0, 0, 0, 0, 0, 0, 0, 0]) == 0
  {
  }

  lemma MovedValue()
    ensures F32(MOVED, [0, 0, 0, 0, 0, 0, 0, 0]) == XorWord(STILL, MOVED)
  {
  }

  /** The round function takes one half to zero. */
  lemma StillGivesNothing()
    ensures F(Word(STILL), NoKey) == seq(32, i => false)
  {
    hide F, Word, F32, GroupsOf;
    NoKeyBytes();
    StillValue();
    FWord(STILL, [0, 0, 0, 0, 0, 0, 0, 0]);
    ZeroWord();
  }

  /** And the other to the difference of the two. */
  lemma MovedGivesDifference()
    ensures F(Word(MOVED), NoKey) == XorBits(Word(STILL), Word(MOVED))
  {
    hide F, Word, F32, GroupsOf, XorWord;
    NoKeyBytes();
    MovedValue();
    FWord(MOVED, [0, 0, 0, 0, 0, 0, 0, 0]);
    WordsXor(STILL, MOVED);
  }
}
