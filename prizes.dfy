/** The prizes section: a ring of the three main prizes. The active prize is
    shown in the centre, flanked by the previous and the next one. */
module Prizes {
  import Ring

  /** The ranks of `mainPrizes`, in array order: second, first, third. */
  const Ranks: seq<string> := ["2", "1", "3"]
  /** `mainPrizes.length`. */
  const PrizeCount := 3
  /** The prize shown first: Zeus, the first prize, in the centre. */
  const InitialIndex := 1

  /** The section opens on the first prize. */
  lemma InitialIsFirstPrize()
    ensures |Ranks| == PrizeCount && Ranks[InitialIndex] == "1"
  {
  }

  /** `prevIndex`: the prize drawn to the left of the active one. */
  function PrevIndex(active: int): (r: int)
    requires 0 <= active < PrizeCount
    ensures 0 <= r < PrizeCount && r != active
  {
    Ring.Prev(active, PrizeCount)
  }

  /** `nextIndex`: the prize drawn to the right of the active one. */
  function NextIndex(active: int): (r: int)
    requires 0 <= active < PrizeCount
    ensures 0 <= r < PrizeCount && r != active
  {
    Ring.Next(active, PrizeCount)
  }

  /** The three prizes on screen are three different prizes, and together
      they are all of them. */
  lemma NeighboursPartition(active: int)
    requires 0 <= active < PrizeCount
    ensures PrevIndex(active) != NextIndex(active)
    ensures {PrevIndex(active), active, NextIndex(active)} == {0, 1, 2}
  {
  }

  /** "Next" rotates the triple on screen: the old centre moves left, the old
      right prize moves to the centre and the old left prize comes in on the right. */
  lemma RotationAfterNext(active: int)
    requires 0 <= active < PrizeCount
    ensures PrevIndex(Ring.Next(active, PrizeCount)) == active
    ensures NextIndex(Ring.Next(active, PrizeCount)) == PrevIndex(active)
  {
  }

  /** "Previous" rotates the triple the other way. */
  lemma RotationAfterPrev(active: int)
    requires 0 <= active < PrizeCount
    ensures NextIndex(Ring.Prev(active, PrizeCount)) == active
    ensures PrevIndex(Ring.Prev(active, PrizeCount)) == NextIndex(active)
  {
  }

  /** The carousel's state: the index of the centre prize. */
  class PrizeCarousel {
    var activeIndex: int

    predicate Valid()
      reads this
    {
      0 <= activeIndex < PrizeCount
    }

    constructor ()
      ensures Valid() && activeIndex == InitialIndex
    {
      activeIndex := InitialIndex;
    }

    /** The right arrow (`handleNext`). */
    method HandleNext()
      requires Valid()
      modifies this
      ensures Valid()
      ensures activeIndex == Ring.Next(old(activeIndex), PrizeCount)
      ensures PrevIndex(activeIndex) == old(activeIndex)
    {
      activeIndex := (activeIndex + 1) % PrizeCount;
    }

    /** The left arrow (`handlePrev`). */
    method HandlePrev()
      requires Valid()
      modifies this
      ensures Valid()
      ensures activeIndex == Ring.Prev(old(activeIndex), PrizeCount)
      ensures NextIndex(activeIndex) == old(activeIndex)
    {
      activeIndex := (activeIndex - 1 + PrizeCount) % PrizeCount;
    }
  }
}
