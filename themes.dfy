/** The themes page: a ring of five theme scrolls with "next" and "previous"
    arrows. The active theme sits in the centre slot and the others fan out to
    slots -2..2 with a horizontal offset and a stacking order per slot. */
module Themes {
  import Ring

  /** `themesData.length`. */
  const ThemeCount := 5
  /** The theme shown first: the middle of the five. */
  const InitialIndex := 2
  /** The slot value that hides a theme. */
  const Hidden := 100
  /** Horizontal distance between neighbouring slots. */
  const SlotWidth := 280

  function Abs(x: int): int { if x < 0 then -x else x }

  /** The visual slot of theme `index` when `active` is the centre theme
      (`getPosition`): its distance around the ring, folded to -2..2. */
  function Position(index: int, active: int): (p: int)
    requires 0 <= index < ThemeCount && 0 <= active < ThemeCount
    ensures -2 <= p <= 2 && p != Hidden
    ensures p == 0 <==> index == active
  {
    var diff := (index - active + ThemeCount) % ThemeCount;
    if diff == 0 then 0
    else if diff == 1 then 1
    else if diff == 2 then 2
    else if diff == ThemeCount - 1 then -1
    else if diff == ThemeCount - 2 then -2
    else Hidden
  }

  /** The theme that occupies slot `p` when `active` is the centre theme. */
  function ThemeAtSlot(p: int, active: int): (index: int)
    requires -2 <= p <= 2 && 0 <= active < ThemeCount
    ensures 0 <= index < ThemeCount
    ensures Position(index, active) == p
  {
    (active + p + ThemeCount) % ThemeCount
  }

  /** `getPosition` is a one-to-one map of the five themes onto the five slots:
      theme `index` is in slot `p` exactly when it is the theme at slot `p`. */
  lemma PositionBijective(index: int, active: int, p: int)
    requires 0 <= index < ThemeCount && 0 <= active < ThemeCount && -2 <= p <= 2
    ensures Position(index, active) == p <==> index == ThemeAtSlot(p, active)
  {
  }

  /** No two themes share a slot. */
  lemma PositionInjective(i: int, j: int, active: int)
    requires 0 <= i < ThemeCount && 0 <= j < ThemeCount && 0 <= active < ThemeCount
    requires Position(i, active) == Position(j, active)
    ensures i == j
  {
    PositionBijective(i, active, Position(i, active));
    PositionBijective(j, active, Position(i, active));
  }

  /** Slot `p` after the ring turns one step forward: every theme moves one
      slot towards -2, and the theme leaving slot -2 re-enters at slot 2. */
  function ShiftDown(p: int): int { if p == -2 then 2 else p - 1 }

  /** Slot `p` after the ring turns one step back. */
  function ShiftUp(p: int): int { if p == 2 then -2 else p + 1 }

  /** After "next", every theme's slot is its old slot shifted down; in
      particular the theme that was at slot 1 becomes the centre. */
  lemma PositionAfterNext(index: int, active: int)
    requires 0 <= index < ThemeCount && 0 <= active < ThemeCount
    ensures Position(index, Ring.Next(active, ThemeCount)) == ShiftDown(Position(index, active))
    ensures Position(index, active) == 1 ==> Position(index, Ring.Next(active, ThemeCount)) == 0
  {
  }

  /** After "previous", every theme's slot is its old slot shifted up. */
  lemma PositionAfterPrev(index: int, active: int)
    requires 0 <= index < ThemeCount && 0 <= active < ThemeCount
    ensures Position(index, Ring.Prev(active, ThemeCount)) == ShiftUp(Position(index, active))
    ensures Position(index, active) == -1 ==> Position(index, Ring.Prev(active, ThemeCount)) == 0
  {
  }

  /** The horizontal offset of slot `p`: zero in the centre, `p` slot widths elsewhere. */
  function XOffset(p: int): (x: int)
    ensures x == p * SlotWidth
    ensures x == 0 <==> p == 0
  {
    if p == 0 then 0 else p * SlotWidth
  }

  /** The stacking order of slot `p`: centre on top, outer slots at the bottom. */
  function ZIndex(p: int): (z: int)
    requires -2 <= p <= 2
    ensures Abs(p) == 0 ==> z == 30
    ensures Abs(p) == 1 ==> z == 20
    ensures Abs(p) == 2 ==> z == 10
  {
    var isCenter := p == 0;
    var isOuter := Abs(p) == 2;
    if isCenter then 30 else if isOuter then 10 else 20
  }

  /** The stacking order strictly decreases with the distance from the centre. */
  lemma ZIndexDecreasesOutwards(p: int, q: int)
    requires -2 <= p <= 2 && -2 <= q <= 2
    ensures Abs(p) < Abs(q) <==> ZIndex(p) > ZIndex(q)
  {
  }

  /** Whether the render loop draws a theme in slot `p`: it skips slots beyond
      -2..2 other than the hidden one. */
  predicate Drawn(p: int)
    ensures -2 <= p <= 2 ==> Drawn(p)
    ensures p == Hidden ==> Drawn(p)
    ensures p == 3 || p == -3 ==> !Drawn(p)
  {
    !(Abs(p) > 2 && p != Hidden)
  }

  /** How one theme is drawn. */
  datatype Placement = Placement(position: int, xOffset: int, zIndex: int)

  /** The render loop over all themes: slot, offset and stacking order of each. */
  function Layout(active: int): (ps: seq<Placement>)
    requires 0 <= active < ThemeCount
    ensures |ps| == ThemeCount
    ensures forall i :: 0 <= i < ThemeCount ==> Drawn(ps[i].position)
    ensures ps[active] == Placement(0, 0, 30)
    ensures forall i :: 0 <= i < ThemeCount ==>
      ps[i].xOffset == ps[i].position * SlotWidth && 10 <= ps[i].zIndex <= 30
    ensures forall i, j :: 0 <= i < j < ThemeCount ==> ps[i].position != ps[j].position
    ensures forall i :: 0 <= i < ThemeCount ==>
      ps[i].position == Position(i, active) && ps[i].xOffset == XOffset(ps[i].position)
      && ps[i].zIndex == ZIndex(ps[i].position)
  {
    seq(ThemeCount, i requires 0 <= i < ThemeCount =>
      var p := Position(i, active);
      Placement(p, XOffset(p), ZIndex(p)))
  }

  /** The carousel's state: the index of the centre theme. */
  class ThemeCarousel {
    var activeIndex: int

    predicate Valid()
      reads this
    {
      0 <= activeIndex < ThemeCount
    }

    constructor ()
      ensures Valid() && activeIndex == InitialIndex
    {
      activeIndex := InitialIndex;
    }

    /** The right arrow (`handleNext`). */
    method HandleNext()
      requires Valid()
      modifies this
      ensures Valid()
      ensures activeIndex == Ring.Next(old(activeIndex), ThemeCount)
    {
      activeIndex := (activeIndex + 1) % ThemeCount;
    }

    /** The left arrow (`handlePrev`). */
    method HandlePrev()
      requires Valid()
      modifies this
      ensures Valid()
      ensures activeIndex == Ring.Prev(old(activeIndex), ThemeCount)
    {
      activeIndex := (activeIndex - 1 + ThemeCount) % ThemeCount;
    }

    /** The slot of theme `index` in the current state. */
    function SlotOf(index: int): (p: int)
      reads this
      requires Valid() && 0 <= index < ThemeCount
      ensures -2 <= p <= 2
      ensures p == 0 <==> index == activeIndex
    {
      Position(index, activeIndex)
    }
  }
}
