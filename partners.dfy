/** The partners page: four full-screen sections, one shown at a time. The
    wheel, the up/down arrow keys and a column of indicator dots switch
    sections; each switch starts a one-second animation during which further
    wheel and key input is ignored. */
module PartnersSections {

  datatype Kind = Standard | Grid

  /** One entry of `partnersData`; only what navigation depends on. */
  datatype Section = Section(id: int, kind: Kind, title: string)

  const PartnersData: seq<Section> := [
    Section(0, Standard, "GOLD PARTNER"),
    Section(1, Standard, "PRE-HACKATHON PARTNER"),
    Section(2, Grid, "SILVER & BRONZE PARTNERS"),
    Section(3, Standard, "COMMUNITY PARTNERS")
  ]

  /** Every section's id is its own position in `partnersData`. */
  lemma IdsAreIndices()
    ensures |PartnersData| == 4
    ensures forall i :: 0 <= i < |PartnersData| ==> PartnersData[i].id == i
  {
  }

  predicate InRange(n: int) { 0 <= n < |PartnersData| }

  /** The navigation state: `currentSection` and `isAnimating`. */
  datatype Nav = Nav(current: int, animating: bool)

  /** The state the page starts in. */
  const Initial := Nav(0, false)

  /** `switchSection(target)`: ignored while animating or when `target` is
      already shown; otherwise shows `target` and starts the animation. */
  function Switch(s: Nav, target: int): (t: Nav)
    ensures s.animating ==> t == s
    ensures t.current == s.current ==> t == s
    ensures t != s <==> !s.animating && target != s.current
    ensures t != s ==> t.current == target && t.animating
  {
    if s.animating || target == s.current then s else Nav(target, true)
  }

  /** The animation timeout firing: the only event that clears `isAnimating`. */
  function Finish(s: Nav): (t: Nav)
    ensures t.current == s.current && !t.animating
  {
    Nav(s.current, false)
  }

  /** A wheel event with vertical delta `deltaY`: scrolling down advances one
      section unless the last is shown, scrolling up goes back one unless the
      first is shown. */
  function Wheel(s: Nav, deltaY: real): (t: Nav)
    requires InRange(s.current)
    ensures InRange(t.current)
    ensures s.animating || deltaY == 0.0 ==> t == s
    ensures t.current == s.current + 1 <==>
      !s.animating && deltaY > 0.0 && s.current < |PartnersData| - 1
    ensures t.current == s.current - 1 <==>
      !s.animating && deltaY < 0.0 && s.current > 0
    ensures t.current == s.current || t.current == s.current + 1 || t.current == s.current - 1
    ensures t.current == s.current ==> t == s
    ensures t != s ==> t.animating
  {
    if s.animating then s
    else if deltaY > 0.0 && s.current < |PartnersData| - 1 then Switch(s, s.current + 1)
    else if deltaY < 0.0 && s.current > 0 then Switch(s, s.current - 1)
    else s
  }

  /** A key press: ArrowDown and ArrowUp follow the wheel's bounded one-step
      rule; every other key is ignored. */
  function KeyDown(s: Nav, key: string): (t: Nav)
    requires InRange(s.current)
    ensures InRange(t.current)
    ensures s.animating || (key != "ArrowDown" && key != "ArrowUp") ==> t == s
    ensures t.current == s.current + 1 <==>
      !s.animating && key == "ArrowDown" && s.current < |PartnersData| - 1
    ensures t.current == s.current - 1 <==>
      !s.animating && key == "ArrowUp" && s.current > 0
    ensures t.current == s.current || t.current == s.current + 1 || t.current == s.current - 1
    ensures t.current == s.current ==> t == s
    ensures t != s ==> t.animating
  {
    if s.animating then s
    else if key == "ArrowDown" && s.current < |PartnersData| - 1 then Switch(s, s.current + 1)
    else if key == "ArrowUp" && s.current > 0 then Switch(s, s.current - 1)
    else s
  }

  /** A click on the indicator dot of section `i`: targets that section's id. */
  function Click(s: Nav, i: int): (t: Nav)
    requires InRange(i)
    ensures InRange(s.current) ==> InRange(t.current)
    ensures !s.animating ==> t.current == i
    ensures s.animating ==> t == s
    ensures t == Switch(s, i)
    ensures !s.animating && s.current != i ==> t.animating
  {
    IdsAreIndices();
    Switch(s, PartnersData[i].id)
  }

  /** Scrolling down and pressing ArrowDown have the same effect, and so do
      scrolling up and pressing ArrowUp. */
  lemma WheelMatchesKeys(s: Nav, deltaY: real)
    requires InRange(s.current)
    ensures deltaY > 0.0 ==> Wheel(s, deltaY) == KeyDown(s, "ArrowDown")
    ensures deltaY < 0.0 ==> Wheel(s, deltaY) == KeyDown(s, "ArrowUp")
  {
  }

  /** Once the animation has finished, a wheel step down and a wheel step up
      bring back the section that was shown, unless it was the last one. */
  lemma WheelDownThenUp(s: Nav)
    requires InRange(s.current) && !s.animating && s.current < |PartnersData| - 1
    ensures Wheel(Finish(Wheel(s, 1.0)), -1.0).current == s.current
  {
  }

  /** The page's navigation state. */
  class SectionNavigator {
    var currentSection: int
    var isAnimating: bool

    predicate Valid()
      reads this
    {
      InRange(currentSection)
    }

    function State(): Nav
      reads this
    {
      Nav(currentSection, isAnimating)
    }

    constructor ()
      ensures Valid() && State() == Initial
    {
      currentSection, isAnimating := 0, false;
    }

    /** The section shown: `partnersData[currentSection]`, always defined. */
    function Shown(): (d: Section)
      reads this
      requires Valid()
      ensures d in PartnersData && d.id == currentSection
    {
      PartnersData[currentSection]
    }

    /** `switchSection`, whose callers all pass an index of `partnersData`. */
    method SwitchSection(nextSection: int)
      requires Valid() && InRange(nextSection)
      modifies this
      ensures Valid() && State() == Switch(old(State()), nextSection)
    {
      if isAnimating || nextSection == currentSection {
        return;
      }
      isAnimating := true;
      currentSection := nextSection;
    }

    /** The timeout set by `switchSection` firing a second later. */
    method FinishAnimation()
      requires Valid()
      modifies this
      ensures Valid() && State() == Finish(old(State()))
    {
      isAnimating := false;
    }

    /** `handleWheel`. */
    method HandleWheel(deltaY: real)
      requires Valid()
      modifies this
      ensures Valid() && State() == Wheel(old(State()), deltaY)
    {
      if isAnimating {
        return;
      }
      if deltaY > 0.0 && currentSection < |PartnersData| - 1 {
        SwitchSection(currentSection + 1);
      } else if deltaY < 0.0 && currentSection > 0 {
        SwitchSection(currentSection - 1);
      }
    }

    /** `handleKeyDown`. */
    method HandleKeyDown(key: string)
      requires Valid()
      modifies this
      ensures Valid() && State() == KeyDown(old(State()), key)
    {
      if isAnimating {
        return;
      }
      if key == "ArrowDown" && currentSection < |PartnersData| - 1 {
        SwitchSection(currentSection + 1);
      } else if key == "ArrowUp" && currentSection > 0 {
        SwitchSection(currentSection - 1);
      }
    }

    /** The `onClick` of the indicator dot for `partnersData[i]`. */
    method ClickIndicator(i: int)
      requires Valid() && InRange(i)
      modifies this
      ensures Valid() && State() == Click(old(State()), i)
    {
      IdsAreIndices();
      SwitchSection(PartnersData[i].id);
    }
  }
}
