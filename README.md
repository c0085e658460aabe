# HackJKLU v5.0 site: the integer and sequence rules, in Dafny

The site is a set of animated React sections. Under the presentation there are a few precise rules, and this project models them and proves their properties:

- **Carousels.** The themes page has a ring of five scrolls. The prizes section has a ring of three prizes. Both have "next" and "previous" arrows that step an index modulo the ring (`Ring`, `Themes`, `Prizes`). The themes page also maps every theme to a slot in -2..2, and each slot has a horizontal offset and a stacking order.
- **Partner sections.** `currentSection` moves one step at a time on a wheel event or an arrow key, or jumps on an indicator click. A switch starts a one-second animation. While it runs, `isAnimating` blocks all further wheel and key input. The timeout that ends the animation is modelled as the explicit `FinishAnimation` event (`PartnersSections`).
- **FAQ.** Hall lookup falls back to the first hall. The search keeps, across all halls, the questions whose lower-cased question or answer contains the lower-cased query, and drops halls left with no question. Changing hall resets the view. The accordion keeps at most one answer open (`Faq`).
- **Countdown.** A millisecond distance is split into days, hours, minutes and seconds. Each part is shown as `String(n).padStart(2, '0')` (`Hero`, `Decimal`). Each firing of the interval timer is the explicit `Tick(distance)` event.
- **Team graph.** `generateNodesAndEdges` places 3 heads and 17 committee members on fixed integer coordinates. It pushes one edge from every head to every committee member (`Team`).
- **Photo gallery.** Each photo gets a grid cell from its index, a caption that cycles through twelve, and a stacking order in 1..50 drawn at random (`PastPhotos`).

React state (`useState`) becomes class fields, and each `setX` becomes an assignment in a method. Each method's `ensures` ties the new state to a pure function of the old state. The properties are proved about those functions. The current time and `Math.random()` become parameters: the countdown takes `distance` as input, and the gallery takes one draw in [0, 1) per photo.

Two facts about the modelled code:

- **Hidden slot.** The themes render loop skips a slot outside -2..2 unless the slot is the hidden value 100. So a hidden theme would still be drawn. With five themes the slot function never returns 100 (`Themes.Position`), so this never happens.
- **Accordion toggle.** Toggling the same question twice restores the accordion only when no question or that same question was open. If another question was open, the first toggle closes it, so after the second toggle nothing is open (`Faq.ToggleTwiceClosesOther`). This is how an accordion is meant to behave, so it is not listed as a bug.

## Model

| member | source | states |
|---|---|---|
| Ring.Next | src/pages/Themes.tsx:96-98 | `(i + 1) % n` stays in `[0, n)` and is `i + 1`, or 0 after the last item |
| Ring.Prev | src/pages/Themes.tsx:100-102 | `(i - 1 + n) % n` stays in `[0, n)` and is `i - 1`, or `n - 1` before the first item |
| Ring.PrevAfterNext | src/pages/Themes.tsx:96-102 | "previous" after "next" restores the index |
| Ring.NextAfterPrev | src/pages/Themes.tsx:96-102 | "next" after "previous" restores the index |
| Ring.NextN | src/pages/Themes.tsx:96-98 | `k` presses of "next" give an index in range |
| Ring.NextNIsShift | src/pages/Themes.tsx:96-98 | within one turn, `k` presses advance the index by `k` and wrap at most once |
| Ring.NextNCompose | src/pages/Themes.tsx:96-98 | `a` presses then `b` presses equal `a + b` presses |
| Ring.FullCycle | src/pages/Themes.tsx:96-98 | pressing "next" once per item is the identity |
| Ring.NextNPeriodic | src/pages/Themes.tsx:96-98 | the effect of `k` presses repeats with period `n` |
| Themes.Position | src/pages/Themes.tsx:105-113 | `getPosition` returns a slot in -2..2, never the hidden 100, and returns 0 exactly for the active theme |
| Themes.ThemeAtSlot | src/pages/Themes.tsx:105-113 | every slot -2..2 is occupied by some theme |
| Themes.PositionBijective | src/pages/Themes.tsx:105-113 | a theme is in slot `p` if and only if it is the theme at slot `p`, so the map is one-to-one and onto |
| Themes.PositionInjective | src/pages/Themes.tsx:105-113 | no two themes share a slot |
| Themes.PositionAfterNext | src/pages/Themes.tsx:96-113 | after "next", every slot shifts down by one around the ring, and the theme at slot 1 becomes the centre |
| Themes.PositionAfterPrev | src/pages/Themes.tsx:96-113 | after "previous", every slot shifts up by one around the ring, and the theme at slot -1 becomes the centre |
| Themes.XOffset | src/pages/Themes.tsx:209-212 | the offset is `position * 280`, and it is 0 only in the centre |
| Themes.ZIndex | src/pages/Themes.tsx:209-214 | the stacking order is 30, 20 or 10 for distance 0, 1 or 2 from the centre |
| Themes.ZIndexDecreasesOutwards | src/pages/Themes.tsx:209-214 | a slot nearer the centre stacks strictly higher, and only then |
| Themes.Drawn | src/pages/Themes.tsx:207 | every slot in -2..2 is drawn, the hidden slot 100 is drawn too, and slots 3 and -3 are skipped |
| Themes.Layout | src/pages/Themes.tsx:205-214 | all five themes are drawn in distinct slots; theme `i` sits in slot `Position(i, active)` with that slot's offset and z-index, and the active one at offset 0 and z-index 30 |
| Themes.ThemeCarousel.constructor | src/pages/Themes.tsx:94 | the carousel starts at index 2 |
| Themes.ThemeCarousel.HandleNext | src/pages/Themes.tsx:96-98 | the index becomes `Ring.Next` of the old index and stays in `[0, 5)` |
| Themes.ThemeCarousel.HandlePrev | src/pages/Themes.tsx:100-102 | the index becomes `Ring.Prev` of the old index and stays in `[0, 5)` |
| Themes.ThemeCarousel.SlotOf | src/pages/Themes.tsx:105-107 | in the current state, the active theme alone is in slot 0 |
| Prizes.InitialIsFirstPrize | src/components/sections/Prizes.tsx:22-70 | the section opens on the first prize, which is in the middle of `mainPrizes` |
| Prizes.PrevIndex | src/components/sections/Prizes.tsx:101 | `prevIndex` is a valid index into `mainPrizes` and differs from the active one |
| Prizes.NextIndex | src/components/sections/Prizes.tsx:102 | `nextIndex` is a valid index into `mainPrizes` and differs from the active one |
| Prizes.NeighboursPartition | src/components/sections/Prizes.tsx:98-102 | previous, active and next are pairwise distinct and together are all three prizes |
| Prizes.RotationAfterNext | src/components/sections/Prizes.tsx:88-102 | after "next", the new previous is the old active and the new next is the old previous |
| Prizes.RotationAfterPrev | src/components/sections/Prizes.tsx:92-102 | after "previous", the new next is the old active and the new previous is the old next |
| Prizes.PrizeCarousel.constructor | src/components/sections/Prizes.tsx:70 | the carousel starts at index 1 |
| Prizes.PrizeCarousel.HandleNext | src/components/sections/Prizes.tsx:88-90 | the index steps forward in `[0, 3)`, and the new `prevIndex` is the old index |
| Prizes.PrizeCarousel.HandlePrev | src/components/sections/Prizes.tsx:92-94 | the index steps back in `[0, 3)`, and the new `nextIndex` is the old index |
| PartnersSections.IdsAreIndices | src/components/sections/PartnersSections.tsx:63-130 | there are four sections, and each section's id is its own index |
| PartnersSections.Switch | src/components/sections/PartnersSections.tsx:137-142 | the state changes if and only if no animation is running and the target differs from the shown section; a change shows the target and starts the animation |
| PartnersSections.Finish | src/components/sections/PartnersSections.tsx:141 | the timeout clears `isAnimating` and keeps the section |
| PartnersSections.Wheel | src/components/sections/PartnersSections.tsx:145-153 | the section stays in `[0, 3]`; it moves +1 exactly when scrolling down below the last section and -1 exactly when scrolling up above the first, and never while animating or at `deltaY == 0` |
| PartnersSections.KeyDown | src/components/sections/PartnersSections.tsx:155-162 | ArrowDown moves one section down and ArrowUp one up, exactly when no animation runs and the move stays in range; the section never moves by more than one, a move starts the animation, and every other key changes nothing |
| PartnersSections.Click | src/components/sections/PartnersSections.tsx:137-186 | an indicator click is `switchSection` of that dot's index, because each section's id is its index; when no animation is running it shows that section and, if it differs from the shown one, starts the animation |
| PartnersSections.WheelMatchesKeys | src/components/sections/PartnersSections.tsx:145-162 | scrolling down acts as ArrowDown and scrolling up acts as ArrowUp, in every state |
| PartnersSections.WheelDownThenUp | src/components/sections/PartnersSections.tsx:137-153 | once the animation ends, a step down then a step up returns to the section that was shown |
| PartnersSections.SectionNavigator.constructor | src/components/sections/PartnersSections.tsx:133-134 | the page starts at section 0 with no animation |
| PartnersSections.SectionNavigator.Shown | src/components/sections/PartnersSections.tsx:197-200 | `partnersData[currentSection]` is always defined, and its id is the current section |
| PartnersSections.SectionNavigator.SwitchSection | src/components/sections/PartnersSections.tsx:137-142 | the new state is `Switch` of the old state |
| PartnersSections.SectionNavigator.FinishAnimation | src/components/sections/PartnersSections.tsx:141 | the new state is `Finish` of the old state |
| PartnersSections.SectionNavigator.HandleWheel | src/components/sections/PartnersSections.tsx:145-153 | the new state is `Wheel` of the old state |
| PartnersSections.SectionNavigator.HandleKeyDown | src/components/sections/PartnersSections.tsx:155-162 | the new state is `KeyDown` of the old state |
| PartnersSections.SectionNavigator.ClickIndicator | src/components/sections/PartnersSections.tsx:183-186 | the new state is `Click` of the old state |
| Faq.LowerChar | src/components/sections/FAQ.tsx:206-207 | an upper-case ASCII letter maps to its lower-case letter, and any other character is unchanged |
| Faq.Lower | src/components/sections/FAQ.tsx:206-207 | lower-casing keeps the length and maps every character |
| Faq.LowerIdempotent | src/components/sections/FAQ.tsx:206-207 | lower-casing twice is lower-casing once |
| Faq.Includes | src/components/sections/FAQ.tsx:206-207 | the empty query is found in every text, a text contains itself, and a found query is never longer than the text |
| Faq.IncludesIffOccurs | src/components/sections/FAQ.tsx:206-207 | `includes` is true if and only if the query occurs at some position of the text |
| Faq.Matches | src/components/sections/FAQ.tsx:205-207 | a question matches exactly when the lower-cased query occurs somewhere in its lower-cased question or lower-cased answer |
| Faq.FilterQuestions | src/components/sections/FAQ.tsx:205-208 | keeps exactly the matching questions, each as often as it occurs, in their original order |
| Faq.Narrow | src/components/sections/FAQ.tsx:203-208 | the narrowed hall keeps its id and name, and its questions are exactly the matching ones, each as often as it occurs, in their original order |
| Faq.NarrowAll | src/components/sections/FAQ.tsx:203-208 | every hall is kept, in order, narrowed to its matching questions |
| Faq.KeepNonEmpty | src/components/sections/FAQ.tsx:209 | keeps exactly the halls that still have questions, each as often as it occurs, in order |
| Faq.SearchHalls | src/components/sections/FAQ.tsx:202-209 | the search view is an order-preserving filter of the narrowed halls that keeps each non-empty one as often as it occurs, and every hall in it has a question |
| Faq.SearchIsSound | src/components/sections/FAQ.tsx:203-209 | every question shown by a search matches the query and comes from a hall with the same id |
| Faq.SearchIsComplete | src/components/sections/FAQ.tsx:203-209 | every matching question of every hall is shown by the search, under its hall |
| Faq.Find | src/components/sections/FAQ.tsx:199 | `find` returns nothing exactly when no hall has the id; otherwise it returns the first hall with the id |
| Faq.ActiveHall | src/components/sections/FAQ.tsx:199 | returns the hall whose id matches when there is one, and `halls[0]` otherwise |
| Faq.FilteredHalls | src/components/sections/FAQ.tsx:202-210 | with an empty query the view is `[activeHall]`; with a non-empty one it is the search view, every hall shown has questions, and all of them match |
| Faq.HallsData | src/components/sections/FAQ.tsx:40-113 | the four hall ids are distinct, and the section opens on the Hall of Zeus |
| Faq.AllQuestions | src/components/sections/FAQ.tsx:40-113 | a question is listed exactly when it belongs to one of the halls |
| Faq.QuestionIdsDistinct | src/components/sections/FAQ.tsx:40-113 | the twelve question ids, which key the open answer, are pairwise distinct, so an open id opens one question only |
| Faq.Toggle | src/components/sections/FAQ.tsx:355 | toggling opens the question if and only if it was not open, closes it if and only if it was, and never leaves another question open |
| Faq.ToggleTwice | src/components/sections/FAQ.tsx:355 | toggling twice restores the state when no question or the same question was open |
| Faq.ToggleTwiceClosesOther | src/components/sections/FAQ.tsx:425 | toggling twice while another question was open leaves every question closed |
| Faq.FaqView.constructor | src/components/sections/FAQ.tsx:195-197 | the section starts on the Zeus hall with no query and nothing open |
| Faq.FaqView.Shown | src/components/sections/FAQ.tsx:202-210 | with no query, exactly `[activeHall]`, one hall of the data; with a query, the search view of the data |
| Faq.FaqView.IsOpen | src/components/sections/FAQ.tsx:354-355 | `isOpen` and `onToggle` use the same comparison: an open question closes on its click and a closed one opens |
| Faq.FaqView.HandleHallChange | src/components/sections/FAQ.tsx:212-216 | sets the hall, clears the query, closes the open answer and shows `[activeHall]` |
| Faq.FaqView.SetSearchQuery | src/components/sections/FAQ.tsx:269 | sets the query and changes nothing else |
| Faq.FaqView.ToggleQuestion | src/components/sections/FAQ.tsx:425 | the open answer becomes `Toggle` of the old one, nothing else changes, and at most one answer is open |
| Decimal.FromNat | src/components/sections/Hero.tsx:381 | `String(n)` is one or more digits without a leading zero; it has one digit exactly below 10 and at most two exactly below 100 |
| Decimal.ValueOfFromNat | src/components/sections/Hero.tsx:381 | reading the text of `n` back gives `n` |
| Decimal.FromNatInjective | src/components/sections/Team.tsx:81 | different numbers have different texts |
| Decimal.PadStart | src/components/sections/Hero.tsx:381 | `padStart(target, c)` has length `max(len, target)`, ends with the input and is pad characters before it |
| Decimal.LeadingZero | src/components/sections/Hero.tsx:381 | a leading '0' does not change the value of the digits |
| Decimal.TwoDigits | src/components/sections/Hero.tsx:381 | `padStart(2, '0')` gives a leading '0' below 10 and exactly two digits below 100, leaves longer texts unchanged, and keeps the value |
| Hero.Decompose | src/components/sections/Hero.tsx:23-32 | hours < 24, minutes < 60 and seconds < 60; the parts rebuild the distance to within the dropped sub-second rest; all four parts are 0 when `distance <= 0` |
| Hero.DecomposeRecomposes | src/components/sections/Hero.tsx:25-28 | the four floor/mod quotients are in range and sum to the distance, less under a second |
| Hero.UniqueSplit | src/components/sections/Hero.tsx:25-28 | every quotient and remainder the timer callback computes fits one split `distance = total + rest` |
| Hero.DecomposeUnique | src/components/sections/Hero.tsx:25-28 | the days/hours/minutes/seconds split is the only in-range tuple that rebuilds the distance to within a second |
| Hero.Display | src/components/sections/Hero.tsx:381-468 | each of the four boxes is all digits and reads back as its number |
| Hero.DisplayWidths | src/components/sections/Hero.tsx:381-468 | every box shows at least two digits; hours, minutes and seconds show exactly two; days show exactly two below 100 |
| Hero.Pad2 | src/components/sections/Hero.tsx:381 | the padded text is all digits, reads back as `n`, and has length 2 exactly when `n < 100` |
| Hero.Countdown.constructor | src/components/sections/Hero.tsx:6-11 | the countdown starts at zero |
| Hero.Countdown.Tick | src/components/sections/Hero.tsx:19-33 | each firing stores `Decompose(distance)` |
| Hero.Countdown.Shown | src/components/sections/Hero.tsx:381-468 | the four boxes are `Display` of the stored countdown, so each is all digits and reads back as the stored days, hours, minutes and seconds |
| Team.GenerateNodesAndEdges | src/components/sections/Team.tsx:68-150 | 20 nodes, heads first, then committees; 51 edges, where position `3c + h` is the edge from head `h` to committee member `c` |
| Team.HeadId | src/components/sections/Team.tsx:81 | the id is `head-` followed by the decimal text of the index |
| Team.CommitteeId | src/components/sections/Team.tsx:109 | the id is `committee-` followed by the decimal text of the index |
| Team.HeadNode | src/components/sections/Team.tsx:80-94 | a head node has the head's id, is marked as a head, and stands at y = 50 with x a multiple of 450 in -450..450 |
| Team.CommitteeNode | src/components/sections/Team.tsx:108-130 | a committee node has the member's id and role and is not a head; members 0..8 stand at y = 450 within -1120..1120, the rest at y = 750 within -980..980 |
| Team.NodeAt | src/components/sections/Team.tsx:80-130 | the node pushed at position `k` is a head exactly when `k < 3` |
| Team.EdgeOf | src/components/sections/Team.tsx:132-146 | the edge runs from the head's id to the committee member's id, and its id is `edge-<source>-<target>` |
| Team.EdgeAt | src/components/sections/Team.tsx:132-146 | the edge pushed at position `k` runs from head `k mod 3` to committee member `k div 3`, both in range |
| Team.EdgeAtIsPair | src/components/sections/Team.tsx:132-146 | the edge order lists the pair (h, c) at position `3c + h` |
| Team.HeadLayout | src/components/sections/Team.tsx:75-84 | heads are at y = 50 and x = -450, 0, 450: spaced by 450 and symmetric about 0 |
| Team.CommitteeLayout | src/components/sections/Team.tsx:98-119 | committee members 0..8 are at y = 450 and 9..16 at y = 750; each row is spaced by 280, and `x_k + x_{n-1-k} == 0` |
| Team.DistinctPositions | src/components/sections/Team.tsx:75-119 | no two nodes share a position |
| Team.HeadIdInjective | src/components/sections/Team.tsx:81 | `head-${i}` determines `i` |
| Team.CommitteeIdInjective | src/components/sections/Team.tsx:109 | `committee-${i}` determines `i` |
| Team.NodeIdsUnique | src/components/sections/Team.tsx:80-130 | the 20 node ids are pairwise distinct |
| Team.EdgesJoinHeadsToCommittees | src/components/sections/Team.tsx:132-146 | every edge's source is an existing head node's id and its target an existing committee node's id |
| Team.EdgePairsUnique | src/components/sections/Team.tsx:132-146 | an edge's endpoints determine its position, so each pair is joined exactly once |
| PastPhotos.ZIndexOf | src/components/sections/PastPhotos.tsx:29 | `floor(r * 50) + 1` lies in 1..50 for every draw `r` in [0, 1) |
| PastPhotos.PhotoAt | src/components/sections/PastPhotos.tsx:14-30 | the column is in 0..4, `row * 5 + col` is the index, the caption is one of the twelve, and the z-index is in 1..50 |
| PastPhotos.Photos | src/components/sections/PastPhotos.tsx:13-31 | there is one record per image, in image order, each with the cell and z-index bounds above |
| PastPhotos.CellUnique | src/components/sections/PastPhotos.tsx:16-18 | no two photos share a cell |
| PastPhotos.CaptionsCycle | src/components/sections/PastPhotos.tsx:7-23 | photo `i` has caption `i mod 12`, always in range, and captions repeat with period 12 |

## Left out

- The Hero Three.js scene, its particle system and its bounds wrapping: these use WebGL, `Math.random` and floating-point positions.
- The countdown's target date, built with `Date.setDate`: this is calendar and clock behaviour. `Tick` takes `distance` as its input instead.
- `setInterval` and `setTimeout`: real timing is not modelled. They become the explicit events `Tick` and `FinishAnimation`. A pending timeout is not tracked, so `FinishAnimation` may fire at any time.
- `e.preventDefault()` in the wheel handler, and adding and removing the event listeners: these are browser plumbing.
- Partner sections: the descriptions, logos and socials, the floating-point `bgPosition`, the `isMobile` resize handling and the hover state.
- PastPhotos: the random `top`/`left`/`rotation` strings and the animation delay are floating point and random. The images come from a build-time glob, so the model takes them as a parameter.
- Themes and Prizes: scale, rotateY, width and filter values, which are presentation only. The theme texts and the `domainPrizes` list, which are static content.
- Team: the image URLs, the node `type`, the edge style and the React Flow rendering.
- FAQ: the questions' `related` field, the halls' icons, subtitles, descriptions and colours, and the "no results" message.
- compress_images.py: file-system and image-library calls, with a floating-point resize ratio.
- src/utils/performance.ts: IndexedDB caching, IntersectionObserver and frame-rate counting.
- The components under src/components/3d, Layout, CloudTest, CloudTransition, Story, Characters and PartnerCard: presentation only, or trivial boolean toggles.
- App.tsx, vite.config.ts, src/types/r3f.d.ts and src/pages/Partners.tsx: routing, build configuration, typings and composition only.
- Faq.LowerChar: only ASCII A–Z is lower-cased. JavaScript's `toLowerCase` also folds non-ASCII letters, and the model has no Unicode case tables.
- PartnersSections.SectionNavigator.SwitchSection: requires a target in `[0, 4)`. `switchSection` does not check its argument itself, but every caller passes an in-range index.
- PastPhotos.Photos: takes the `Math.random()` draws as a parameter, one per photo, and models only the draw that sets the z-index.
