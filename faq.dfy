/** The FAQ section: four "halls" of questions. One hall is shown at a time;
    a non-empty search query instead shows, across all halls, the questions
    whose text contains the query, ignoring case; at most one question's
    answer is open. */
module Faq {

  datatype Option<T> = None | Some(value: T)

  datatype Question = Question(id: string, q: string, a: string)

  /** A hall; its icon, subtitle, description and colours are not modelled. */
  datatype Hall = Hall(id: string, name: string, questions: seq<Question>)

  const Halls: seq<Hall> := [
    Hall("zeus", "Hall of Zeus", [
      Question("z1", "Who can participate?", "Any student with a valid ID card from a recognized institute can participate. Both undergraduate and postgraduate students are welcome into the arena."),
      Question("z2", "Do I need prior experience?", "No! The gods favor the bold. Beginners are welcome, and we have mentors to guide you through your first odyssey."),
      Question("z3", "What are the eligibility criteria?", "You must be a verified student. Teams can have 1-5 members. Inter-college teams are allowed.")
    ]),
    Hall("athena", "Hall of Athena", [
      Question("a1", "What is the team size?", "You can form an alliance of 1 to 5 members. Choose your companions wisely."),
      Question("a2", "Will accommodation be provided?", "Yes, for our offline champions. Food and shelter will be provided within the campus grounds during the event."),
      Question("a3", "What is the event schedule?", "The hackathon is a 36-hour marathon. Detailed timelines will be revealed in the Hall of Apollo closer to the date.")
    ]),
    Hall("hephaestus", "Hall of Hephaestus", [
      Question("h1", "Do we need specific tech stacks?", "No specific stack is mandated. You are free to forge your creation using any tools or languages you prefer."),
      Question("h2", "What are the judging criteria?", "Innovation, Technical Complexity, Practicality, and Presentation. Impress the judges with a complete, working prototype."),
      Question("h3", "How do we submit our work?", "Submissions will be managed via Devfolio/GitHub. Ensure your repository is public and well-documented.")
    ]),
    Hall("apollo", "Hall of Apollo", [
      Question("ap1", "When is the registration deadline?", "The oracle decrees that registrations close 2 days before the event. Act swiftly!"),
      Question("ap2", "Is there a registration fee?", "No tribute is required. HACKJKLU 5.0 is completely free for all participants."),
      Question("ap3", "What is the timeline?", "The event happens on [Date]. Hacking begins at [Time] and ends 36 hours later.")
    ])
  ]

  /** The hall shown when the section opens. */
  const InitialHallId := "zeus"

  // ---------------------------------------------------------------------
  // Case-insensitive substring search

  /** `toLowerCase` on one character (ASCII letters only). */
  function LowerChar(c: char): (d: char)
    ensures 'A' <= c <= 'Z' ==> 'a' <= d <= 'z' && d as int == c as int + 32
    ensures !('A' <= c <= 'Z') ==> d == c
  {
    if 'A' <= c <= 'Z' then (c as int + 32) as char else c
  }

  /** `s.toLowerCase()`. */
  function Lower(s: string): (r: string)
    ensures |r| == |s|
    ensures forall i :: 0 <= i < |s| ==> r[i] == LowerChar(s[i])
  {
    seq(|s|, i requires 0 <= i < |s| => LowerChar(s[i]))
  }

  /** Lower-casing twice is lower-casing once, so comparing lower-cased
      texts against a lower-cased query is stable. */
  lemma LowerIdempotent(s: string)
    ensures Lower(Lower(s)) == Lower(s)
  {
  }

  /** `sub` occurs in `s` starting at position `i`. */
  predicate OccursAt(s: string, sub: string, i: int)
  {
    0 <= i && i + |sub| <= |s| && s[i..i + |sub|] == sub
  }

  /** `s.includes(sub)`: scans for a position where `sub` starts. */
  function Includes(s: string, sub: string): (r: bool)
    ensures sub == [] ==> r
    ensures s == sub ==> r
    ensures r ==> |sub| <= |s|
    decreases |s|
  {
    if |sub| > |s| then false
    else if s[..|sub|] == sub then true
    else Includes(s[1..], sub)
  }

  /** The scan finds `sub` exactly when it occurs somewhere in `s`. */
  lemma {:induction false} IncludesIffOccurs(s: string, sub: string)
    ensures Includes(s, sub) <==> exists i :: OccursAt(s, sub, i)
    decreases |s|
  {
    if |sub| > |s| {
    } else if s[..|sub|] == sub {
      assert OccursAt(s, sub, 0);
    } else {
      IncludesIffOccurs(s[1..], sub);
      if i :| OccursAt(s[1..], sub, i) {
        assert s[i + 1..i + 1 + |sub|] == s[1..][i..i + |sub|];
        assert OccursAt(s, sub, i + 1);
      }
      if i :| OccursAt(s, sub, i) {
        assert i != 0;
        assert s[1..][i - 1..i - 1 + |sub|] == s[i..i + |sub|];
        assert OccursAt(s[1..], sub, i - 1);
      }
    }
  }

  /** The question filter: the lower-cased query occurs in the lower-cased
      question or in the lower-cased answer. */
  predicate Matches(x: Question, query: string)
    ensures Matches(x, query) <==>
      (exists i :: OccursAt(Lower(x.q), Lower(query), i)) ||
      (exists i :: OccursAt(Lower(x.a), Lower(query), i))
  {
    IncludesIffOccurs(Lower(x.q), Lower(query));
    IncludesIffOccurs(Lower(x.a), Lower(query));
    Includes(Lower(x.q), Lower(query)) || Includes(Lower(x.a), Lower(query))
  }

  /** `a` is `b` with some elements left out, the rest in their original order. */
  predicate IsSubsequence<T(==)>(a: seq<T>, b: seq<T>)
    decreases |b|
  {
    if a == [] then true
    else if b == [] then false
    else (a[0] == b[0] && IsSubsequence(a[1..], b[1..])) || IsSubsequence(a, b[1..])
  }

  /** `questions.filter(...)`: keeps exactly the matching questions, each as
      often as it occurs, in their original order. */
  function FilterQuestions(qs: seq<Question>, query: string): (r: seq<Question>)
    ensures forall x :: x in r <==> x in qs && Matches(x, query)
    ensures forall x :: multiset(r)[x] == if Matches(x, query) then multiset(qs)[x] else 0
    ensures IsSubsequence(r, qs)
    decreases |qs|
  {
    if qs == [] then []
    else
      assert qs == [qs[0]] + qs[1..];
      var rest := FilterQuestions(qs[1..], query);
      if Matches(qs[0], query) then
        var r := [qs[0]] + rest;
        assert r[1..] == rest;
        r
      else
        rest
  }

  /** The hall with only its questions that match. */
  function Narrow(h: Hall, query: string): (r: Hall)
    ensures r.id == h.id && r.name == h.name
    ensures forall x :: x in r.questions <==> x in h.questions && Matches(x, query)
    ensures forall x ::
      multiset(r.questions)[x] == if Matches(x, query) then multiset(h.questions)[x] else 0
    ensures IsSubsequence(r.questions, h.questions)
  {
    h.(questions := FilterQuestions(h.questions, query))
  }

  /** `halls.map(...)`: every hall narrowed to its matching questions. */
  function NarrowAll(halls: seq<Hall>, query: string): (r: seq<Hall>)
    ensures |r| == |halls|
    ensures forall i :: 0 <= i < |halls| ==> r[i] == Narrow(halls[i], query)
  {
    seq(|halls|, i requires 0 <= i < |halls| => Narrow(halls[i], query))
  }

  /** `.filter(h => h.questions.length > 0)`. */
  function KeepNonEmpty(hs: seq<Hall>): (r: seq<Hall>)
    ensures forall h :: h in r <==> h in hs && |h.questions| > 0
    ensures forall h :: multiset(r)[h] == if |h.questions| > 0 then multiset(hs)[h] else 0
    ensures IsSubsequence(r, hs)
    decreases |hs|
  {
    if hs == [] then []
    else
      assert hs == [hs[0]] + hs[1..];
      var rest := KeepNonEmpty(hs[1..]);
      if |hs[0].questions| > 0 then
        var r := [hs[0]] + rest;
        assert r[1..] == rest;
        r
      else
        rest
  }

  /** The search view's halls. */
  function SearchHalls(halls: seq<Hall>, query: string): (r: seq<Hall>)
    ensures forall h :: h in r ==> |h.questions| > 0
    ensures IsSubsequence(r, NarrowAll(halls, query))
    ensures forall h :: h in r <==> h in NarrowAll(halls, query) && |h.questions| > 0
    ensures forall h ::
      multiset(r)[h] == if |h.questions| > 0 then multiset(NarrowAll(halls, query))[h] else 0
  {
    KeepNonEmpty(NarrowAll(halls, query))
  }

  /** Every question in the search view contains the query, ignoring case,
      and comes from the same hall of the data; every matching question of
      every hall is in the search view, under its hall. */
  lemma SearchIsSound(halls: seq<Hall>, query: string, h: Hall, x: Question)
    requires h in SearchHalls(halls, query) && x in h.questions
    ensures Matches(x, query)
    ensures exists g :: g in halls && g.id == h.id && x in g.questions
  {
    var k :| 0 <= k < |halls| && NarrowAll(halls, query)[k] == h;
    assert halls[k].id == h.id && x in halls[k].questions;
  }

  lemma SearchIsComplete(halls: seq<Hall>, query: string, k: int, x: Question)
    requires 0 <= k < |halls| && x in halls[k].questions && Matches(x, query)
    ensures Narrow(halls[k], query) in SearchHalls(halls, query)
    ensures x in Narrow(halls[k], query).questions
  {
    assert NarrowAll(halls, query)[k] == Narrow(halls[k], query);
  }

  // ---------------------------------------------------------------------
  // Hall lookup

  /** `halls.find(h => h.id === id)`: the first hall with that id, if any. */
  function Find(halls: seq<Hall>, id: string): (r: Option<Hall>)
    ensures r.None? <==> forall k :: 0 <= k < |halls| ==> halls[k].id != id
    ensures r.Some? ==> r.value.id == id
    ensures r.Some? ==> exists k :: 0 <= k < |halls| && halls[k] == r.value &&
                                    (forall j :: 0 <= j < k ==> halls[j].id != id)
    decreases |halls|
  {
    if halls == [] then None
    else if halls[0].id == id then Some(halls[0])
    else
      var r := Find(halls[1..], id);
      if r.Some? then
        var k :| 0 <= k < |halls[1..]| && halls[1..][k] == r.value &&
          (forall j :: 0 <= j < k ==> halls[1..][j].id != id);
        assert halls[k + 1] == r.value;
        r
      else
        r
  }

  /** `activeHall`: the first hall with the active id, or the first hall
      when no hall has it. */
  function ActiveHall(halls: seq<Hall>, id: string): (h: Hall)
    requires |halls| > 0
    ensures h in halls
    ensures (exists k :: 0 <= k < |halls| && halls[k].id == id) ==> h.id == id
    ensures (forall k :: 0 <= k < |halls| ==> halls[k].id != id) ==> h == halls[0]
  {
    match Find(halls, id)
    case Some(g) => g
    case None => halls[0]
  }

  /** `filteredHalls`: the active hall alone without a query, the search
      result with one. */
  function FilteredHalls(halls: seq<Hall>, activeId: string, query: string): (r: seq<Hall>)
    requires |halls| > 0
    ensures query == "" ==> r == [ActiveHall(halls, activeId)]
    ensures query != "" ==> r == SearchHalls(halls, query)
    ensures query != "" ==> forall h :: h in r ==>
      |h.questions| > 0 && forall x :: x in h.questions ==> Matches(x, query)
  {
    if query != "" then
      var r := SearchHalls(halls, query);
      forall h, x | h in r && x in h.questions ensures Matches(x, query) {
        SearchIsSound(halls, query, h, x);
      }
      r
    else
      [ActiveHall(halls, activeId)]
  }

  /** The questions of all halls, hall after hall. */
  function AllQuestions(hs: seq<Hall>): (r: seq<Question>)
    ensures forall k, x :: 0 <= k < |hs| && x in hs[k].questions ==> x in r
    ensures forall x :: x in r ==> exists k :: 0 <= k < |hs| && x in hs[k].questions
    decreases |hs|
  {
    if hs == [] then []
    else
      var rest := AllQuestions(hs[1..]);
      assert forall k :: 1 <= k < |hs| ==> hs[k] == hs[1..][k - 1];
      hs[0].questions + rest
  }

  /** The hall ids of the data are distinct, and the section opens on Zeus. */
  lemma HallsData()
    ensures |Halls| == 4
    ensures forall i, j :: 0 <= i < j < |Halls| ==> Halls[i].id != Halls[j].id
    ensures FilteredHalls(Halls, InitialHallId, "") == [Halls[0]]
  {
    assert Find(Halls, InitialHallId) == Some(Halls[0]);
  }

  /** The ids of the twelve questions, the key of the accordion, are
      distinct, so an open id opens one question only. */
  lemma QuestionIdsDistinct()
    ensures |AllQuestions(Halls)| == 12
    ensures forall i, j :: 0 <= i < j < |AllQuestions(Halls)| ==>
      AllQuestions(Halls)[i].id != AllQuestions(Halls)[j].id
  {
    var qs := AllQuestions(Halls);
    assert qs == Halls[0].questions + (Halls[1].questions + (Halls[2].questions + Halls[3].questions));
    var ids := ["z1", "z2", "z3", "a1", "a2", "a3", "h1", "h2", "h3", "ap1", "ap2", "ap3"];
    assert |qs| == 12;
    assert forall i :: 0 <= i < 12 ==> qs[i].id == ids[i];
    forall i, j | 0 <= i < j < 12 ensures ids[i] != ids[j] {
      assert ids[i][0] != ids[j][0] || ids[i][|ids[i]| - 1] != ids[j][|ids[j]| - 1] || |ids[i]| != |ids[j]|;
    }
  }

  // ---------------------------------------------------------------------
  // Accordion

  /** The `onToggle` of question `id`: closes it when it is the open one,
      otherwise opens it and so closes whichever was open. */
  function Toggle(open: Option<string>, id: string): (r: Option<string>)
    ensures r == Some(id) <==> open != Some(id)
    ensures r == None <==> open == Some(id)
    ensures forall other :: other != id ==> r != Some(other)
  {
    if open == Some(id) then None else Some(id)
  }

  /** Toggling the same question twice restores the accordion when nothing
      or that question was open. */
  lemma ToggleTwice(open: Option<string>, id: string)
    requires open == None || open == Some(id)
    ensures Toggle(Toggle(open, id), id) == open
  {
  }

  /** When another question was open, toggling twice leaves everything closed. */
  lemma ToggleTwiceClosesOther(open: Option<string>, id: string)
    requires open.Some? && open.value != id
    ensures Toggle(Toggle(open, id), id) == None
  {
  }

  /** The FAQ section's state. */
  class FaqView {
    var activeHallId: string
    var searchQuery: string
    var openQuestionId: Option<string>

    constructor ()
      ensures activeHallId == InitialHallId && searchQuery == "" && openQuestionId == None
    {
      activeHallId, searchQuery, openQuestionId := InitialHallId, "", None;
    }

    /** The halls on screen. */
    function Shown(): (r: seq<Hall>)
      reads this
      ensures searchQuery == "" ==> |r| == 1 && r[0] in Halls
      ensures searchQuery == "" ==> r == [ActiveHall(Halls, activeHallId)]
      ensures searchQuery != "" ==> r == SearchHalls(Halls, searchQuery)
    {
      FilteredHalls(Halls, activeHallId, searchQuery)
    }

    /** Whether question `id` shows its answer. */
    function IsOpen(id: string): (b: bool)
      reads this
      ensures b ==> Toggle(openQuestionId, id) == None
      ensures !b ==> Toggle(openQuestionId, id) == Some(id)
    {
      openQuestionId == Some(id)
    }

    /** A click on a hall's tab (`handleHallChange`): shows that hall, clears
      the search and closes the open answer. */
    method HandleHallChange(id: string)
      modifies this
      ensures activeHallId == id && searchQuery == "" && openQuestionId == None
      ensures Shown() == [ActiveHall(Halls, id)]
    {
      activeHallId := id;
      searchQuery := "";
      openQuestionId := None;
    }

    /** Typing in the search box. */
    method SetSearchQuery(query: string)
      modifies this
      ensures searchQuery == query
      ensures activeHallId == old(activeHallId) && openQuestionId == old(openQuestionId)
    {
      searchQuery := query;
    }

    /** A click on question `id`'s header. */
    method ToggleQuestion(id: string)
      modifies this
      ensures openQuestionId == Toggle(old(openQuestionId), id)
      ensures activeHallId == old(activeHallId) && searchQuery == old(searchQuery)
      ensures forall a, b :: IsOpen(a) && IsOpen(b) ==> a == b
    {
      openQuestionId := if openQuestionId == Some(id) then None else Some(id);
    }
  }
}
