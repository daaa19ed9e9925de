/** The dashboard page's own logic: the view it shows and the selection that goes with it,
    the list of years in the question form, the bookmark toggle it sends, and the marks
    distribution it draws from the statistics. */
module Dashboard {
  import opened Common
  import opened Ordering
  import opened Store
  import opened Statistics
  import opened Questions

  // Navigation.

  /** The four views of the page. */
  datatype ViewMode = DashboardView | SubjectView | SystemView | QuestionsView

  /** How far a view is from the dashboard. */
  function Depth(mode: ViewMode): nat {
    match mode
    case DashboardView => 0
    case SubjectView => 1
    case SystemView => 2
    case QuestionsView => 3
  }

  /** The view and the selected subject, system and marks section (by id). */
  datatype Nav = Nav(mode: ViewMode, subject: Option<Id>, system: Option<Id>, section: Option<Id>)

  /** What the page shows when it opens. */
  const Start := Nav(DashboardView, None, None, None)

  /** The selection matches the view: exactly the levels down to the view's own are
      selected. */
  predicate Consistent(v: Nav) {
    (v.subject.Some? <==> Depth(v.mode) >= 1) &&
    (v.system.Some? <==> Depth(v.mode) >= 2) &&
    (v.section.Some? <==> Depth(v.mode) >= 3)
  }

  /** `navigateToSubject`: select the subject, clear the system and the section. */
  function ToSubject(v: Nav, subjectId: Id): Nav {
    Nav(SubjectView, Some(subjectId), None, None)
  }

  /** `navigateToSystem`: select the system, clear the section, keep the subject. */
  function ToSystem(v: Nav, systemId: Id): Nav {
    v.(mode := SystemView, system := Some(systemId), section := None)
  }

  /** `navigateToMarksSection`: select the section, keep the rest. */
  function ToSection(v: Nav, sectionId: Id): Nav {
    v.(mode := QuestionsView, section := Some(sectionId))
  }

  /** `goBack`: one level up, clearing the selection of the level left; nothing on the
      dashboard. */
  function Back(v: Nav): Nav {
    match v.mode
    case QuestionsView => v.(mode := SystemView, section := None)
    case SystemView => v.(mode := SubjectView, system := None)
    case SubjectView => v.(mode := DashboardView, subject := None)
    case DashboardView => v
  }

  /** Selecting a subject always leads to a consistent view; selecting a system does so
      from a view with a subject, a section from a view with a subject and a system. */
  lemma NavigationConsistent(v: Nav, id: Id)
    ensures Consistent(ToSubject(v, id))
    ensures v.subject.Some? ==> Consistent(ToSystem(v, id))
    ensures v.subject.Some? && v.system.Some? ==> Consistent(ToSection(v, id))
  {
  }

  /** `goBack` keeps the selection consistent with the view; it leaves the dashboard as it
      is and otherwise goes exactly one level up. */
  lemma BackSteps(v: Nav)
    ensures Consistent(v) ==> Consistent(Back(v))
    ensures v.mode == DashboardView ==> Back(v) == v
    ensures v.mode != DashboardView ==> Depth(Back(v).mode) == Depth(v.mode) - 1
  {
  }

  /** `goBack` undoes the navigation that entered a view from the level above. */
  lemma BackUndoes(v: Nav, id: Id)
    requires Consistent(v)
    ensures v.mode == DashboardView ==> Back(ToSubject(v, id)) == v
    ensures v.mode == SubjectView ==> Back(ToSystem(v, id)) == v
    ensures v.mode == SystemView ==> Back(ToSection(v, id)) == v
  {
  }

  /** `goBack` pressed `n` times. */
  function BackTimes(v: Nav, n: nat): Nav
    decreases n
  {
    if n == 0 then v else BackTimes(Back(v), n - 1)
  }

  /** From any consistent view, pressing back as many times as the view is deep returns
      to the page as it opened, and pressing it more changes nothing. */
  lemma {:induction false} BackHome(v: Nav, extra: nat)
    requires Consistent(v)
    ensures BackTimes(v, Depth(v.mode) + extra) == Start
    decreases Depth(v.mode)
  {
    if v.mode != DashboardView {
      BackSteps(v);
      BackHome(Back(v), extra);
    } else {
      HomeStays(v, extra);
    }
  }

  /** On the dashboard, back changes nothing however often it is pressed. */
  lemma {:induction false} HomeStays(v: Nav, n: nat)
    requires v.mode == DashboardView
    ensures BackTimes(v, n) == v
  {
    if n > 0 {
      HomeStays(Back(v), n - 1);
    }
  }

  // The question form's years.

  /** `addYear`: the typed year is appended when it is not empty and not yet listed. */
  predicate Accepts(years: seq<string>, newYear: string) {
    newYear != "" && newYear !in years
  }

  function AddedYears(years: seq<string>, newYear: string): seq<string> {
    if Accepts(years, newYear) then years + [newYear] else years
  }

  /** `removeYear`: `filter(y => y !== year)`. */
  function Without(years: seq<string>, year: string): (r: seq<string>)
    ensures forall y :: y in r <==> y in years && y != year
    ensures |r| <= |years|
  {
    if years == [] then []
    else if years[0] == year then Without(years[1..], year)
    else [years[0]] + Without(years[1..], year)
  }

  /** The filter keeps the order: it distributes over concatenation. */
  lemma {:induction false} WithoutConcat(a: seq<string>, b: seq<string>, year: string)
    ensures Without(a + b, year) == Without(a, year) + Without(b, year)
  {
    if a != [] {
      assert (a + b)[0] == a[0] && (a + b)[1..] == a[1..] + b;
      WithoutConcat(a[1..], b, year);
      if a[0] != year {
        assert [a[0]] + (Without(a[1..], year) + Without(b, year)) == ([a[0]] + Without(a[1..], year)) + Without(b, year);
      }
    } else {
      assert a + b == b;
    }
  }

  /** A list without the year is left as it is. */
  lemma {:induction false} WithoutAbsent(years: seq<string>, year: string)
    requires year !in years
    ensures Without(years, year) == years
  {
    if years != [] {
      WithoutAbsent(years[1..], year);
    }
  }

  /** No year is listed twice. */
  predicate NoDuplicates(years: seq<string>) {
    forall i, j :: 0 <= i < j < |years| ==> years[i] != years[j]
  }

  /** Adding a year keeps the list free of duplicates, lists the year whenever it is not
      empty, and adding it again changes nothing. */
  lemma AddYearProperties(years: seq<string>, newYear: string)
    ensures NoDuplicates(years) ==> NoDuplicates(AddedYears(years, newYear))
    ensures newYear != "" ==> newYear in AddedYears(years, newYear)
    ensures AddedYears(AddedYears(years, newYear), newYear) == AddedYears(years, newYear)
    ensures forall y :: y in years ==> y in AddedYears(years, newYear)
  {
  }

  /** Removing a year keeps the list free of duplicates. */
  lemma {:induction false} WithoutNoDuplicates(years: seq<string>, year: string)
    requires NoDuplicates(years)
    ensures NoDuplicates(Without(years, year))
  {
    if years != [] {
      assert NoDuplicates(years[1..]);
      WithoutNoDuplicates(years[1..], year);
      var rest := Without(years[1..], year);
      assert years[0] !in years[1..];
      assert years[0] !in rest;
    }
  }

  /** Removing a year just added gives back the list it was added to. */
  lemma RemoveUndoesAdd(years: seq<string>, newYear: string)
    requires Accepts(years, newYear)
    ensures Without(AddedYears(years, newYear), newYear) == years
  {
    WithoutConcat(years, [newYear], newYear);
    WithoutAbsent(years, newYear);
    assert Without([newYear], newYear) == [];
  }

  /** The page's state: the view and selection, and the year fields of the question form. */
  class Page {
    var viewMode: ViewMode
    var selectedSubject: Option<Id>
    var selectedSystem: Option<Id>
    var selectedSection: Option<Id>
    var years: seq<string>
    var newYear: string

    function Navigation(): Nav
      reads this
    {
      Nav(viewMode, selectedSubject, selectedSystem, selectedSection)
    }

    constructor ()
      ensures Navigation() == Start && years == [] && newYear == ""
    {
      viewMode := DashboardView;
      selectedSubject, selectedSystem, selectedSection := None, None, None;
      years, newYear := [], "";
    }

    method NavigateToSubject(subjectId: Id)
      modifies this
      ensures Navigation() == ToSubject(old(Navigation()), subjectId)
      ensures years == old(years) && newYear == old(newYear)
    {
      selectedSubject := Some(subjectId);
      selectedSystem := None;
      selectedSection := None;
      viewMode := SubjectView;
    }

    method NavigateToSystem(systemId: Id)
      modifies this
      ensures Navigation() == ToSystem(old(Navigation()), systemId)
      ensures years == old(years) && newYear == old(newYear)
    {
      selectedSystem := Some(systemId);
      selectedSection := None;
      viewMode := SystemView;
    }

    method NavigateToMarksSection(sectionId: Id)
      modifies this
      ensures Navigation() == ToSection(old(Navigation()), sectionId)
      ensures years == old(years) && newYear == old(newYear)
    {
      selectedSection := Some(sectionId);
      viewMode := QuestionsView;
    }

    method GoBack()
      modifies this
      ensures Navigation() == Back(old(Navigation()))
      ensures years == old(years) && newYear == old(newYear)
    {
      if viewMode == QuestionsView {
        selectedSection := None;
        viewMode := SystemView;
      } else if viewMode == SystemView {
        selectedSystem := None;
        viewMode := SubjectView;
      } else if viewMode == SubjectView {
        selectedSubject := None;
        viewMode := DashboardView;
      }
    }

    /** The typed year is added and the field cleared only when the year is accepted. */
    method AddYear()
      modifies this
      ensures years == AddedYears(old(years), old(newYear))
      ensures newYear == if Accepts(old(years), old(newYear)) then "" else old(newYear)
      ensures Navigation() == old(Navigation())
    {
      if newYear != "" && newYear !in years {
        years := years + [newYear];
        newYear := "";
      }
    }

    method RemoveYear(year: string)
      modifies this
      ensures years == Without(old(years), year)
      ensures newYear == old(newYear) && Navigation() == old(Navigation())
    {
      years := Without(years, year);
    }
  }

  // The bookmark toggle.

  /** The PUT body `toggleBookmark` sends for a question: only the negated flag. */
  function ToggleBody(q: Question): (b: Body)
    ensures b.isBookmarked == Some(!q.isBookmarked)
  {
    Body(None, None, None, None, None, Some(!q.isBookmarked), None, None, None)
  }

  /** The update that body makes flips the flag of a question whose derived columns are
      current and changes nothing else; sending it twice restores the question. */
  lemma ToggleFlips(q: Question, currentYear: int)
    requires Derived(q, currentYear)
    ensures UpdatedQuestion(q, ToggleBody(q), currentYear) == q.(isBookmarked := !q.isBookmarked)
    ensures var u := UpdatedQuestion(q, ToggleBody(q), currentYear);
      UpdatedQuestion(u, ToggleBody(u), currentYear) == q
  {
    var e := Body(None, None, None, None, None, None, None, None, None);
    UpdateNothingChangesNothing(q, currentYear);
    var u := q.(isBookmarked := !q.isBookmarked);
    assert UpdatedQuestion(q, ToggleBody(q), currentYear) == UpdatedQuestion(q, e, currentYear).(isBookmarked := !q.isBookmarked);
    assert Derived(u, currentYear);
    UpdateNothingChangesNothing(u, currentYear);
    assert UpdatedQuestion(u, ToggleBody(u), currentYear) == UpdatedQuestion(u, e, currentYear).(isBookmarked := !u.isBookmarked);
  }

  // The marks distribution.

  /** One card of the distribution: a marks value, the label first seen with it, and the
      number of questions. */
  datatype MarkTotal = MarkTotal(marks: int, labelText: string, count: nat)

  /** The first card with the marks value, as `find` returns it. */
  function IndexOfMarks(acc: seq<MarkTotal>, marks: int): (r: Option<nat>)
    ensures r.Some? ==> r.value < |acc| && acc[r.value].marks == marks &&
                        forall i :: 0 <= i < r.value ==> acc[i].marks != marks
    ensures r.None? ==> forall i :: 0 <= i < |acc| ==> acc[i].marks != marks
  {
    if acc == [] then None
    else if acc[0].marks == marks then Some(0)
    else match IndexOfMarks(acc[1..], marks)
      case None => None
      case Some(i) => Some(i + 1)
  }

  /** One step of the `reduce`: add the entry's count to the card with its marks, or push
      a new card with the entry's label. */
  function Merge(acc: seq<MarkTotal>, e: MarksCount): seq<MarkTotal> {
    match IndexOfMarks(acc, e.marks)
    case Some(i) => acc[i := acc[i].(count := acc[i].count + e.count)]
    case None => acc + [MarkTotal(e.marks, e.labelText, e.count)]
  }

  /** The `reduce` over the breakdown, from the empty list. */
  function Aggregated(entries: seq<MarksCount>): seq<MarkTotal> {
    if entries == [] then [] else Merge(Aggregated(entries[..|entries| - 1]), entries[|entries| - 1])
  }

  /** The number of questions on the cards. */
  function Total(cards: seq<MarkTotal>): nat {
    if cards == [] then 0 else cards[0].count + Total(cards[1..])
  }

  /** The number of questions the breakdown counts under a marks value. */
  function CountFor(entries: seq<MarksCount>, marks: int): nat {
    if entries == [] then 0
    else CountFor(entries[..|entries| - 1], marks) +
         (if entries[|entries| - 1].marks == marks then entries[|entries| - 1].count else 0)
  }

  /** The label of the first entry with a marks value. */
  function FirstLabel(entries: seq<MarksCount>, marks: int): string {
    if entries == [] then ""
    else if entries[0].marks == marks then entries[0].labelText
    else FirstLabel(entries[1..], marks)
  }

  /** The marks values of the cards, and of the breakdown. */
  function CardMarks(cards: seq<MarkTotal>): set<int> {
    set i | 0 <= i < |cards| :: cards[i].marks
  }

  function EntryMarks(entries: seq<MarksCount>): set<int> {
    set e | e in entries :: e.marks
  }

  /** No two cards share a marks value. */
  predicate DistinctMarks(cards: seq<MarkTotal>) {
    forall i, j :: 0 <= i < j < |cards| ==> cards[i].marks != cards[j].marks
  }

  /** Each card carries the first label and the summed count of its marks value. */
  predicate CardsAgree(cards: seq<MarkTotal>, entries: seq<MarksCount>) {
    forall i :: 0 <= i < |cards| ==>
      cards[i].count == CountFor(entries, cards[i].marks) && cards[i].labelText == FirstLabel(entries, cards[i].marks)
  }

  /** The aggregation: one card per marks value of the breakdown, each carrying the label
      of the first entry with that value and the sum of the counts of all of them. */
  predicate Summarizes(cards: seq<MarkTotal>, entries: seq<MarksCount>) {
    DistinctMarks(cards) && CardMarks(cards) == EntryMarks(entries) && CardsAgree(cards, entries)
  }

  lemma CountForSnoc(entries: seq<MarksCount>, e: MarksCount, marks: int)
    ensures CountFor(entries + [e], marks) == CountFor(entries, marks) + (if e.marks == marks then e.count else 0)
  {
    assert (entries + [e])[..|entries|] == entries;
  }

  lemma EntryMarksSnoc(entries: seq<MarksCount>, e: MarksCount)
    ensures EntryMarks(entries + [e]) == EntryMarks(entries) + {e.marks}
  {
    var all := entries + [e];
    assert e in all;
    forall m | m in EntryMarks(all) ensures m in EntryMarks(entries) + {e.marks} {
      var x :| x in all && x.marks == m;
      if x != e {
        assert x in entries;
      }
    }
    forall m | m in EntryMarks(entries) ensures m in EntryMarks(all) {
      var x :| x in entries && x.marks == m;
      assert x in all;
    }
  }

  lemma {:induction false} FirstLabelSnoc(entries: seq<MarksCount>, e: MarksCount, marks: int)
    requires marks in EntryMarks(entries)
    ensures FirstLabel(entries + [e], marks) == FirstLabel(entries, marks)
  {
    var x :| x in entries && x.marks == marks;
    if entries[0].marks != marks {
      assert (entries + [e])[1..] == entries[1..] + [e];
      assert x in entries[1..];
      FirstLabelSnoc(entries[1..], e, marks);
    }
  }

  lemma {:induction false} FirstLabelNew(entries: seq<MarksCount>, e: MarksCount)
    requires e.marks !in EntryMarks(entries)
    ensures FirstLabel(entries + [e], e.marks) == e.labelText
  {
    if entries != [] {
      assert entries[0] in entries;
      assert (entries + [e])[1..] == entries[1..] + [e];
      assert EntryMarks(entries[1..]) <= EntryMarks(entries) by {
        forall m | m in EntryMarks(entries[1..]) ensures m in EntryMarks(entries) {
          var x :| x in entries[1..] && x.marks == m;
          assert x in entries;
        }
      }
      FirstLabelNew(entries[1..], e);
    }
  }

  lemma {:induction false} CountForAbsent(entries: seq<MarksCount>, marks: int)
    requires marks !in EntryMarks(entries)
    ensures CountFor(entries, marks) == 0
  {
    if entries != [] {
      var init := entries[..|entries| - 1];
      assert entries == init + [entries[|entries| - 1]];
      EntryMarksSnoc(init, entries[|entries| - 1]);
      CountForAbsent(init, marks);
    }
  }

  /** A step that adds to an existing card keeps the cards a summary. */
  lemma MergeFound(cards: seq<MarkTotal>, entries: seq<MarksCount>, e: MarksCount, k: nat)
    requires Summarizes(cards, entries) && IndexOfMarks(cards, e.marks) == Some(k)
    ensures Summarizes(Merge(cards, e), entries + [e])
  {
    var all := entries + [e];
    var r := Merge(cards, e);
    assert r == cards[k := cards[k].(count := cards[k].count + e.count)];
    assert forall i :: 0 <= i < |r| ==> r[i].marks == cards[i].marks;
    assert CardMarks(r) == CardMarks(cards);
    assert e.marks in CardMarks(cards);
    EntryMarksSnoc(entries, e);
    forall i | 0 <= i < |r|
      ensures r[i].count == CountFor(all, r[i].marks) && r[i].labelText == FirstLabel(all, r[i].marks)
    {
      CountForSnoc(entries, e, r[i].marks);
      assert cards[i].marks in CardMarks(cards);
      FirstLabelSnoc(entries, e, r[i].marks);
    }
  }

  /** A step that pushes a new card keeps the cards a summary. */
  lemma MergeNew(cards: seq<MarkTotal>, entries: seq<MarksCount>, e: MarksCount)
    requires Summarizes(cards, entries) && IndexOfMarks(cards, e.marks).None?
    ensures Summarizes(Merge(cards, e), entries + [e])
  {
    var all := entries + [e];
    var card := MarkTotal(e.marks, e.labelText, e.count);
    var r := Merge(cards, e);
    assert r == cards + [card];
    assert e.marks !in CardMarks(cards);
    EntryMarksSnoc(entries, e);
    assert CardMarks(r) == CardMarks(cards) + {e.marks} by {
      assert r[|cards|] == card;
      forall m | m in CardMarks(r) ensures m in CardMarks(cards) + {e.marks} {
        var i :| 0 <= i < |r| && r[i].marks == m;
        if i < |cards| {
          assert r[i] == cards[i];
        }
      }
      forall m | m in CardMarks(cards) ensures m in CardMarks(r) {
        var i :| 0 <= i < |cards| && cards[i].marks == m;
        assert r[i] == cards[i];
      }
    }
    forall i | 0 <= i < |cards|
      ensures r[i].count == CountFor(all, r[i].marks) && r[i].labelText == FirstLabel(all, r[i].marks)
    {
      assert r[i] == cards[i];
      CountForSnoc(entries, e, r[i].marks);
      assert cards[i].marks in CardMarks(cards);
      FirstLabelSnoc(entries, e, r[i].marks);
    }
    CountForSnoc(entries, e, e.marks);
    CountForAbsent(entries, e.marks);
    FirstLabelNew(entries, e);
  }

  /** The `reduce` gives one card per marks value, with the first-seen label and the summed
      count. */
  lemma {:induction false} AggregatedSummarizes(entries: seq<MarksCount>)
    ensures Summarizes(Aggregated(entries), entries)
  {
    if entries == [] {
      assert CardMarks([]) == {};
    } else {
      var init := entries[..|entries| - 1];
      var e := entries[|entries| - 1];
      assert init + [e] == entries;
      AggregatedSummarizes(init);
      var cards := Aggregated(init);
      match IndexOfMarks(cards, e.marks)
      case Some(k) => MergeFound(cards, init, e, k);
      case None => MergeNew(cards, init, e);
    }
  }

  lemma {:induction false} TotalConcat(a: seq<MarkTotal>, b: seq<MarkTotal>)
    ensures Total(a + b) == Total(a) + Total(b)
  {
    if a != [] {
      assert (a + b)[0] == a[0] && (a + b)[1..] == a[1..] + b;
      TotalConcat(a[1..], b);
    } else {
      assert a + b == b;
    }
  }

  lemma TotalUpdate(cards: seq<MarkTotal>, k: nat, extra: nat)
    requires k < |cards|
    ensures Total(cards[k := cards[k].(count := cards[k].count + extra)]) == Total(cards) + extra
  {
    var c := cards[k := cards[k].(count := cards[k].count + extra)];
    assert cards == cards[..k] + [cards[k]] + cards[k + 1..];
    assert c == cards[..k] + [c[k]] + cards[k + 1..];
    TotalConcat(cards[..k] + [cards[k]], cards[k + 1..]);
    TotalConcat(cards[..k], [cards[k]]);
    TotalConcat(cards[..k] + [c[k]], cards[k + 1..]);
    TotalConcat(cards[..k], [c[k]]);
  }

  lemma {:induction false} CountSumSnoc(entries: seq<MarksCount>, e: MarksCount)
    ensures CountSum(entries + [e]) == CountSum(entries) + e.count
  {
    if entries != [] {
      assert (entries + [e])[0] == entries[0] && (entries + [e])[1..] == entries[1..] + [e];
      CountSumSnoc(entries[1..], e);
    }
  }

  /** The cards count every question of the breakdown. */
  lemma {:induction false} AggregatedTotal(entries: seq<MarksCount>)
    ensures Total(Aggregated(entries)) == CountSum(entries)
  {
    if entries != [] {
      var init := entries[..|entries| - 1];
      var e := entries[|entries| - 1];
      AggregatedTotal(init);
      assert init + [e] == entries;
      CountSumSnoc(init, e);
      var cards := Aggregated(init);
      match IndexOfMarks(cards, e.marks)
      case Some(k) => TotalUpdate(cards, k, e.count);
      case None => TotalConcat(cards, [MarkTotal(e.marks, e.labelText, e.count)]);
    }
  }

  /** Taking one element out of a list takes it out of its multiset. */
  lemma MultisetRemove<T>(b: seq<T>, k: nat)
    requires k < |b|
    ensures multiset(b) == multiset(b[..k] + b[k + 1..]) + multiset{b[k]}
  {
    assert b == b[..k] + [b[k]] + b[k + 1..];
  }

  /** Taking one card out of a list takes its count out of the total. */
  lemma TotalRemove(b: seq<MarkTotal>, k: nat)
    requires k < |b|
    ensures Total(b) == Total(b[..k] + b[k + 1..]) + b[k].count
  {
    var front, back, single := b[..k], b[k + 1..], [b[k]];
    assert b[..k + 1] + back == b;
    assert b[..k + 1] == front + single;
    TotalConcat(front + single, back);
    TotalConcat(front, single);
    TotalConcat(front, back);
    assert single[1..] == [];
  }

  /** Cards with the same multiset count the same questions. */
  lemma {:induction false} TotalPermutation(a: seq<MarkTotal>, b: seq<MarkTotal>)
    requires multiset(a) == multiset(b)
    ensures Total(a) == Total(b)
  {
    if a == [] {
      assert |b| == |multiset(b)| == 0;
    } else {
      var x := a[0];
      assert x in multiset(b);
      var k :| 0 <= k < |b| && b[k] == x;
      MultisetRemove(b, k);
      TotalRemove(b, k);
      assert a == [x] + a[1..];
      var rest := b[..k] + b[k + 1..];
      assert multiset(a) == multiset(a[1..]) + multiset{x};
      assert multiset(a[1..]) == multiset(a) - multiset{x};
      assert multiset(rest) == multiset(b) - multiset{x};
      TotalPermutation(a[1..], rest);
    }
  }

  /** In cards free of repeated marks each card occurs once. */
  lemma {:induction false} SingleOccurrence(a: seq<MarkTotal>, p: nat)
    requires DistinctMarks(a) && p < |a|
    ensures multiset(a)[a[p]] == 1
  {
    assert a == [a[0]] + a[1..];
    if p == 0 {
      assert a[0] !in a[1..];
    } else {
      assert a[0] != a[p];
      assert DistinctMarks(a[1..]);
      SingleOccurrence(a[1..], p - 1);
    }
  }

  /** A permutation of cards free of repeated marks is free of them too. */
  lemma DistinctPermutation(a: seq<MarkTotal>, b: seq<MarkTotal>)
    requires multiset(a) == multiset(b) && DistinctMarks(a)
    ensures DistinctMarks(b)
  {
    forall i, j | 0 <= i < j < |b| ensures b[i].marks != b[j].marks {
      if b[i].marks == b[j].marks {
        assert b[i] in multiset(a) && b[j] in multiset(a);
        var p :| 0 <= p < |a| && a[p] == b[i];
        var q :| 0 <= q < |a| && a[q] == b[j];
        if p == q {
          var rest := b[..j] + b[j + 1..];
          assert b == rest[..j] + [b[j]] + rest[j..];
          assert b[i] in rest;
          assert multiset(b)[b[i]] >= 2;
          SingleOccurrence(a, p);
        }
      }
    }
  }

  /** Cards with the same multiset have the same marks values. */
  lemma CardMarksPermutation(a: seq<MarkTotal>, b: seq<MarkTotal>)
    requires multiset(a) == multiset(b)
    ensures CardMarks(a) == CardMarks(b)
  {
    forall m | m in CardMarks(a) ensures m in CardMarks(b) {
      var i :| 0 <= i < |a| && a[i].marks == m;
      assert a[i] in multiset(b);
      var k :| 0 <= k < |b| && b[k] == a[i];
    }
    forall m | m in CardMarks(b) ensures m in CardMarks(a) {
      var i :| 0 <= i < |b| && b[i].marks == m;
      assert b[i] in multiset(a);
      var k :| 0 <= k < |a| && a[k] == b[i];
    }
  }

  /** Cards with the same multiset agree with the breakdown together. */
  lemma AgreePermutation(a: seq<MarkTotal>, b: seq<MarkTotal>, entries: seq<MarksCount>)
    requires multiset(a) == multiset(b) && CardsAgree(a, entries)
    ensures CardsAgree(b, entries)
  {
    forall i | 0 <= i < |b|
      ensures b[i].count == CountFor(entries, b[i].marks) && b[i].labelText == FirstLabel(entries, b[i].marks)
    {
      assert b[i] in multiset(a);
      var k :| 0 <= k < |a| && a[k] == b[i];
    }
  }

  /** The cards in the order they are drawn: marks from highest to lowest. */
  predicate Descending(cards: seq<MarkTotal>) {
    forall i, j :: 0 <= i < j < |cards| ==> cards[i].marks >= cards[j].marks
  }

  method Swap(a: array<MarkTotal>, i: nat, j: nat)
    requires i < a.Length && j < a.Length
    modifies a
    ensures a[..] == old(a[..])[i := old(a[j])][j := old(a[i])]
    ensures multiset(a[..]) == multiset(old(a[..]))
  {
    a[i], a[j] := a[j], a[i];
  }

  /** The cards up to `i` are in order once the card at `j` is set aside. */
  predicate SortedBut(s: seq<MarkTotal>, j: nat, i: nat)
    requires i < |s|
  {
    forall p, q :: 0 <= p < q <= i && p != j && q != j ==> s[p].marks >= s[q].marks
  }

  /** The card at `j` has marks at least those of every card after it up to `i`. */
  predicate Dominates(s: seq<MarkTotal>, j: nat, i: nat)
    requires j <= i < |s|
  {
    forall q :: j < q <= i ==> s[j].marks >= s[q].marks
  }

  /** Swapping the sinking card with a smaller neighbour before it keeps both facts. */
  lemma SinkStep(s: seq<MarkTotal>, u: seq<MarkTotal>, j: nat, i: nat)
    requires 0 < j <= i < |s| && SortedBut(s, j, i) && Dominates(s, j, i)
    requires s[j - 1].marks < s[j].marks && u == s[j - 1 := s[j]][j := s[j - 1]]
    ensures SortedBut(u, j - 1, i) && Dominates(u, j - 1, i)
  {
    forall p, q | 0 <= p < q <= i && p != j - 1 && q != j - 1 ensures u[p].marks >= u[q].marks {
      if p == j {
        assert s[j - 1].marks >= s[q].marks;
      } else if q == j {
        assert s[p].marks >= s[j - 1].marks;
      }
    }
  }

  /** The sinking card has stopped: the cards up to `i` are in order. */
  lemma SinkDone(s: seq<MarkTotal>, j: nat, i: nat)
    requires j <= i < |s| && SortedBut(s, j, i) && Dominates(s, j, i)
    requires j == 0 || s[j - 1].marks >= s[j].marks
    ensures Descending(s[..i + 1])
  {
    forall p, q | 0 <= p < q < i + 1 ensures s[p].marks >= s[q].marks {
      if q == j && p < j - 1 {
        assert s[p].marks >= s[j - 1].marks;
      }
    }
  }

  /** One step of a pass: swap the sinking card with its smaller neighbour before it. */
  method SinkOnce(a: array<MarkTotal>, j: nat, i: nat)
    requires 0 < j <= i < a.Length && SortedBut(a[..], j, i) && Dominates(a[..], j, i)
    requires a[j - 1].marks < a[j].marks
    modifies a
    ensures SortedBut(a[..], j - 1, i) && Dominates(a[..], j - 1, i)
    ensures multiset(a[..]) == multiset(old(a[..]))
    ensures a[i + 1..] == old(a[i + 1..])
  {
    ghost var s := a[..];
    Swap(a, j - 1, j);
    SinkStep(s, a[..], j, i);
  }

  /** One pass of the insertion sort: sink the card at `i` to its place among the sorted
      cards before it. */
  method Sink(a: array<MarkTotal>, i: nat)
    requires i < a.Length && Descending(a[..i])
    modifies a
    ensures Descending(a[..i + 1])
    ensures multiset(a[..]) == multiset(old(a[..]))
    ensures a[i + 1..] == old(a[i + 1..])
  {
    var j := i;
    assert SortedBut(a[..], j, i) by {
      forall p, q | 0 <= p < q <= i && p != j && q != j ensures a[p].marks >= a[q].marks {
        assert a[..i][p] == a[p] && a[..i][q] == a[q];
      }
    }
    while j > 0 && a[j - 1].marks < a[j].marks
      invariant 0 <= j <= i
      invariant multiset(a[..]) == multiset(old(a[..]))
      invariant a[i + 1..] == old(a[i + 1..])
      invariant SortedBut(a[..], j, i) && Dominates(a[..], j, i)
    {
      SinkOnce(a, j, i);
      j := j - 1;
    }
    SinkDone(a[..], j, i);
  }

  /** The in-place `sort((a, b) => b.marks - a.marks)`. */
  method SortByMarks(a: array<MarkTotal>)
    modifies a
    ensures Descending(a[..])
    ensures multiset(a[..]) == multiset(old(a[..]))
  {
    var i := 0;
    while i < a.Length
      invariant 0 <= i <= a.Length
      invariant Descending(a[..i])
      invariant multiset(a[..]) == multiset(old(a[..]))
    {
      Sink(a, i);
      i := i + 1;
    }
    assert a[..] == a[..a.Length];
  }

  /** `IndexOfMarks` is the first index with the marks value. */
  lemma {:induction false} IndexOfMarksAt(acc: seq<MarkTotal>, marks: int, i: nat)
    requires i <= |acc| && forall p :: 0 <= p < i ==> acc[p].marks != marks
    requires i < |acc| ==> acc[i].marks == marks
    ensures IndexOfMarks(acc, marks) == if i < |acc| then Some(i) else None
  {
    if acc != [] && i > 0 {
      IndexOfMarksAt(acc[1..], marks, i - 1);
    }
  }

  /** The `find` of the `reduce`. */
  method FindMarks(acc: seq<MarkTotal>, marks: int) returns (r: Option<nat>)
    ensures r == IndexOfMarks(acc, marks)
  {
    var i := 0;
    while i < |acc|
      invariant 0 <= i <= |acc|
      invariant forall p :: 0 <= p < i ==> acc[p].marks != marks
    {
      if acc[i].marks == marks {
        IndexOfMarksAt(acc, marks, i);
        return Some(i);
      }
      i := i + 1;
    }
    IndexOfMarksAt(acc, marks, |acc|);
    return None;
  }

  /** The `reduce`: the count of an existing card grows in place, a new marks value is
      pushed as a new card. */
  method Aggregate(entries: seq<MarksCount>) returns (acc: seq<MarkTotal>)
    ensures acc == Aggregated(entries)
  {
    acc := [];
    for n := 0 to |entries|
      invariant acc == Aggregated(entries[..n])
    {
      var curr := entries[n];
      var existing := FindMarks(acc, curr.marks);
      if existing.Some? {
        var k := existing.value;
        acc := acc[k := acc[k].(count := acc[k].count + curr.count)];
      } else {
        acc := acc + [MarkTotal(curr.marks, curr.labelText, curr.count)];
      }
      assert entries[..n + 1][..n] == entries[..n];
    }
    assert entries[..|entries|] == entries;
  }

  /** The marks distribution: the aggregated cards, sorted by marks from highest to lowest
      in a fresh array. */
  method Distribution(entries: seq<MarksCount>) returns (a: array<MarkTotal>)
    ensures fresh(a)
    ensures Descending(a[..]) && multiset(a[..]) == multiset(Aggregated(entries))
  {
    var acc := Aggregate(entries);
    a := new MarkTotal[|acc|](i requires 0 <= i < |acc| => acc[i]);
    assert a[..] == acc;
    SortByMarks(a);
  }

  /** The drawn cards summarize the breakdown: each of its marks values once, highest
      first, with the first label and the summed count of that value, counting every
      question. */
  lemma DistributionProperties(entries: seq<MarksCount>, cards: seq<MarkTotal>)
    requires Descending(cards) && multiset(cards) == multiset(Aggregated(entries))
    ensures Summarizes(cards, entries) && Total(cards) == CountSum(entries)
    ensures forall i, j :: 0 <= i < j < |cards| ==> cards[i].marks > cards[j].marks
  {
    var agg := Aggregated(entries);
    AggregatedSummarizes(entries);
    AggregatedTotal(entries);
    TotalPermutation(cards, agg);
    DistinctPermutation(agg, cards);
    CardMarksPermutation(agg, cards);
    AgreePermutation(agg, cards, entries);
  }
}
