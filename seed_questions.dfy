/** The question-seeding route: for every subject, system and marks section the question
    data names and the catalog already holds, it creates each listed question the section
    does not yet have under that title, scored as the questions route scores, and
    reports how many it created; GET tells whether any question exists. */
module SeedQuestions {
  import opened Common
  import opened Ordering
  import opened Scoring
  import opened Store
  import MarksSections

  /** One listed question. */
  datatype QuestionInfo = QuestionInfo(title: string, description: string, years: seq<string>, globalImportance: real)

  /** One `[marksLabel, questions]` entry of a system's data, in the order written. */
  datatype MarksEntry = MarksEntry(marksLabel: string, questions: seq<QuestionInfo>)

  /** The data of one subject: system name to its entries. */
  type SystemData = map<string, seq<MarksEntry>>

  /** The whole question data: subject name to its systems. */
  type QuestionsData = map<string, SystemData>

  /** The `results` object. */
  datatype QuestionsReport = QuestionsReport(questionsAdded: nat, errors: seq<string>)

  /** The marks value a label of the data stands for; any label but the three known
      ones counts as ten. */
  function MarksValue(marksLabel: string): (marks: int)
    ensures marks == 10 || marks == 4 || marks == 2
    ensures marksLabel != "4 Markers" && marksLabel != "2 Markers" ==> marks == 10
  {
    if marksLabel == "10 Markers" then 10
    else if marksLabel == "4 Markers" then 4
    else if marksLabel == "2 Markers" then 2
    else 10
  }

  /** The label the seeding route gives a section reads back as its marks. */
  lemma MarksValueOfLabel()
    ensures MarksValue(MarksSections.MarksLabel(10)) == 10
    ensures MarksValue(MarksSections.MarksLabel(4)) == 4
    ensures MarksValue(MarksSections.MarksLabel(2)) == 2
  {
    ShowNatDigits();
    var l10, l4, l2 := MarksSections.MarksLabel(10), MarksSections.MarksLabel(4), MarksSections.MarksLabel(2);
    assert l10 == "10 Markers" && l4 == "4 Markers" && l2 == "2 Markers";
    assert |l10| == 10 && |l4| == 9 && |l2| == 9;
    assert l4[0] == '4' && l2[0] == '2';
  }

  lemma ShowNatDigits()
    ensures ShowInt(10) == "10" && ShowInt(4) == "4" && ShowInt(2) == "2"
  {
    assert ShowNat(1) == "1";
    assert ShowNat(0) == "0";
  }

  /** The clock readings the handler takes: the year the score's recency is measured
      from, and the time new rows are stamped with. */
  datatype Clock = Clock(currentYear: int, now: int)

  /** Where the questions of one entry go: the subject, the system and its section. */
  datatype Target = Target(subjectId: Id, systemId: Id, sectionId: Id)

  /** The row created for a listed question: the years serialised, the repeat count
      their number, the score from both. */
  function NewQuestion(info: QuestionInfo, at: Target, clock: Clock): (q: Question)
    ensures q.title == info.title && q.years == Serialized(info.years) && q.repeatCount == |info.years|
    ensures q.importanceScore == ImportanceScore(|info.years|, info.years, info.globalImportance, clock.currentYear)
    ensures q.subjectId == at.subjectId && q.systemId == at.systemId && q.marksSectionId == at.sectionId
    ensures q.notes.None? && !q.isBookmarked
  {
    Question(info.title, Some(info.description), |info.years|, Serialized(info.years),
             ImportanceScore(|info.years|, info.years, info.globalImportance, clock.currentYear), info.globalImportance,
             None, false, at.subjectId, at.systemId, at.sectionId, clock.now)
  }

  /** Selects the questions titled `title` in section `sectionId`. */
  function WithTitle(title: string, sectionId: Id): Question -> bool {
    (q: Question) => q.title == title && q.marksSectionId == sectionId
  }

  /** Section `sectionId` has a question titled `title`. */
  predicate TitleTaken(questions: map<Id, Question>, title: string, sectionId: Id) {
    exists k :: k in questions && questions[k].title == title && questions[k].marksSectionId == sectionId
  }

  lemma FoundIffTitleTaken(questions: map<Id, Question>, title: string, sectionId: Id)
    ensures FindFirst(questions, WithTitle(title, sectionId)).Some? <==> TitleTaken(questions, title, sectionId)
  {
    if TitleTaken(questions, title, sectionId) {
      var k :| k in questions && questions[k].title == title && questions[k].marksSectionId == sectionId;
      assert WithTitle(title, sectionId)(questions[k]);
    }
  }

  lemma TitleTakenGrows(a: map<Id, Question>, b: map<Id, Question>, title: string, sectionId: Id)
    requires SubMap(a, b) && TitleTaken(a, title, sectionId)
    ensures TitleTaken(b, title, sectionId)
  {
    var k :| k in a && a[k].title == title && a[k].marksSectionId == sectionId;
    assert b[k] == a[k];
  }


  /** The system belongs to the subject. */
  predicate SystemOf(t: Tables, subjectId: Id, systemId: Id) {
    subjectId in t.subjects && systemId in t.systems && t.systems[systemId].subjectId == subjectId
  }

  /** The target's section belongs to its system, and the system to its subject. */
  predicate Placed(t: Tables, at: Target) {
    SystemOf(t, at.subjectId, at.systemId) && at.sectionId in t.sections && t.sections[at.sectionId].systemId == at.systemId
  }

  /** A question this route creates: placed consistently, with the years as written and
      the repeat count their number, neither bookmarked nor annotated. */
  predicate Seeded(t: Tables, q: Question) {
    Placed(t, Target(q.subjectId, q.systemId, q.marksSectionId)) &&
    q.years.Serialized? && q.repeatCount == |q.years.list| &&
    q.notes.None? && !q.isBookmarked
  }

  // The state the loops carry.

  /** The tables, the id counter, and `results.questionsAdded`. */
  datatype Progress = Progress(t: Tables, next: nat, added: nat)

  /** No question uses the next id or one above it. */
  predicate Fresh(p: Progress) {
    IdsBelow(p.t.questions, p.next)
  }

  /** `p` became `r` by creating questions only, `r.added - p.added` of them, each a
      seeded one under an id the counter handed out. */
  predicate Grows(p: Progress, r: Progress) {
    p.added <= r.added && r.next == p.next + (r.added - p.added) &&
    r.t == p.t.(questions := r.t.questions) && SubMap(p.t.questions, r.t.questions) &&
    |r.t.questions| == |p.t.questions| + (r.added - p.added) && Fresh(r) &&
    forall k :: k in r.t.questions && k !in p.t.questions ==> Seeded(r.t, r.t.questions[k])
  }

  lemma GrowsNone(p: Progress)
    requires Fresh(p)
    ensures Grows(p, p)
  {
  }

  lemma GrowsTrans(p: Progress, q: Progress, r: Progress)
    requires Grows(p, q) && Grows(q, r)
    ensures Grows(p, r)
  {
    forall k | k in r.t.questions && k !in p.t.questions ensures Seeded(r.t, r.t.questions[k]) {
      if k in q.t.questions {
        assert r.t.questions[k] == q.t.questions[k];
      }
    }
  }

  /** `r` keeps every question of `p` and the same subjects, systems and sections, and
      its counter is still above every question id. */
  predicate Extends(p: Progress, r: Progress) {
    SubMap(p.t.questions, r.t.questions) && r.t.subjects == p.t.subjects && r.t.systems == p.t.systems &&
    r.t.sections == p.t.sections && Fresh(r)
  }

  // One question.

  /** The body of the innermost loop: a create under the next id unless the section
      already has a question with the title (the `findFirst` by title and section). */
  function AddQuestion(p: Progress, at: Target, info: QuestionInfo, clock: Clock): Progress {
    if TitleTaken(p.t.questions, info.title, at.sectionId) then p
    else Progress(p.t.(questions := p.t.questions[p.next := NewQuestion(info, at, clock)]), p.next + 1, p.added + 1)
  }

  /** A create adds one seeded question under the next id. */
  lemma AddQuestionGrows(p: Progress, at: Target, info: QuestionInfo, clock: Clock)
    requires Fresh(p) && Placed(p.t, at)
    ensures Grows(p, AddQuestion(p, at, info, clock))
  {
    var r := AddQuestion(p, at, info, clock);
    if !TitleTaken(p.t.questions, info.title, at.sectionId) {
      assert p.next !in p.t.questions;
      assert r.t.questions[p.next] == NewQuestion(info, at, clock);
      assert Placed(r.t, at);
    }
  }

  /** Afterwards the section has the title, whether created or already there. */
  lemma AddQuestionCovers(p: Progress, at: Target, info: QuestionInfo, clock: Clock)
    requires Fresh(p)
    ensures TitleTaken(AddQuestion(p, at, info, clock).t.questions, info.title, at.sectionId)
    ensures Extends(p, AddQuestion(p, at, info, clock))
  {
    var r := AddQuestion(p, at, info, clock);
    if !TitleTaken(p.t.questions, info.title, at.sectionId) {
      assert r.t.questions[p.next].title == info.title;
    }
  }

  // The questions of one entry.

  /** The innermost loop, over the questions listed under one marks label. */
  function AddList(p: Progress, at: Target, infos: seq<QuestionInfo>, clock: Clock): Progress
    decreases |infos|
  {
    if infos == [] then p
    else AddQuestion(AddList(p, at, infos[..|infos| - 1], clock), at, infos[|infos| - 1], clock)
  }

  /** Section `sectionId` has every title of `infos`. */
  predicate ListCovered(questions: map<Id, Question>, sectionId: Id, infos: seq<QuestionInfo>) {
    forall j :: 0 <= j < |infos| ==> TitleTaken(questions, infos[j].title, sectionId)
  }

  lemma ListCoveredGrows(a: map<Id, Question>, b: map<Id, Question>, sectionId: Id, infos: seq<QuestionInfo>)
    requires SubMap(a, b) && ListCovered(a, sectionId, infos)
    ensures ListCovered(b, sectionId, infos)
  {
    forall j | 0 <= j < |infos| ensures TitleTaken(b, infos[j].title, sectionId) {
      TitleTakenGrows(a, b, infos[j].title, sectionId);
    }
  }

  /** The loop adds only seeded questions, one per count. */
  lemma {:induction false} AddListGrows(p: Progress, at: Target, infos: seq<QuestionInfo>, clock: Clock)
    requires Fresh(p) && Placed(p.t, at)
    ensures Grows(p, AddList(p, at, infos, clock))
    decreases |infos|
  {
    if infos == [] {
      GrowsNone(p);
    } else {
      var init, last := infos[..|infos| - 1], infos[|infos| - 1];
      AddListGrows(p, at, init, clock);
      var q := AddList(p, at, init, clock);
      assert Placed(q.t, at);
      AddQuestionGrows(q, at, last, clock);
      GrowsTrans(p, q, AddQuestion(q, at, last, clock));
    }
  }

  /** After the loop the section has every listed title. */
  lemma {:induction false} AddListCovers(p: Progress, at: Target, infos: seq<QuestionInfo>, clock: Clock)
    requires Fresh(p)
    ensures ListCovered(AddList(p, at, infos, clock).t.questions, at.sectionId, infos)
    ensures Extends(p, AddList(p, at, infos, clock))
    decreases |infos|
  {
    if infos != [] {
      var init, last := infos[..|infos| - 1], infos[|infos| - 1];
      AddListCovers(p, at, init, clock);
      var q := AddList(p, at, init, clock);
      var r := AddQuestion(q, at, last, clock);
      AddQuestionCovers(q, at, last, clock);
      ListCoveredGrows(q.t.questions, r.t.questions, at.sectionId, init);
      assert infos == init + [last];
      ListCoveredSnoc(r.t.questions, at.sectionId, init, last);
    }
  }

  /** A section that has every title of `init` and the title of `last` has every title
      of `init + [last]`. */
  lemma ListCoveredSnoc(questions: map<Id, Question>, sectionId: Id, init: seq<QuestionInfo>, last: QuestionInfo)
    requires ListCovered(questions, sectionId, init) && TitleTaken(questions, last.title, sectionId)
    ensures ListCovered(questions, sectionId, init + [last])
  {
    var infos := init + [last];
    forall j | 0 <= j < |infos| ensures TitleTaken(questions, infos[j].title, sectionId) {
      if j < |init| {
        assert infos[j] == init[j];
      }
    }
  }

  /** When the section already has every listed title, the loop adds nothing. */
  lemma {:induction false} AddListCovered(p: Progress, at: Target, infos: seq<QuestionInfo>, clock: Clock)
    requires ListCovered(p.t.questions, at.sectionId, infos)
    ensures AddList(p, at, infos, clock) == p
    decreases |infos|
  {
    if infos != [] {
      var init := infos[..|infos| - 1];
      assert forall j :: 0 <= j < |init| ==> init[j] == infos[j];
      AddListCovered(p, at, init, clock);
      assert TitleTaken(p.t.questions, infos[|infos| - 1].title, at.sectionId);
    }
  }

  // The entries of one system.

  /** The section belongs to the system and has the marks. */
  predicate HasMarks(s: MarksSection, systemId: Id, marks: int) {
    s.systemId == systemId && s.marks == marks
  }

  /** The section an entry's questions go to: the system's first section with the marks
      the entry's label stands for, if it has one. */
  function SectionFor(sections: map<Id, MarksSection>, systemId: Id, e: MarksEntry): (r: Option<Id>)
    ensures r.Some? ==> r.value in sections && HasMarks(sections[r.value], systemId, MarksValue(e.marksLabel))
    ensures r.Some? ==> forall k :: k in sections && HasMarks(sections[k], systemId, MarksValue(e.marksLabel)) ==> r.value <= k
    ensures r.None? <==> forall k :: k in sections ==> !HasMarks(sections[k], systemId, MarksValue(e.marksLabel))
  {
    var found := set k | k in sections && HasMarks(sections[k], systemId, MarksValue(e.marksLabel));
    assert forall k :: k in sections && HasMarks(sections[k], systemId, MarksValue(e.marksLabel)) ==> k in found;
    if found == {} then None else Some(MinOf(found))
  }

  /** One entry: its questions into its section, or nothing when the system has none
      with its marks. */
  function AddEntry(p: Progress, subjectId: Id, systemId: Id, e: MarksEntry, clock: Clock): Progress {
    var s := SectionFor(p.t.sections, systemId, e);
    if s.None? then p else AddList(p, Target(subjectId, systemId, s.value), e.questions, clock)
  }

  /** The entry's questions are all in its section, or the system has no section for it. */
  predicate EntryCovered(t: Tables, systemId: Id, e: MarksEntry) {
    var s := SectionFor(t.sections, systemId, e);
    s.Some? ==> ListCovered(t.questions, s.value, e.questions)
  }

  lemma EntryCoveredGrows(p: Progress, r: Progress, systemId: Id, e: MarksEntry)
    requires Extends(p, r) && EntryCovered(p.t, systemId, e)
    ensures EntryCovered(r.t, systemId, e)
  {
    var s := SectionFor(p.t.sections, systemId, e);
    if s.Some? {
      ListCoveredGrows(p.t.questions, r.t.questions, s.value, e.questions);
    }
  }

  lemma AddEntryGrows(p: Progress, subjectId: Id, systemId: Id, e: MarksEntry, clock: Clock)
    requires Fresh(p) && SystemOf(p.t, subjectId, systemId)
    ensures Grows(p, AddEntry(p, subjectId, systemId, e, clock))
  {
    var s := SectionFor(p.t.sections, systemId, e);
    if s.None? {
      GrowsNone(p);
    } else {
      AddListGrows(p, Target(subjectId, systemId, s.value), e.questions, clock);
    }
  }

  lemma AddEntryCovers(p: Progress, subjectId: Id, systemId: Id, e: MarksEntry, clock: Clock)
    requires Fresh(p)
    ensures var r := AddEntry(p, subjectId, systemId, e, clock);
      EntryCovered(r.t, systemId, e) && Extends(p, r)
  {
    var s := SectionFor(p.t.sections, systemId, e);
    if s.Some? {
      AddListCovers(p, Target(subjectId, systemId, s.value), e.questions, clock);
    }
  }

  lemma AddEntryCovered(p: Progress, subjectId: Id, systemId: Id, e: MarksEntry, clock: Clock)
    requires EntryCovered(p.t, systemId, e)
    ensures AddEntry(p, subjectId, systemId, e, clock) == p
  {
    var s := SectionFor(p.t.sections, systemId, e);
    if s.Some? {
      AddListCovered(p, Target(subjectId, systemId, s.value), e.questions, clock);
    }
  }

  /** The loop over the `[marksLabel, questions]` entries of one system, in order. */
  function AddEntries(p: Progress, subjectId: Id, systemId: Id, entries: seq<MarksEntry>, clock: Clock): Progress
    decreases |entries|
  {
    if entries == [] then p
    else AddEntry(AddEntries(p, subjectId, systemId, entries[..|entries| - 1], clock), subjectId, systemId, entries[|entries| - 1], clock)
  }

  predicate EntriesCovered(t: Tables, systemId: Id, entries: seq<MarksEntry>) {
    forall j :: 0 <= j < |entries| ==> EntryCovered(t, systemId, entries[j])
  }

  lemma EntriesCoveredGrows(p: Progress, r: Progress, systemId: Id, entries: seq<MarksEntry>)
    requires Extends(p, r) && EntriesCovered(p.t, systemId, entries)
    ensures EntriesCovered(r.t, systemId, entries)
  {
    forall j | 0 <= j < |entries| ensures EntryCovered(r.t, systemId, entries[j]) {
      EntryCoveredGrows(p, r, systemId, entries[j]);
    }
  }

  lemma {:induction false} AddEntriesGrows(p: Progress, subjectId: Id, systemId: Id, entries: seq<MarksEntry>, clock: Clock)
    requires Fresh(p) && SystemOf(p.t, subjectId, systemId)
    ensures Grows(p, AddEntries(p, subjectId, systemId, entries, clock))
    decreases |entries|
  {
    if entries == [] {
      GrowsNone(p);
    } else {
      var init, last := entries[..|entries| - 1], entries[|entries| - 1];
      AddEntriesGrows(p, subjectId, systemId, init, clock);
      var q := AddEntries(p, subjectId, systemId, init, clock);
      assert SystemOf(q.t, subjectId, systemId);
      AddEntryGrows(q, subjectId, systemId, last, clock);
      GrowsTrans(p, q, AddEntry(q, subjectId, systemId, last, clock));
    }
  }

  lemma {:induction false} AddEntriesCovers(p: Progress, subjectId: Id, systemId: Id, entries: seq<MarksEntry>, clock: Clock)
    requires Fresh(p)
    ensures var r := AddEntries(p, subjectId, systemId, entries, clock);
      EntriesCovered(r.t, systemId, entries) && Extends(p, r)
    decreases |entries|
  {
    if entries != [] {
      var init, last := entries[..|entries| - 1], entries[|entries| - 1];
      AddEntriesCovers(p, subjectId, systemId, init, clock);
      var q := AddEntries(p, subjectId, systemId, init, clock);
      var r := AddEntry(q, subjectId, systemId, last, clock);
      AddEntryCovers(q, subjectId, systemId, last, clock);
      EntriesCoveredGrows(q, r, systemId, init);
      forall j | 0 <= j < |entries| ensures EntryCovered(r.t, systemId, entries[j]) {
        if j < |init| {
          assert entries[j] == init[j];
        }
      }
    }
  }

  lemma {:induction false} AddEntriesCovered(p: Progress, subjectId: Id, systemId: Id, entries: seq<MarksEntry>, clock: Clock)
    requires EntriesCovered(p.t, systemId, entries)
    ensures AddEntries(p, subjectId, systemId, entries, clock) == p
    decreases |entries|
  {
    if entries != [] {
      var init := entries[..|entries| - 1];
      assert forall j :: 0 <= j < |init| ==> init[j] == entries[j];
      AddEntriesCovered(p, subjectId, systemId, init, clock);
      AddEntryCovered(p, subjectId, systemId, entries[|entries| - 1], clock);
    }
  }

  // The systems of one subject.

  /** One system: its entries when the data lists its name, else nothing. */
  function AddSystem(p: Progress, subjectId: Id, systemId: Id, data: SystemData, clock: Clock): Progress {
    if systemId in p.t.systems && p.t.systems[systemId].name in data then
      AddEntries(p, subjectId, systemId, data[p.t.systems[systemId].name], clock)
    else p
  }

  /** The system's entries are covered, or the data lists nothing under its name. */
  predicate SystemCovered(t: Tables, systemId: Id, data: SystemData) {
    systemId in t.systems && t.systems[systemId].name in data ==>
      EntriesCovered(t, systemId, data[t.systems[systemId].name])
  }

  lemma SystemCoveredGrows(p: Progress, r: Progress, systemId: Id, data: SystemData)
    requires Extends(p, r) && SystemCovered(p.t, systemId, data)
    ensures SystemCovered(r.t, systemId, data)
  {
    if systemId in p.t.systems && p.t.systems[systemId].name in data {
      EntriesCoveredGrows(p, r, systemId, data[p.t.systems[systemId].name]);
    }
  }

  lemma AddSystemGrows(p: Progress, subjectId: Id, systemId: Id, data: SystemData, clock: Clock)
    requires Fresh(p) && SystemOf(p.t, subjectId, systemId)
    ensures Grows(p, AddSystem(p, subjectId, systemId, data, clock))
  {
    if p.t.systems[systemId].name in data {
      AddEntriesGrows(p, subjectId, systemId, data[p.t.systems[systemId].name], clock);
    } else {
      GrowsNone(p);
    }
  }

  lemma AddSystemCovers(p: Progress, subjectId: Id, systemId: Id, data: SystemData, clock: Clock)
    requires Fresh(p)
    ensures var r := AddSystem(p, subjectId, systemId, data, clock);
      SystemCovered(r.t, systemId, data) && Extends(p, r)
  {
    if systemId in p.t.systems && p.t.systems[systemId].name in data {
      AddEntriesCovers(p, subjectId, systemId, data[p.t.systems[systemId].name], clock);
    }
  }

  lemma AddSystemCovered(p: Progress, subjectId: Id, systemId: Id, data: SystemData, clock: Clock)
    requires SystemCovered(p.t, systemId, data)
    ensures AddSystem(p, subjectId, systemId, data, clock) == p
  {
    if systemId in p.t.systems && p.t.systems[systemId].name in data {
      AddEntriesCovered(p, subjectId, systemId, data[p.t.systems[systemId].name], clock);
    }
  }

  /** The loop over the systems `ys` of one subject, in order. */
  function AddSystems(p: Progress, subjectId: Id, ys: seq<Id>, data: SystemData, clock: Clock): Progress
    decreases |ys|
  {
    if ys == [] then p
    else AddSystem(AddSystems(p, subjectId, ys[..|ys| - 1], data, clock), subjectId, ys[|ys| - 1], data, clock)
  }

  predicate SystemsCovered(t: Tables, ys: seq<Id>, data: SystemData) {
    forall j :: 0 <= j < |ys| ==> SystemCovered(t, ys[j], data)
  }

  /** Each of `ys` is a system of the subject. */
  predicate OfSubject(t: Tables, subjectId: Id, ys: seq<Id>) {
    forall j :: 0 <= j < |ys| ==> SystemOf(t, subjectId, ys[j])
  }

  lemma SystemsCoveredGrows(p: Progress, r: Progress, ys: seq<Id>, data: SystemData)
    requires Extends(p, r) && SystemsCovered(p.t, ys, data)
    ensures SystemsCovered(r.t, ys, data)
  {
    forall j | 0 <= j < |ys| ensures SystemCovered(r.t, ys[j], data) {
      SystemCoveredGrows(p, r, ys[j], data);
    }
  }

  lemma {:induction false} AddSystemsGrows(p: Progress, subjectId: Id, ys: seq<Id>, data: SystemData, clock: Clock)
    requires Fresh(p) && OfSubject(p.t, subjectId, ys)
    ensures Grows(p, AddSystems(p, subjectId, ys, data, clock))
    decreases |ys|
  {
    if ys == [] {
      GrowsNone(p);
    } else {
      var init, last := ys[..|ys| - 1], ys[|ys| - 1];
      assert OfSubject(p.t, subjectId, init) by {
        forall j | 0 <= j < |init| ensures SystemOf(p.t, subjectId, init[j]) {
          assert init[j] == ys[j];
        }
      }
      AddSystemsGrows(p, subjectId, init, data, clock);
      var q := AddSystems(p, subjectId, init, data, clock);
      assert SystemOf(p.t, subjectId, last);
      assert SystemOf(q.t, subjectId, last);
      AddSystemGrows(q, subjectId, last, data, clock);
      GrowsTrans(p, q, AddSystem(q, subjectId, last, data, clock));
    }
  }

  lemma {:induction false} AddSystemsCovers(p: Progress, subjectId: Id, ys: seq<Id>, data: SystemData, clock: Clock)
    requires Fresh(p)
    ensures var r := AddSystems(p, subjectId, ys, data, clock);
      SystemsCovered(r.t, ys, data) && Extends(p, r)
    decreases |ys|
  {
    if ys != [] {
      var init, last := ys[..|ys| - 1], ys[|ys| - 1];
      AddSystemsCovers(p, subjectId, init, data, clock);
      var q := AddSystems(p, subjectId, init, data, clock);
      var r := AddSystem(q, subjectId, last, data, clock);
      AddSystemCovers(q, subjectId, last, data, clock);
      SystemsCoveredGrows(q, r, init, data);
      forall j | 0 <= j < |ys| ensures SystemCovered(r.t, ys[j], data) {
        if j < |init| {
          assert ys[j] == init[j];
        }
      }
    }
  }

  lemma {:induction false} AddSystemsCovered(p: Progress, subjectId: Id, ys: seq<Id>, data: SystemData, clock: Clock)
    requires SystemsCovered(p.t, ys, data)
    ensures AddSystems(p, subjectId, ys, data, clock) == p
    decreases |ys|
  {
    if ys != [] {
      var init := ys[..|ys| - 1];
      assert forall j :: 0 <= j < |init| ==> init[j] == ys[j];
      AddSystemsCovered(p, subjectId, init, data, clock);
      AddSystemCovered(p, subjectId, ys[|ys| - 1], data, clock);
    }
  }

  // The subjects.

  /** The systems of a subject in id order, as `include: { systems }` lists them. */
  function SystemList(t: Tables, subjectId: Id): (ys: seq<Id>)
    ensures forall y :: y in ys <==> y in t.systems && t.systems[y].subjectId == subjectId
    ensures forall i, j :: 0 <= i < j < |ys| ==> ys[i] < ys[j]
  {
    SortedIds(set y | y in t.systems && t.systems[y].subjectId == subjectId)
  }

  /** One subject: each of its systems with the data listed under the subject's name,
      or nothing when the data has no such name. */
  function AddSubject(p: Progress, subjectId: Id, data: QuestionsData, clock: Clock): Progress {
    if subjectId in p.t.subjects && p.t.subjects[subjectId].name in data then
      AddSystems(p, subjectId, SystemList(p.t, subjectId), data[p.t.subjects[subjectId].name], clock)
    else p
  }

  /** Every system of the subject is covered by the data under the subject's name, or
      the data has no such name. */
  predicate SubjectCovered(t: Tables, subjectId: Id, data: QuestionsData) {
    subjectId in t.subjects && t.subjects[subjectId].name in data ==>
      forall y :: y in t.systems && t.systems[y].subjectId == subjectId ==>
        SystemCovered(t, y, data[t.subjects[subjectId].name])
  }

  /** Covering the listed systems is covering every system of the subject. */
  lemma ListedCovered(t: Tables, subjectId: Id, systemData: SystemData)
    ensures SystemsCovered(t, SystemList(t, subjectId), systemData) <==>
      forall y :: y in t.systems && t.systems[y].subjectId == subjectId ==> SystemCovered(t, y, systemData)
  {
    var ys := SystemList(t, subjectId);
    if SystemsCovered(t, ys, systemData) {
      forall y | y in t.systems && t.systems[y].subjectId == subjectId ensures SystemCovered(t, y, systemData) {
        var j :| 0 <= j < |ys| && ys[j] == y;
      }
    }
  }

  lemma ListedOfSubject(t: Tables, subjectId: Id)
    requires subjectId in t.subjects
    ensures OfSubject(t, subjectId, SystemList(t, subjectId))
  {
    var ys := SystemList(t, subjectId);
    forall j | 0 <= j < |ys| ensures SystemOf(t, subjectId, ys[j]) {
      assert ys[j] in ys;
    }
  }

  lemma SubjectCoveredGrows(p: Progress, r: Progress, subjectId: Id, data: QuestionsData)
    requires Extends(p, r) && SubjectCovered(p.t, subjectId, data)
    ensures SubjectCovered(r.t, subjectId, data)
  {
    if subjectId in p.t.subjects && p.t.subjects[subjectId].name in data {
      var systemData := data[p.t.subjects[subjectId].name];
      forall y | y in r.t.systems && r.t.systems[y].subjectId == subjectId ensures SystemCovered(r.t, y, systemData) {
        SystemCoveredGrows(p, r, y, systemData);
      }
    }
  }

  lemma AddSubjectGrows(p: Progress, subjectId: Id, data: QuestionsData, clock: Clock)
    requires Fresh(p)
    ensures Grows(p, AddSubject(p, subjectId, data, clock))
  {
    if subjectId in p.t.subjects && p.t.subjects[subjectId].name in data {
      ListedOfSubject(p.t, subjectId);
      AddSystemsGrows(p, subjectId, SystemList(p.t, subjectId), data[p.t.subjects[subjectId].name], clock);
    } else {
      GrowsNone(p);
    }
  }

  lemma AddSubjectCovers(p: Progress, subjectId: Id, data: QuestionsData, clock: Clock)
    requires Fresh(p)
    ensures var r := AddSubject(p, subjectId, data, clock);
      SubjectCovered(r.t, subjectId, data) && Extends(p, r)
  {
    if subjectId in p.t.subjects && p.t.subjects[subjectId].name in data {
      var systemData := data[p.t.subjects[subjectId].name];
      var ys := SystemList(p.t, subjectId);
      AddSystemsCovers(p, subjectId, ys, systemData, clock);
      var r := AddSubject(p, subjectId, data, clock);
      assert SystemList(r.t, subjectId) == ys;
      ListedCovered(r.t, subjectId, systemData);
    }
  }

  lemma AddSubjectCovered(p: Progress, subjectId: Id, data: QuestionsData, clock: Clock)
    requires SubjectCovered(p.t, subjectId, data)
    ensures AddSubject(p, subjectId, data, clock) == p
  {
    if subjectId in p.t.subjects && p.t.subjects[subjectId].name in data {
      var systemData := data[p.t.subjects[subjectId].name];
      ListedCovered(p.t, subjectId, systemData);
      AddSystemsCovered(p, subjectId, SystemList(p.t, subjectId), systemData, clock);
    }
  }

  /** The outer loop, over the subjects `ks` in order. */
  function AddSubjects(p: Progress, ks: seq<Id>, data: QuestionsData, clock: Clock): Progress
    decreases |ks|
  {
    if ks == [] then p
    else AddSubject(AddSubjects(p, ks[..|ks| - 1], data, clock), ks[|ks| - 1], data, clock)
  }

  predicate SubjectsCovered(t: Tables, ks: seq<Id>, data: QuestionsData) {
    forall j :: 0 <= j < |ks| ==> SubjectCovered(t, ks[j], data)
  }

  lemma {:induction false} AddSubjectsGrows(p: Progress, ks: seq<Id>, data: QuestionsData, clock: Clock)
    requires Fresh(p)
    ensures Grows(p, AddSubjects(p, ks, data, clock))
    decreases |ks|
  {
    if ks == [] {
      GrowsNone(p);
    } else {
      var init := ks[..|ks| - 1];
      AddSubjectsGrows(p, init, data, clock);
      var q := AddSubjects(p, init, data, clock);
      AddSubjectGrows(q, ks[|ks| - 1], data, clock);
      GrowsTrans(p, q, AddSubject(q, ks[|ks| - 1], data, clock));
    }
  }

  lemma {:induction false} AddSubjectsCovers(p: Progress, ks: seq<Id>, data: QuestionsData, clock: Clock)
    requires Fresh(p)
    ensures var r := AddSubjects(p, ks, data, clock);
      SubjectsCovered(r.t, ks, data) && Extends(p, r)
    decreases |ks|
  {
    if ks != [] {
      var init, last := ks[..|ks| - 1], ks[|ks| - 1];
      AddSubjectsCovers(p, init, data, clock);
      var q := AddSubjects(p, init, data, clock);
      var r := AddSubject(q, last, data, clock);
      AddSubjectCovers(q, last, data, clock);
      forall j | 0 <= j < |ks| ensures SubjectCovered(r.t, ks[j], data) {
        if j < |init| {
          assert ks[j] == init[j];
          SubjectCoveredGrows(q, r, ks[j], data);
        }
      }
    }
  }

  lemma {:induction false} AddSubjectsCovered(p: Progress, ks: seq<Id>, data: QuestionsData, clock: Clock)
    requires SubjectsCovered(p.t, ks, data)
    ensures AddSubjects(p, ks, data, clock) == p
    decreases |ks|
  {
    if ks != [] {
      var init := ks[..|ks| - 1];
      assert forall j :: 0 <= j < |init| ==> init[j] == ks[j];
      AddSubjectsCovered(p, init, data, clock);
      AddSubjectCovered(p, ks[|ks| - 1], data, clock);
    }
  }

  // The whole run.

  /** Every subject is covered: each listed question is in the section its marks label
      picks, for every subject, system and label the catalog and the data share. */
  predicate AllCovered(t: Tables, data: QuestionsData) {
    forall k :: k in t.subjects ==> SubjectCovered(t, k, data)
  }

  /** The loops of POST, over every subject in id order (`findMany`), from the tables and
      id counter as they were and nothing added yet. */
  function Seeding(t: Tables, next: nat, data: QuestionsData, clock: Clock): Progress {
    AddSubjects(Progress(t, next, 0), SortedIds(t.subjects.Keys), data, clock)
  }

  /** A run creates only seeded questions, `added` of them under the ids the counter
      handed out, and leaves every subject covered. */
  lemma SeedingGrows(t: Tables, next: nat, data: QuestionsData, clock: Clock)
    requires IdsBelow(t.questions, next)
    ensures var r := Seeding(t, next, data, clock);
      Grows(Progress(t, next, 0), r) && AllCovered(r.t, data)
  {
    var p, ks := Progress(t, next, 0), SortedIds(t.subjects.Keys);
    AddSubjectsGrows(p, ks, data, clock);
    AddSubjectsCovers(p, ks, data, clock);
    var r := Seeding(t, next, data, clock);
    forall k | k in r.t.subjects ensures SubjectCovered(r.t, k, data) {
      assert k in ks;
      var j :| 0 <= j < |ks| && ks[j] == k;
    }
  }

  /** A run over tables that are already covered changes nothing and adds nothing. */
  lemma SeedingIdempotent(t: Tables, next: nat, data: QuestionsData, clock: Clock)
    requires AllCovered(t, data)
    ensures Seeding(t, next, data, clock) == Progress(t, next, 0)
  {
    var ks := SortedIds(t.subjects.Keys);
    assert SubjectsCovered(t, ks, data);
    AddSubjectsCovered(Progress(t, next, 0), ks, data, clock);
  }

  lemma AllCoveredIgnoresStats(t: Tables, u: Tables, data: QuestionsData)
    requires u == t.(stats := u.stats) && AllCovered(t, data)
    ensures AllCovered(u, data)
  {
    forall k | k in u.subjects ensures SubjectCovered(u, k, data) {
      assert SubjectCovered(t, k, data);
    }
  }

  /** Running the route a second time, after the first run's statistics refresh, adds
      no question and leaves the tables as they are. */
  lemma SecondRunAddsNothing(t: Tables, next: nat, data: QuestionsData, first: Clock, second: Clock)
    requires IdsBelow(t.questions, next)
    ensures var r := Seeding(t, next, data, first);
      Seeding(r.t.RefreshedIfPresent(), r.next, data, second) == Progress(r.t.RefreshedIfPresent(), r.next, 0)
  {
    SeedingGrows(t, next, data, first);
    var r := Seeding(t, next, data, first);
    AllCoveredIgnoresStats(r.t, r.t.RefreshedIfPresent(), data);
    SeedingIdempotent(r.t.RefreshedIfPresent(), r.next, data, second);
  }

  // The route's handlers, over the store, proved against the functions above.

  /** One listed question: `findFirst` by title and section, and `create` when there is
      none. */
  method SeedQuestion(db: Catalog, at: Target, info: QuestionInfo, clock: Clock, added: nat) returns (total: nat)
    requires db.Valid() && Placed(db.tables, at)
    modifies db
    ensures db.Valid() && db.tables == old(db.tables).(questions := db.tables.questions)
    ensures Progress(db.tables, db.nextId, total) == AddQuestion(Progress(old(db.tables), old(db.nextId), added), at, info, clock)
  {
    var existing := FindFirst(db.tables.questions, WithTitle(info.title, at.sectionId));
    FoundIffTitleTaken(db.tables.questions, info.title, at.sectionId);
    if existing.Some? {
      return added;
    }
    var id := db.NewId();
    db.PutQuestion(id, NewQuestion(info, at, clock));
    total := added + 1;
  }

  /** The questions of one entry, into its section. */
  method SeedList(db: Catalog, at: Target, infos: seq<QuestionInfo>, clock: Clock, added: nat) returns (total: nat)
    requires db.Valid() && Placed(db.tables, at)
    modifies db
    ensures db.Valid() && db.tables == old(db.tables).(questions := db.tables.questions)
    ensures Progress(db.tables, db.nextId, total) == AddList(Progress(old(db.tables), old(db.nextId), added), at, infos, clock)
  {
    ghost var p0 := Progress(db.tables, db.nextId, added);
    total := added;
    for i := 0 to |infos|
      invariant db.Valid() && db.tables == p0.t.(questions := db.tables.questions)
      invariant Progress(db.tables, db.nextId, total) == AddList(p0, at, infos[..i], clock)
    {
      total := SeedQuestion(db, at, infos[i], clock, total);
      assert infos[..i + 1][..i] == infos[..i];
    }
    assert infos[..|infos|] == infos;
  }

  /** One `[marksLabel, questions]` entry: the section `find` picks, then its questions. */
  method SeedEntry(db: Catalog, subjectId: Id, systemId: Id, e: MarksEntry, clock: Clock, added: nat) returns (total: nat)
    requires db.Valid() && SystemOf(db.tables, subjectId, systemId)
    modifies db
    ensures db.Valid() && db.tables == old(db.tables).(questions := db.tables.questions)
    ensures Progress(db.tables, db.nextId, total) == AddEntry(Progress(old(db.tables), old(db.nextId), added), subjectId, systemId, e, clock)
  {
    var section := SectionFor(db.tables.sections, systemId, e);
    if section.None? {
      return added;
    }
    total := SeedList(db, Target(subjectId, systemId, section.value), e.questions, clock, added);
  }

  /** The entries of one system, in the order written. */
  method SeedEntries(db: Catalog, subjectId: Id, systemId: Id, entries: seq<MarksEntry>, clock: Clock, added: nat)
    returns (total: nat)
    requires db.Valid() && SystemOf(db.tables, subjectId, systemId)
    modifies db
    ensures db.Valid() && db.tables == old(db.tables).(questions := db.tables.questions)
    ensures Progress(db.tables, db.nextId, total) == AddEntries(Progress(old(db.tables), old(db.nextId), added), subjectId, systemId, entries, clock)
  {
    ghost var p0 := Progress(db.tables, db.nextId, added);
    total := added;
    for i := 0 to |entries|
      invariant db.Valid() && db.tables == p0.t.(questions := db.tables.questions)
      invariant Progress(db.tables, db.nextId, total) == AddEntries(p0, subjectId, systemId, entries[..i], clock)
    {
      total := SeedEntry(db, subjectId, systemId, entries[i], clock, total);
      assert entries[..i + 1][..i] == entries[..i];
    }
    assert entries[..|entries|] == entries;
  }

  /** One system: its entries when the subject's data lists its name. */
  method SeedSystem(db: Catalog, subjectId: Id, systemId: Id, data: SystemData, clock: Clock, added: nat) returns (total: nat)
    requires db.Valid() && SystemOf(db.tables, subjectId, systemId)
    modifies db
    ensures db.Valid() && db.tables == old(db.tables).(questions := db.tables.questions)
    ensures Progress(db.tables, db.nextId, total) == AddSystem(Progress(old(db.tables), old(db.nextId), added), subjectId, systemId, data, clock)
  {
    var name := db.tables.systems[systemId].name;
    if name !in data {
      return added;
    }
    total := SeedEntries(db, subjectId, systemId, data[name], clock, added);
  }

  /** The systems `ys` of one subject, in order. */
  method SeedSystems(db: Catalog, subjectId: Id, ys: seq<Id>, data: SystemData, clock: Clock, added: nat) returns (total: nat)
    requires db.Valid() && OfSubject(db.tables, subjectId, ys)
    modifies db
    ensures db.Valid() && db.tables == old(db.tables).(questions := db.tables.questions)
    ensures Progress(db.tables, db.nextId, total) == AddSystems(Progress(old(db.tables), old(db.nextId), added), subjectId, ys, data, clock)
  {
    ghost var p0 := Progress(db.tables, db.nextId, added);
    total := added;
    for i := 0 to |ys|
      invariant db.Valid() && db.tables == p0.t.(questions := db.tables.questions)
      invariant Progress(db.tables, db.nextId, total) == AddSystems(p0, subjectId, ys[..i], data, clock)
    {
      assert SystemOf(p0.t, subjectId, ys[i]);
      total := SeedSystem(db, subjectId, ys[i], data, clock, total);
      assert ys[..i + 1][..i] == ys[..i];
    }
    assert ys[..|ys|] == ys;
  }

  /** One subject: each of its systems, when the data lists the subject's name. */
  method SeedSubject(db: Catalog, subjectId: Id, data: QuestionsData, clock: Clock, added: nat) returns (total: nat)
    requires db.Valid()
    modifies db
    ensures db.Valid() && db.tables == old(db.tables).(questions := db.tables.questions)
    ensures Progress(db.tables, db.nextId, total) == AddSubject(Progress(old(db.tables), old(db.nextId), added), subjectId, data, clock)
  {
    if subjectId !in db.tables.subjects || db.tables.subjects[subjectId].name !in data {
      return added;
    }
    ListedOfSubject(db.tables, subjectId);
    total := SeedSystems(db, subjectId, SystemList(db.tables, subjectId), data[db.tables.subjects[subjectId].name], clock, added);
  }

  /** The subjects `ks`, in order. */
  method SeedSubjects(db: Catalog, ks: seq<Id>, data: QuestionsData, clock: Clock, added: nat) returns (total: nat)
    requires db.Valid()
    modifies db
    ensures db.Valid()
    ensures Progress(db.tables, db.nextId, total) == AddSubjects(Progress(old(db.tables), old(db.nextId), added), ks, data, clock)
  {
    ghost var p0 := Progress(db.tables, db.nextId, added);
    total := added;
    for i := 0 to |ks|
      invariant db.Valid()
      invariant Progress(db.tables, db.nextId, total) == AddSubjects(p0, ks[..i], data, clock)
    {
      total := SeedSubject(db, ks[i], data, clock, total);
      assert ks[..i + 1][..i] == ks[..i];
    }
    assert ks[..|ks|] == ks;
  }

  /** POST: the loops over every subject in id order, then the statistics refresh; no
      write fails in the store, so the report lists no error. */
  method Post(db: Catalog, data: QuestionsData, clock: Clock) returns (r: Response<QuestionsReport>)
    requires db.Valid()
    modifies db
    ensures db.Valid()
    ensures var run := Seeding(old(db.tables), old(db.nextId), data, clock);
      r == Ok(QuestionsReport(run.added, [])) && db.tables == run.t.RefreshedIfPresent() && db.nextId == run.next
  {
    var total := SeedSubjects(db, SortedIds(db.tables.subjects.Keys), data, clock, 0);
    db.RefreshStatisticsIfPresent();
    r := Ok(QuestionsReport(total, []));
  }

  /** The data of GET. */
  datatype SeedStatus = SeedStatus(hasQuestions: bool, questionsCount: nat)

  /** GET: whether any question exists, and how many. */
  function Status(t: Tables): (r: SeedStatus)
    ensures r.hasQuestions <==> r.questionsCount > 0
    ensures r.hasQuestions <==> exists k :: k in t.questions
  {
    if |t.questions| > 0 then
      assert exists k :: k in t.questions by {
        var k :| k in t.questions.Keys;
      }
      SeedStatus(true, |t.questions|)
    else SeedStatus(false, 0)
  }

  /** After a run that added questions, GET reports that questions exist, and counts
      those added on top of those already there. */
  lemma StatusAfterSeeding(t: Tables, next: nat, data: QuestionsData, clock: Clock)
    requires IdsBelow(t.questions, next)
    ensures var run := Seeding(t, next, data, clock);
      Status(run.t.RefreshedIfPresent()).questionsCount == |t.questions| + run.added &&
      (run.added > 0 ==> Status(run.t.RefreshedIfPresent()).hasQuestions)
  {
    SeedingGrows(t, next, data, clock);
  }
}
