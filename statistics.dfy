/** The statistics route: the recount of the singleton row (GET and PUT), and the figures
    GET reports beside it: bookmarks, the sum of repeat counts, questions with files,
    recent questions, per-subject counts and the breakdown by marks section. */
module Statistics {
  import opened Common
  import opened Ordering
  import opened Store

  /** PUT: recount the four tables, overwrite the row or create it when there is none,
      and answer with the row. */
  method Refresh(db: Catalog) returns (r: Response<Store.Statistics>)
    requires db.Valid()
    modifies db
    ensures db.Valid() && db.nextId == old(db.nextId)
    ensures db.tables == old(db.tables).Refreshed()
    ensures r.Ok? && db.tables.stats == Some(r.value)
    ensures r.value.totalSubjects == |db.tables.subjects| && r.value.totalSystems == |db.tables.systems|
    ensures r.value.totalQuestions == |db.tables.questions| && r.value.totalFiles == |db.tables.files|
  {
    db.RefreshStatistics();
    r := Ok(db.tables.Recount());
  }

  /** A refresh right after a refresh changes nothing: there is only ever one row, and
      it already holds the counts. */
  lemma RefreshIdempotent(t: Tables)
    ensures t.Refreshed().Refreshed() == t.Refreshed()
  {
  }

  /** The sum of the repeat counts of the questions `ids`. */
  function RepeatSum(questions: map<Id, Question>, ids: set<Id>): (r: int)
    requires ids <= questions.Keys
    ensures ids == {} ==> r == 0
    ensures (forall k :: k in ids ==> questions[k].repeatCount >= 0) ==> r >= 0
    decreases ids
  {
    if ids == {} then 0
    else
      var k := MinOf(ids);
      questions[k].repeatCount + RepeatSum(questions, ids - {k})
  }

  /** Adding one question to the summed set adds its repeat count, wherever its id falls. */
  lemma {:induction false} RepeatSumAdd(questions: map<Id, Question>, ids: set<Id>, k: Id)
    requires ids <= questions.Keys && k in questions && k !in ids
    ensures RepeatSum(questions, ids + {k}) == RepeatSum(questions, ids) + questions[k].repeatCount
    decreases ids
  {
    var u := ids + {k};
    var m := MinOf(u);
    if m == k {
      assert u - {m} == ids;
    } else {
      assert m in ids;
      assert MinOf(ids) == m;
      assert u - {m} == (ids - {m}) + {k};
      RepeatSumAdd(questions, ids - {m}, k);
    }
  }

  /** The sum only reads the rows it sums. */
  lemma {:induction false} RepeatSumFrame(a: map<Id, Question>, b: map<Id, Question>, ids: set<Id>)
    requires ids <= a.Keys && ids <= b.Keys
    requires forall k :: k in ids ==> a[k].repeatCount == b[k].repeatCount
    ensures RepeatSum(a, ids) == RepeatSum(b, ids)
    decreases ids
  {
    if ids != {} {
      RepeatSumFrame(a, b, ids - {MinOf(ids)});
    }
  }

  /** `totalRepeatCount`: `_sum.repeatCount || 0`, the sum over every question, 0 when
      there is none. */
  function TotalRepeatCount(questions: map<Id, Question>): (r: int)
    ensures questions == map[] ==> r == 0
    ensures (forall k :: k in questions ==> questions[k].repeatCount >= 0) ==> r >= 0
  {
    RepeatSum(questions, questions.Keys)
  }

  /** Storing a new question raises the total by its repeat count. */
  lemma TotalAfterInsert(questions: map<Id, Question>, k: Id, q: Question)
    requires k !in questions
    ensures TotalRepeatCount(questions[k := q]) == TotalRepeatCount(questions) + q.repeatCount
  {
    var m := questions[k := q];
    assert m.Keys == questions.Keys + {k};
    RepeatSumAdd(m, questions.Keys, k);
    RepeatSumFrame(m, questions, questions.Keys);
  }

  /** A subset is no larger than the set. */
  lemma SubsetCard(a: set<Id>, b: set<Id>)
    requires a <= b
    ensures |a| <= |b|
  {
    assert b == a + (b - a);
  }

  /** `count({ where: { isBookmarked: true } })`. */
  function Bookmarked(questions: map<Id, Question>): (r: nat)
    ensures r <= |questions|
  {
    var s := set k | k in questions && questions[k].isBookmarked;
    SubsetCard(s, questions.Keys);
    |s|
  }

  /** The span a question counts as recent for: seven days, in milliseconds. */
  const RecentSpan := 7 * 24 * 60 * 60 * 1000

  /** `count({ where: { createdAt: { gte: now - 7 days } } })`. */
  function Recent(questions: map<Id, Question>, now: int): (r: nat)
    ensures r <= |questions|
    ensures (forall k :: k in questions ==> questions[k].createdAt < now - RecentSpan) ==> r == 0
  {
    var s := set k | k in questions && questions[k].createdAt >= now - RecentSpan;
    SubsetCard(s, questions.Keys);
    assert (forall k :: k in questions ==> questions[k].createdAt < now - RecentSpan) ==> s == {};
    |s|
  }

  /** `count({ where: { files: { some: {} } } })`: the questions at least one file
      belongs to. */
  function WithFiles(t: Tables): (r: nat)
    ensures r <= |t.questions|
    ensures t.files == map[] ==> r == 0
  {
    var s := set k | k in t.questions && exists f :: f in t.files && t.files[f].questionId == k;
    SubsetCard(s, t.questions.Keys);
    assert t.files == map[] ==> s == {};
    |s|
  }

  /** One row of `subjectBreakdown`: a subject and how many systems and questions it has. */
  datatype SubjectCounts = SubjectCounts(id: Id, name: string, color: string, systems: nat, questions: nat)

  function CountsOf(t: Tables, id: Id): (c: SubjectCounts)
    requires id in t.subjects
    ensures c.id == id && c.name == t.subjects[id].name && c.color == t.subjects[id].color
    ensures c.systems <= |t.systems| && c.questions <= |t.questions|
  {
    var systems := set k | k in t.systems && t.systems[k].subjectId == id;
    var questions := set k | k in t.questions && t.questions[k].subjectId == id;
    SubsetCard(systems, t.systems.Keys);
    SubsetCard(questions, t.questions.Keys);
    SubjectCounts(id, t.subjects[id].name, t.subjects[id].color, |systems|, |questions|)
  }

  function CountsFor(t: Tables, ids: seq<Id>): (r: seq<SubjectCounts>)
    requires forall k :: k in ids ==> k in t.subjects
    ensures |r| == |ids|
    ensures forall i :: 0 <= i < |ids| ==> r[i] == CountsOf(t, ids[i])
    ensures forall k :: k in ids ==> exists i :: 0 <= i < |r| && r[i].id == k
  {
    if ids == [] then [] else [CountsOf(t, ids[0])] + CountsFor(t, ids[1..])
  }

  /** `subjectBreakdown`: every subject once. */
  function SubjectBreakdown(t: Tables): (r: seq<SubjectCounts>)
    ensures |r| == |t.subjects|
    ensures forall i :: 0 <= i < |r| ==> r[i].id in t.subjects && r[i] == CountsOf(t, r[i].id)
    ensures forall k :: k in t.subjects ==> exists i :: 0 <= i < |r| && r[i].id == k
  {
    var ids := SortedIds(t.subjects.Keys);
    CountsFor(t, ids)
  }

  /** One row of `marksBreakdown`. */
  datatype MarksCount = MarksCount(marks: int, labelText: string, count: nat)

  /** The questions filed under section `sectionId`. */
  function InGroup(questions: map<Id, Question>, sectionId: Id): set<Id> {
    set k | k in questions && questions[k].marksSectionId == sectionId
  }

  /** The groups of `groupBy(['marksSectionId'])`: the sections that have questions. */
  function Groups(questions: map<Id, Question>): set<Id> {
    set k | k in questions :: questions[k].marksSectionId
  }

  /** The entry of one group: the section's marks and label (`|| 0`, `|| ''` when the
      section is not found), and the group's size. */
  function Entry(t: Tables, sectionId: Id): (e: MarksCount)
    ensures e.count == |InGroup(t.questions, sectionId)|
    ensures sectionId !in t.sections ==> e.marks == 0 && e.labelText == ""
    ensures sectionId in t.sections ==> e.marks == t.sections[sectionId].marks && e.labelText == t.sections[sectionId].labelText
  {
    if sectionId in t.sections then
      var s := t.sections[sectionId];
      MarksCount(s.marks, s.labelText, |InGroup(t.questions, sectionId)|)
    else
      MarksCount(0, "", |InGroup(t.questions, sectionId)|)
  }

  function Entries(t: Tables, groups: seq<Id>): (r: seq<MarksCount>)
    ensures |r| == |groups|
    ensures forall i :: 0 <= i < |groups| ==> r[i] == Entry(t, groups[i])
  {
    if groups == [] then [] else [Entry(t, groups[0])] + Entries(t, groups[1..])
  }

  /** `marksBreakdown`: one entry per section that has questions, in the order of the
      groups. */
  function MarksBreakdown(t: Tables): (r: seq<MarksCount>)
    ensures |r| == |Groups(t.questions)|
  {
    Entries(t, SortedIds(Groups(t.questions)))
  }

  /** A section is a group exactly when it has questions. */
  lemma GroupIffQuestions(questions: map<Id, Question>, sectionId: Id)
    ensures sectionId in Groups(questions) <==> |InGroup(questions, sectionId)| > 0
  {
    if sectionId in Groups(questions) {
      var k :| k in questions && questions[k].marksSectionId == sectionId;
      assert k in InGroup(questions, sectionId);
    }
  }

  /** The breakdown has one entry for each section with questions, in increasing id
      order, counting that section's questions (never 0). */
  lemma BreakdownGroups(t: Tables)
    ensures var ids := SortedIds(Groups(t.questions)); var r := MarksBreakdown(t);
      (forall s :: s in ids <==> |InGroup(t.questions, s)| > 0) &&
      (forall i :: 0 <= i < |r| ==> r[i] == Entry(t, ids[i]) && r[i].count > 0)
  {
    var ids := SortedIds(Groups(t.questions));
    forall s ensures s in ids <==> |InGroup(t.questions, s)| > 0 {
      GroupIffQuestions(t.questions, s);
    }
  }

  /** The sum of the counts of `entries`. */
  function CountSum(entries: seq<MarksCount>): nat {
    if entries == [] then 0 else entries[0].count + CountSum(entries[1..])
  }

  /** The questions whose section is one of `groups`. */
  function InGroups(questions: map<Id, Question>, groups: seq<Id>): set<Id> {
    set k | k in questions && questions[k].marksSectionId in groups
  }

  lemma {:induction false} CountSumGroups(t: Tables, groups: seq<Id>)
    requires Distinct(groups)
    ensures CountSum(Entries(t, groups)) == |InGroups(t.questions, groups)|
  {
    if groups != [] {
      var g := groups[0];
      var rest := groups[1..];
      DistinctTail(groups);
      CountSumGroups(t, rest);
      assert Entries(t, groups)[1..] == Entries(t, rest);
      assert groups == [g] + rest;
      InGroupsSplit(t.questions, g, rest, groups);
    }
  }

  /** The questions of the first group and those of the others split the questions of all. */
  lemma InGroupsSplit(questions: map<Id, Question>, g: Id, rest: seq<Id>, groups: seq<Id>)
    requires groups == [g] + rest && g !in rest
    ensures InGroup(questions, g) * InGroups(questions, rest) == {}
    ensures InGroups(questions, groups) == InGroup(questions, g) + InGroups(questions, rest)
  {
    forall k | k in InGroups(questions, groups)
      ensures k in InGroup(questions, g) || k in InGroups(questions, rest)
    {
      assert questions[k].marksSectionId in groups;
    }
  }

  /** The counts of the breakdown add up to the number of questions. */
  lemma BreakdownTotal(t: Tables)
    ensures CountSum(MarksBreakdown(t)) == |t.questions|
  {
    var ids := SortedIds(Groups(t.questions));
    assert Distinct(ids);
    CountSumGroups(t, ids);
    assert InGroups(t.questions, ids) == t.questions.Keys;
  }

  /** What GET answers: the row and the figures beside it. */
  datatype Overview = Overview(
    stats: Store.Statistics,
    bookmarkedQuestions: nat,
    totalRepeatCount: int,
    questionsWithFiles: nat,
    recentQuestions: nat,
    subjectBreakdown: seq<SubjectCounts>,
    marksBreakdown: seq<MarksCount>)

  function OverviewOf(t: Tables, now: int): (o: Overview)
    ensures o.stats == t.Recount()
    ensures o.totalRepeatCount == TotalRepeatCount(t.questions)
    ensures o.bookmarkedQuestions == Bookmarked(t.questions) && o.recentQuestions == Recent(t.questions, now)
    ensures o.questionsWithFiles == WithFiles(t)
    ensures o.subjectBreakdown == SubjectBreakdown(t) && o.marksBreakdown == MarksBreakdown(t)
  {
    Overview(t.Recount(), Bookmarked(t.questions), TotalRepeatCount(t.questions), WithFiles(t),
             Recent(t.questions, now), SubjectBreakdown(t), MarksBreakdown(t))
  }

  /** GET: the same create-or-update of the row as PUT, then the figures of the tables. */
  method Get(db: Catalog, now: int) returns (r: Response<Overview>)
    requires db.Valid()
    modifies db
    ensures db.Valid() && db.nextId == old(db.nextId)
    ensures db.tables == old(db.tables).Refreshed()
    ensures r == Ok(OverviewOf(db.tables, now))
    ensures db.tables.stats == Some(r.value.stats)
  {
    db.RefreshStatistics();
    r := Ok(OverviewOf(db.tables, now));
  }
}
