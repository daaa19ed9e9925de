/** The questions route: create, update and delete of a question, with the repeat count
    and importance score derived from its exam years, and the filtered, ordered listing. */
module Questions {
  import opened Common
  import opened Text
  import opened Scoring
  import opened Ordering
  import opened Store

  /** The derived columns agree with the years: the years are a list the handlers wrote,
      the repeat count is its length and the score is computed from it in `currentYear`. */
  predicate Derived(q: Question, currentYear: int) {
    q.years.Serialized? && q.repeatCount == |q.years.list| &&
    q.importanceScore == ImportanceScore(|q.years.list|, q.years.list, q.globalImportance, currentYear)
  }

  /** The fields of a POST or PUT body; an absent field is `None`. */
  datatype Body = Body(
    title: Option<string>,
    description: Option<string>,
    years: Option<seq<string>>,
    globalImportance: Option<real>,
    notes: Option<string>,
    isBookmarked: Option<bool>,
    subjectId: Option<Id>,
    systemId: Option<Id>,
    sectionId: Option<Id>)

  /** The question a create stores: trimmed title, trimmed optional texts or none, the
      years given or none, the weight given or 0.5, the bookmark given or false, and the
      repeat count and score derived from the years. */
  function NewQuestion(b: Body, now: int, currentYear: int): (q: Question)
    requires b.title.Some? && ParentsGiven(b)
    ensures Derived(q, currentYear) && q.years.list == b.years.GetOr([]) && q.repeatCount == |b.years.GetOr([])|
    ensures 0.0 <= q.importanceScore <= 1.0 && WholeHundredths(q.importanceScore)
  {
    var years := b.years.GetOr([]);
    var g := b.globalImportance.GetOr(0.5);
    Question(Trim(b.title.value), TrimOrNull(b.description), |years|, Serialized(years),
             ImportanceScore(|years|, years, g, currentYear), g, TrimOrNull(b.notes), b.isBookmarked.GetOr(false),
             b.subjectId.value, b.systemId.value, b.sectionId.value, now)
  }

  /** The three parent ids are all given. */
  predicate ParentsGiven(b: Body) {
    b.subjectId.Some? && b.systemId.Some? && b.sectionId.Some?
  }

  /** POST: a blank title is refused, then a missing parent id; then an unknown subject,
      system or section (checked in that order) is not found. Otherwise the question is
      stored and the statistics are refreshed. */
  method Create(db: Catalog, b: Body, now: int, currentYear: int) returns (r: Response<Id>)
    requires db.Valid()
    modifies db
    ensures db.Valid()
    ensures IsBlank(b.title) ==> r == BadRequest("Question title is required")
    ensures !IsBlank(b.title) && !ParentsGiven(b) ==> r == BadRequest("Subject, System, and Marks Section are required")
    ensures !IsBlank(b.title) && ParentsGiven(b) ==>
      var t := old(db.tables);
      (b.subjectId.value !in t.subjects ==> r == NotFound("Subject not found")) &&
      (b.subjectId.value in t.subjects && b.systemId.value !in t.systems ==> r == NotFound("System not found")) &&
      (b.subjectId.value in t.subjects && b.systemId.value in t.systems && b.sectionId.value !in t.sections ==>
        r == NotFound("Marks section not found")) &&
      (b.subjectId.value in t.subjects && b.systemId.value in t.systems && b.sectionId.value in t.sections ==>
        r == Ok(old(db.nextId)) && old(db.nextId) !in t.questions &&
        db.tables == t.(questions := t.questions[old(db.nextId) := NewQuestion(b, now, currentYear)]).Refreshed())
    ensures !r.Ok? ==> db.tables == old(db.tables) && db.nextId == old(db.nextId)
  {
    if IsBlank(b.title) {
      return BadRequest("Question title is required");
    }
    if !ParentsGiven(b) {
      return BadRequest("Subject, System, and Marks Section are required");
    }
    if b.subjectId.value !in db.tables.subjects {
      return NotFound("Subject not found");
    }
    if b.systemId.value !in db.tables.systems {
      return NotFound("System not found");
    }
    if b.sectionId.value !in db.tables.sections {
      return NotFound("Marks section not found");
    }
    var q := NewQuestion(b, now, currentYear);
    var id := db.NewId();
    db.PutQuestion(id, q);
    db.RefreshStatistics();
    r := Ok(id);
  }

  /** The question an update stores: each field given replaces the stored one (texts
      trimmed); the years are the ones given or else the stored ones read back, and the
      repeat count and score are always derived again. */
  function UpdatedQuestion(q: Question, e: Body, currentYear: int): (u: Question)
    ensures Derived(u, currentYear)
    ensures e.years.Some? ==> u.years.list == e.years.value
    ensures e.years.None? ==> u.years.list == ParseYears(q.years)
  {
    var ys := if e.years.Some? then e.years.value else ParseYears(q.years);
    var g := e.globalImportance.GetOr(q.globalImportance);
    Question(TrimOr(e.title, q.title), TrimOrKeep(e.description, q.description), |ys|, Serialized(ys),
             ImportanceScore(|ys|, ys, g, currentYear), g, TrimOrKeep(e.notes, q.notes),
             e.isBookmarked.GetOr(q.isBookmarked), e.subjectId.GetOr(q.subjectId), e.systemId.GetOr(q.systemId),
             e.sectionId.GetOr(q.marksSectionId), q.createdAt)
  }

  /** An update that gives no field changes nothing in a question whose derived columns
      are current: omitted fields keep their values and the derivation reproduces the
      stored count and score. */
  lemma UpdateNothingChangesNothing(q: Question, currentYear: int)
    requires Derived(q, currentYear)
    ensures UpdatedQuestion(q, Body(None, None, None, None, None, None, None, None, None), currentYear) == q
  {
    assert ParseYears(q.years) == q.years.list;
  }

  /** The fields an update may not touch: the title, texts, bookmark and parents of the
      updated question are the given ones or else the stored ones. */
  lemma UpdateKeepsOmitted(q: Question, e: Body, currentYear: int)
    ensures var u := UpdatedQuestion(q, e, currentYear);
      (e.title.None? ==> u.title == q.title) && (e.description.None? ==> u.description == q.description) &&
      (e.notes.None? ==> u.notes == q.notes) && (e.isBookmarked.None? ==> u.isBookmarked == q.isBookmarked)
    ensures var u := UpdatedQuestion(q, e, currentYear);
      (e.globalImportance.None? ==> u.globalImportance == q.globalImportance) &&
      (e.subjectId.None? ==> u.subjectId == q.subjectId) && (e.systemId.None? ==> u.systemId == q.systemId) &&
      (e.sectionId.None? ==> u.marksSectionId == q.marksSectionId) && u.createdAt == q.createdAt
  {
    var u := UpdatedQuestion(q, e, currentYear);
    assert u.title == TrimOr(e.title, q.title) && u.description == TrimOrKeep(e.description, q.description);
    assert u.notes == TrimOrKeep(e.notes, q.notes);
  }

  /** Each parent id that is given names an existing row. */
  predicate GivenExist(t: Tables, subjectId: Option<Id>, systemId: Option<Id>, sectionId: Option<Id>) {
    (subjectId.Some? ==> subjectId.value in t.subjects) &&
    (systemId.Some? ==> systemId.value in t.systems) &&
    (sectionId.Some? ==> sectionId.value in t.sections)
  }

  /** PUT: a missing id is refused, an unknown one is not found; a given subject, system or
      section that does not exist is not found (checked in that order). Otherwise the
      question is replaced by `UpdatedQuestion`. Statistics are not touched. */
  method Update(db: Catalog, id: Option<Id>, e: Body, currentYear: int) returns (r: Response<Id>)
    requires db.Valid()
    modifies db
    ensures db.Valid() && db.nextId == old(db.nextId)
    ensures id.None? ==> r == BadRequest("Question ID is required")
    ensures id.Some? && id.value !in old(db.tables.questions) ==> r == NotFound("Question not found")
    ensures id.Some? && id.value in old(db.tables.questions) ==>
      var t := old(db.tables);
      (e.subjectId.Some? && e.subjectId.value !in t.subjects ==> r == NotFound("Subject not found")) &&
      (GivenExist(t, e.subjectId, None, None) && e.systemId.Some? && e.systemId.value !in t.systems ==>
        r == NotFound("System not found")) &&
      (GivenExist(t, e.subjectId, e.systemId, None) && e.sectionId.Some? && e.sectionId.value !in t.sections ==>
        r == NotFound("Marks section not found")) &&
      (GivenExist(t, e.subjectId, e.systemId, e.sectionId) ==>
        r == Ok(id.value) &&
        db.tables == t.(questions := t.questions[id.value := UpdatedQuestion(t.questions[id.value], e, currentYear)]))
    ensures !r.Ok? ==> db.tables == old(db.tables)
  {
    if id.None? {
      return BadRequest("Question ID is required");
    }
    if id.value !in db.tables.questions {
      return NotFound("Question not found");
    }
    if e.subjectId.Some? && e.subjectId.value !in db.tables.subjects {
      return NotFound("Subject not found");
    }
    if e.systemId.Some? && e.systemId.value !in db.tables.systems {
      return NotFound("System not found");
    }
    if e.sectionId.Some? && e.sectionId.value !in db.tables.sections {
      return NotFound("Marks section not found");
    }
    var existing := db.tables.questions[id.value];
    assert QuestionLinked(existing, db.tables.subjects, db.tables.systems, db.tables.sections);
    var u := UpdatedQuestion(existing, e, currentYear);
    assert u.subjectId == e.subjectId.GetOr(existing.subjectId) && u.systemId == e.systemId.GetOr(existing.systemId);
    assert u.marksSectionId == e.sectionId.GetOr(existing.marksSectionId);
    db.PutQuestion(id.value, u);
    r := Ok(id.value);
  }

  /** DELETE: a missing id is refused, an unknown one is not found; otherwise the question
      goes, with its files and folders, and the statistics are refreshed. */
  method Delete(db: Catalog, id: Option<Id>) returns (r: Response<Id>)
    requires db.Valid()
    modifies db
    ensures db.Valid() && db.nextId == old(db.nextId)
    ensures id.None? ==> r == BadRequest("Question ID is required")
    ensures id.Some? && id.value !in old(db.tables.questions) ==> r == NotFound("Question not found")
    ensures id.Some? && id.value in old(db.tables.questions) ==>
      r == Ok(id.value) && db.tables == Prune(old(db.tables).(questions := old(db.tables.questions) - {id.value})).Refreshed()
    ensures !r.Ok? ==> db.tables == old(db.tables)
  {
    if id.None? {
      return BadRequest("Question ID is required");
    }
    if id.value !in db.tables.questions {
      return NotFound("Question not found");
    }
    db.Remove(db.tables.(questions := db.tables.questions - {id.value}));
    db.RefreshStatistics();
    r := Ok(id.value);
  }

  /** `s` occurs in `text` (Prisma's `contains`, compared character by character). */
  predicate Contains(text: string, s: string) {
    exists i :: 0 <= i <= |text| - |s| && OccursAt(text, s, i)
  }

  predicate OccursAt(text: string, s: string, i: int) {
    0 <= i <= |text| - |s| && text[i..i + |s|] == s
  }

  /** The listing's filter: each parent id that is given must match, and a non-empty
      search text must occur in the title or the description. */
  datatype Filter = Filter(subjectId: Option<Id>, systemId: Option<Id>, sectionId: Option<Id>, search: Option<string>)

  predicate Matches(f: Filter, q: Question) {
    (f.subjectId.Some? ==> q.subjectId == f.subjectId.value) &&
    (f.systemId.Some? ==> q.systemId == f.systemId.value) &&
    (f.sectionId.Some? ==> q.marksSectionId == f.sectionId.value) &&
    (Truthy(f.search) ==> Contains(q.title, f.search.value) ||
                           (q.description.Some? && Contains(q.description.value, f.search.value)))
  }

  function Keep(f: Filter): Question -> bool {
    (q: Question) => Matches(f, q)
  }

  /** The columns a listing may be ordered by. */
  predicate Sortable(column: string) {
    column == "importanceScore" || column == "repeatCount" || column == "createdAt" || column == "title"
  }

  function Column(column: string, q: Question): Field {
    if column == "importanceScore" then Num(q.importanceScore)
    else if column == "repeatCount" then Num(q.repeatCount as real)
    else if column == "createdAt" then Num(q.createdAt as real)
    else Txt(q.title)
  }

  /** The numbers a numeric sort column orders by: the column, then the creation time. */
  function Numbers(column: string): Question -> seq<real> {
    (q: Question) =>
      if column == "importanceScore" then [q.importanceScore, q.createdAt as real]
      else if column == "repeatCount" then [q.repeatCount as real, q.createdAt as real]
      else if column == "createdAt" then [q.createdAt as real, q.createdAt as real]
      else [q.createdAt as real]
  }

  /** The sort key: the requested column when it is one of the sortable ones, then the
      creation time. */
  function SortKey(column: string): Question -> seq<Field> {
    if column == "title" then (q: Question) => [Txt(q.title), Num(q.createdAt as real)]
    else NumsKey(Numbers(column))
  }

  /** The directions: the requested column ascending only for "asc", then newest first. */
  function SortDirs(column: string, direction: string): (dirs: seq<Dir>)
    ensures |dirs| == if Sortable(column) then 2 else 1
  {
    if Sortable(column) then [if direction == "asc" then Asc else Desc, Desc] else [Desc]
  }

  lemma SortKeyFits(m: map<Id, Question>, column: string, direction: string)
    ensures forall x :: x in m ==> |SortKey(column)(m[x])| == |SortDirs(column, direction)|
  {
    if column != "title" {
      forall x | x in m ensures |SortKey(column)(m[x])| == |SortDirs(column, direction)| {
        assert |Numbers(column)(m[x])| == |SortDirs(column, direction)|;
      }
    }
  }

  /** The ordered, filtered questions before the `take`. */
  function Listing(t: Tables, f: Filter, column: string, direction: string): seq<Keyed<Id>> {
    SortKeyFits(t.questions, column, direction);
    Query(t.questions, Keep(f), SortKey(column), SortDirs(column, direction))
  }

  /** A question as the listing returns it: its row with the years read back. */
  datatype QuestionView = QuestionView(id: Id, question: Question, years: seq<string>)

  /** The rows of the listed ids, each with its years read back; ids without a row are
      skipped. */
  function Views(t: Tables, ids: seq<Id>): (r: seq<QuestionView>)
    ensures |r| <= |ids|
    ensures forall i :: 0 <= i < |r| ==> r[i].id in t.questions && r[i].question == t.questions[r[i].id] && r[i].years == ParseYears(r[i].question.years)
    ensures (forall i :: 0 <= i < |ids| ==> ids[i] in t.questions) ==> |r| == |ids| && forall i :: 0 <= i < |r| ==> r[i].id == ids[i]
  {
    if ids == [] then []
    else if ids[0] in t.questions then
      [QuestionView(ids[0], t.questions[ids[0]], ParseYears(t.questions[ids[0]].years))] + Views(t, ids[1..])
    else Views(t, ids[1..])
  }

  /** The rows kept by a `limit` parameter: all of them without one, else `take:
      parseInt(limit)`, where a negative count takes from the end; a limit that is not a
      number makes the query fail. */
  function Limited(rows: seq<Keyed<Id>>, limit: Option<string>): Response<seq<Keyed<Id>>> {
    if !Truthy(limit) then Ok(rows)
    else match ParseInt(limit.value)
      case None => ServerError("Failed to fetch questions")
      case Some(n) => Ok(Take(rows, n))
  }

  /** GET: with an id, that question (or not found); without one, the questions that
      match the filter, ordered by the requested column (the score by default, descending
      unless "asc") and then newest first, cut to the limit. */
  function Get(t: Tables, id: Option<Id>, f: Filter, limit: Option<string>, orderBy: Option<string>, orderDir: Option<string>)
    : Response<seq<QuestionView>>
  {
    if id.Some? then
      if id.value in t.questions then Ok(Views(t, [id.value])) else NotFound("Question not found")
    else
      var rows := Listing(t, f, OrDefault(orderBy, "importanceScore"), OrDefault(orderDir, "desc"));
      match Limited(rows, limit)
      case Ok(kept) => Ok(Views(t, Items(kept)))
      case BadRequest(e) => BadRequest(e)
      case NotFound(e) => NotFound(e)
      case ServerError(e) => ServerError(e)
  }

  /** The listing holds exactly the matching questions, each once, and each row is
      ordered no later than the next by the requested key. */
  lemma ListingOrder(t: Tables, f: Filter, column: string, direction: string)
    ensures var rows := Listing(t, f, column, direction);
      (forall k :: k in Items(rows) <==> k in t.questions && Matches(f, t.questions[k])) &&
      (forall i, j :: 0 <= i < j < |rows| ==>
        rows[i].item in t.questions && rows[j].item in t.questions && rows[i].item != rows[j].item &&
        Cmp(SortKey(column)(t.questions[rows[i].item]), SortKey(column)(t.questions[rows[j].item]), SortDirs(column, direction)) <= 0)
  {
    SortKeyFits(t.questions, column, direction);
    QueryOrder(t.questions, Keep(f), SortKey(column), SortDirs(column, direction));
  }

  /** By default the listing is ordered by score, highest first, and among equal scores
      newest first. */
  lemma DefaultOrder(t: Tables, f: Filter)
    ensures var ids := Items(Listing(t, f, "importanceScore", "desc"));
      forall i, j :: 0 <= i < j < |ids| ==>
        ids[i] in t.questions && ids[j] in t.questions &&
        var a, b := t.questions[ids[i]], t.questions[ids[j]];
        a.importanceScore > b.importanceScore ||
        (a.importanceScore == b.importanceScore && a.createdAt >= b.createdAt)
  {
    var numbers := Numbers("importanceScore");
    assert SortKey("importanceScore") == NumsKey(numbers);
    ItemsByNumbers(t.questions, Keep(f), numbers, [Desc, Desc], Items(Listing(t, f, "importanceScore", "desc")));
    var ids := Items(Listing(t, f, "importanceScore", "desc"));
    forall i, j | 0 <= i < j < |ids|
      ensures var a, b := t.questions[ids[i]], t.questions[ids[j]];
        a.importanceScore > b.importanceScore ||
        (a.importanceScore == b.importanceScore && a.createdAt >= b.createdAt)
    {
      NotAfterTwo(numbers(t.questions[ids[i]]), numbers(t.questions[ids[j]]), Desc, Desc);
    }
  }

  /** A listing without a limit returns every matching question; with a numeric limit
      `n >= 0` it returns the first `n` rows of the ordered listing. */
  lemma LimitedRows(rows: seq<Keyed<Id>>, limit: Option<string>)
    ensures !Truthy(limit) ==> Limited(rows, limit) == Ok(rows)
    ensures Truthy(limit) && ParseInt(limit.value).Some? && ParseInt(limit.value).value >= 0 ==>
      var n := ParseInt(limit.value).value;
      Limited(rows, limit).Ok? &&
      var kept := Limited(rows, limit).value;
      |kept| == (if n < |rows| then n else |rows|) && forall i :: 0 <= i < |kept| ==> kept[i] == rows[i]
    ensures Truthy(limit) && ParseInt(limit.value).None? ==> Limited(rows, limit) == ServerError("Failed to fetch questions")
  {
  }
}
