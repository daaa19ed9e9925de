/** The marks-sections route: the sections of a system (one per marks value), their
    listing, and create, update and delete of a section. */
module MarksSections {
  import opened Common
  import opened Text
  import opened Scoring
  import opened Ordering
  import opened Store

  /** The label a section gets when none is given: `${marks} Markers`. */
  function MarksLabel(marks: int): string {
    ShowInt(marks) + " Markers"
  }

  /** A default label names its marks value: `parseInt` reads it back. */
  lemma MarksLabelParses(marks: int)
    ensures ParseInt(MarksLabel(marks)) == Some(marks)
  {
    ParseShowInt(marks, " Markers");
  }

  /** The refusal message for a marks value a system already has. */
  function TakenMessage(marks: int): string {
    "Marks section with " + ShowInt(marks) + " marks already exists in this system"
  }

  /** Selects the sections of `systemId` with `marks` marks. */
  function WithMarks(marks: int, systemId: Id): MarksSection -> bool {
    (s: MarksSection) => s.marks == marks && s.systemId == systemId
  }

  /** Some section of `systemId` has `marks` marks. */
  predicate MarksTaken(sections: map<Id, MarksSection>, marks: int, systemId: Id) {
    exists k :: k in sections && sections[k].marks == marks && sections[k].systemId == systemId
  }

  /** `!marks`: the value is missing, not a number, or 0. */
  predicate MarksMissing(marks: Option<int>) {
    marks.None? || marks.value == 0
  }

  /** The section a create stores: the label given if it is not empty, else the default. */
  function NewSection(marks: int, labelText: Option<string>, systemId: Id, now: int): MarksSection {
    MarksSection(marks, if Truthy(labelText) then labelText.value else MarksLabel(marks), systemId, now)
  }

  /** POST: a missing or zero marks value is refused, so is a missing system id; an unknown
      system is not found; a marks value the system already has is refused. Otherwise the
      section is stored. Statistics are not touched. */
  method Create(db: Catalog, marks: Option<int>, labelText: Option<string>, systemId: Option<Id>, now: int)
    returns (r: Response<Id>)
    requires db.Valid()
    modifies db
    ensures db.Valid()
    ensures MarksMissing(marks) ==> r == BadRequest("Marks value is required")
    ensures !MarksMissing(marks) && systemId.None? ==> r == BadRequest("System ID is required")
    ensures !MarksMissing(marks) && systemId.Some? && systemId.value !in old(db.tables.systems) ==>
      r == NotFound("System not found")
    ensures !MarksMissing(marks) && systemId.Some? && systemId.value in old(db.tables.systems) &&
            MarksTaken(old(db.tables.sections), marks.value, systemId.value) ==>
      r == BadRequest(TakenMessage(marks.value))
    ensures !r.Ok? ==> db.tables == old(db.tables) && db.nextId == old(db.nextId)
    ensures !MarksMissing(marks) && systemId.Some? && systemId.value in old(db.tables.systems) &&
            !MarksTaken(old(db.tables.sections), marks.value, systemId.value) ==>
      r == Ok(old(db.nextId)) && old(db.nextId) !in old(db.tables.sections) &&
      db.tables == old(db.tables).(sections := old(db.tables.sections)[old(db.nextId) := NewSection(marks.value, labelText, systemId.value, now)])
  {
    if MarksMissing(marks) {
      return BadRequest("Marks value is required");
    }
    if systemId.None? {
      return BadRequest("System ID is required");
    }
    if systemId.value !in db.tables.systems {
      return NotFound("System not found");
    }
    if FindFirst(db.tables.sections, WithMarks(marks.value, systemId.value)).Some? {
      return BadRequest(TakenMessage(marks.value));
    }
    var id := db.NewId();
    db.PutSection(id, NewSection(marks.value, labelText, systemId.value, now));
    r := Ok(id);
  }

  /** A create never gives one system two sections with the same marks. */
  lemma CreateKeepsMarksUnique(t: Tables, id: Id, s: MarksSection)
    requires t.MarksUnique() && id !in t.sections
    requires !MarksTaken(t.sections, s.marks, s.systemId)
    ensures t.(sections := t.sections[id := s]).MarksUnique()
  {
  }

  /** The clash check of PUT: only a non-zero marks value that differs from the stored
      one is checked, against the target system; the first section found counts unless
      it is the section being updated. */
  predicate MarksClash(sections: map<Id, MarksSection>, id: Id, marks: Option<int>, target: Id)
    requires id in sections
  {
    !MarksMissing(marks) && marks.value != sections[id].marks &&
    var found := FindFirst(sections, WithMarks(marks.value, target));
    found.Some? && found.value != id
  }

  /** Since a changed value differs from the section's own, the section never finds
      itself: the check refuses exactly the values the target system already has. */
  lemma MarksClashIsTaken(sections: map<Id, MarksSection>, id: Id, marks: Option<int>, target: Id)
    requires id in sections
    ensures MarksClash(sections, id, marks, target) <==>
      !MarksMissing(marks) && marks.value != sections[id].marks && MarksTaken(sections, marks.value, target)
  {
    if !MarksMissing(marks) && marks.value != sections[id].marks && MarksTaken(sections, marks.value, target) {
      var k :| k in sections && sections[k].marks == marks.value && sections[k].systemId == target;
      assert WithMarks(marks.value, target)(sections[k]);
    }
  }

  /** The section an update stores: `marks ?? existing.marks`, `label ?? existing.label`
      and the target system. */
  function UpdatedSection(s: MarksSection, marks: Option<int>, labelText: Option<string>, target: Id): MarksSection {
    MarksSection(marks.GetOr(s.marks), labelText.GetOr(s.labelText), target, s.createdAt)
  }

  /** PUT: a missing id is refused, an unknown one is not found, a clashing marks value is
      refused; a target system that does not exist is refused by the database. Otherwise the
      given fields replace the stored ones. Statistics are not touched. */
  method Update(db: Catalog, id: Option<Id>, marks: Option<int>, labelText: Option<string>, systemId: Option<Id>)
    returns (r: Response<Id>)
    requires db.Valid()
    modifies db
    ensures db.Valid() && db.nextId == old(db.nextId)
    ensures id.None? ==> r == BadRequest("Marks section ID is required")
    ensures id.Some? && id.value !in old(db.tables.sections) ==> r == NotFound("Marks section not found")
    ensures id.Some? && id.value in old(db.tables.sections) ==>
      var existing := old(db.tables.sections)[id.value];
      var target := systemId.GetOr(existing.systemId);
      (MarksClash(old(db.tables.sections), id.value, marks, target) ==> r == BadRequest(TakenMessage(marks.value))) &&
      (!MarksClash(old(db.tables.sections), id.value, marks, target) && target !in old(db.tables.systems) ==>
        r == ServerError("Failed to update marks section")) &&
      (!MarksClash(old(db.tables.sections), id.value, marks, target) && target in old(db.tables.systems) ==>
        r == Ok(id.value) &&
        db.tables == old(db.tables).(sections := old(db.tables.sections)[id.value := UpdatedSection(existing, marks, labelText, target)]))
    ensures !r.Ok? ==> db.tables == old(db.tables)
  {
    if id.None? {
      return BadRequest("Marks section ID is required");
    }
    if id.value !in db.tables.sections {
      return NotFound("Marks section not found");
    }
    var existing := db.tables.sections[id.value];
    var target := systemId.GetOr(existing.systemId);
    if MarksClash(db.tables.sections, id.value, marks, target) {
      return BadRequest(TakenMessage(marks.value));
    }
    if target !in db.tables.systems {
      return ServerError("Failed to update marks section");
    }
    db.PutSection(id.value, UpdatedSection(existing, marks, labelText, target));
    r := Ok(id.value);
  }

  /** DELETE: a missing id is refused, an unknown one is not found; otherwise the section
      goes, with its questions and their files and folders, and the statistics are refreshed. */
  method Delete(db: Catalog, id: Option<Id>) returns (r: Response<Id>)
    requires db.Valid()
    modifies db
    ensures db.Valid() && db.nextId == old(db.nextId)
    ensures id.None? ==> r == BadRequest("Marks section ID is required")
    ensures id.Some? && id.value !in old(db.tables.sections) ==> r == NotFound("Marks section not found")
    ensures id.Some? && id.value in old(db.tables.sections) ==>
      r == Ok(id.value) && db.tables == Prune(old(db.tables).(sections := old(db.tables.sections) - {id.value})).Refreshed()
    ensures !r.Ok? ==> db.tables == old(db.tables)
  {
    if id.None? {
      return BadRequest("Marks section ID is required");
    }
    if id.value !in db.tables.sections {
      return NotFound("Marks section not found");
    }
    db.Remove(db.tables.(sections := db.tables.sections - {id.value}));
    db.RefreshStatistics();
    r := Ok(id.value);
  }

  function Marks(s: MarksSection): real {
    s.marks as real
  }

  /** Selects the sections of one system, or all of them. */
  function InSystem(systemId: Option<Id>): MarksSection -> bool {
    (s: MarksSection) => systemId.None? || s.systemId == systemId.value
  }

  /** The sections of a system (or all sections), the highest marks first. */
  function ByMarks(t: Tables, systemId: Option<Id>): seq<Id> {
    Items(Query(t.sections, InSystem(systemId), NumKey(Marks), [Desc]))
  }

  /** The listing holds the sections of the system (or all), each once. */
  lemma ByMarksMembers(t: Tables, systemId: Option<Id>)
    ensures forall k :: k in ByMarks(t, systemId) <==> k in t.sections && (systemId.None? || t.sections[k].systemId == systemId.value)
  {
    ItemsByNumber(t.sections, InSystem(systemId), Marks, Desc, ByMarks(t, systemId));
  }

  /** The listing shows the highest marks first. */
  lemma ByMarksOrder(t: Tables, systemId: Option<Id>)
    ensures var ids := ByMarks(t, systemId);
      forall i, j :: 0 <= i < j < |ids| ==>
        ids[i] in t.sections && ids[j] in t.sections && ids[i] != ids[j] && Marks(t.sections[ids[i]]) >= Marks(t.sections[ids[j]])
  {
    ItemsByNumber(t.sections, InSystem(systemId), Marks, Desc, ByMarks(t, systemId));
  }

  function InSection(sectionId: Id): Question -> bool {
    (q: Question) => q.marksSectionId == sectionId
  }

  /** The questions of a section, highest score first, then most repeated. */
  function SectionQuestions(t: Tables, sectionId: Id): seq<Id> {
    NumsKeyFits(t.questions, Rank, [Desc, Desc]);
    Items(Query(t.questions, InSection(sectionId), NumsKey(Rank), [Desc, Desc]))
  }

  /** A section's questions are listed once each, by score and then repeat count, both
      descending. */
  lemma SectionQuestionsOrder(t: Tables, sectionId: Id)
    ensures var ids := SectionQuestions(t, sectionId);
      (forall k :: k in ids <==> k in t.questions && t.questions[k].marksSectionId == sectionId) &&
      (forall i, j :: 0 <= i < j < |ids| ==>
        ids[i] in t.questions && ids[j] in t.questions && ids[i] != ids[j] &&
        RankedBefore(t.questions[ids[i]], t.questions[ids[j]]))
  {
    ItemsByNumbers(t.questions, InSection(sectionId), Rank, [Desc, Desc], SectionQuestions(t, sectionId));
    var ids := SectionQuestions(t, sectionId);
    forall i, j | 0 <= i < j < |ids|
      ensures RankedBefore(t.questions[ids[i]], t.questions[ids[j]])
    {
      NotAfterTwo(Rank(t.questions[ids[i]]), Rank(t.questions[ids[j]]), Desc, Desc);
    }
  }

  /** A section with the questions shown with it. */
  datatype SectionDetail = SectionDetail(id: Id, section: MarksSection, questions: seq<Id>, questionCount: nat)

  /** GET: with an id, that section and its questions (or not found); without one, the
      sections of the given system (or all), highest marks first. */
  function Get(t: Tables, systemId: Option<Id>, id: Option<Id>): (r: Response<seq<SectionDetail>>)
  {
    if id.Some? then
      if id.value in t.sections then
        var qs := SectionQuestions(t, id.value);
        Ok([SectionDetail(id.value, t.sections[id.value], qs, |qs|)])
      else NotFound("Marks section not found")
    else
      Ok(Details(t, ByMarks(t, systemId)))
  }

  /** The listing's entries: each section with its question count (its questions are not
      listed). */
  function Details(t: Tables, ids: seq<Id>): seq<SectionDetail> {
    if ids == [] then []
    else if ids[0] in t.sections then
      [SectionDetail(ids[0], t.sections[ids[0]], [], |SectionQuestions(t, ids[0])|)] + Details(t, ids[1..])
    else Details(t, ids[1..])
  }
}
