/** The subjects route: the subject list with each subject's top questions, and
    create, update and delete of a subject. */
module Subjects {
  import opened Common
  import opened Text
  import opened Ordering
  import opened Store

  /** Some subject is called `name`. */
  predicate NameTaken(subjects: map<Id, Subject>, name: string) {
    exists k :: k in subjects && subjects[k].name == name
  }

  /** Some subject other than `self` is called `name`. */
  predicate NameTakenByOther(subjects: map<Id, Subject>, name: string, self: Id) {
    exists k :: k in subjects && k != self && subjects[k].name == name
  }

  /** The row a create stores: the trimmed name, `description?.trim() || null`,
      `color || '#3b82f6'` and `icon || null`. */
  function NewSubject(name: string, description: Option<string>, color: Option<string>, icon: Option<string>, now: int): Subject {
    Subject(Trim(name), TrimOrNull(description), OrDefault(color, "#3b82f6"), if Truthy(icon) then icon else None, now)
  }

  /** POST: a blank name is refused, so is a name (after trimming) another subject has;
      otherwise the subject is stored with its defaults and the statistics refreshed. */
  method Create(db: Catalog, name: Option<string>, description: Option<string>, color: Option<string>, icon: Option<string>, now: int)
    returns (r: Response<Id>)
    requires db.Valid()
    modifies db
    ensures db.Valid()
    ensures IsBlank(name) ==> r == BadRequest("Subject name is required")
    ensures !IsBlank(name) && NameTaken(old(db.tables.subjects), Trim(name.value)) ==>
      r == BadRequest("Subject with this name already exists")
    ensures !r.Ok? ==> db.tables == old(db.tables) && db.nextId == old(db.nextId)
    ensures !IsBlank(name) && !NameTaken(old(db.tables.subjects), Trim(name.value)) ==>
      r == Ok(old(db.nextId)) && old(db.nextId) !in old(db.tables.subjects) &&
      db.tables == old(db.tables).(subjects := old(db.tables.subjects)[old(db.nextId) := NewSubject(name.value, description, color, icon, now)]).Refreshed()
  {
    if IsBlank(name) {
      return BadRequest("Subject name is required");
    }
    var trimmed := Trim(name.value);
    if NameTaken(db.tables.subjects, trimmed) {
      return BadRequest("Subject with this name already exists");
    }
    var id := db.NewId();
    db.PutSubject(id, NewSubject(name.value, description, color, icon, now));
    db.RefreshStatistics();
    r := Ok(id);
  }

  /** The row an update stores: `name?.trim() ?? existing.name`, and likewise the
      description; `color ?? existing.color`, `icon ?? existing.icon`. */
  function UpdatedSubject(s: Subject, name: Option<string>, description: Option<string>, color: Option<string>, icon: Option<string>): Subject {
    Subject(TrimOr(name, s.name), TrimOrKeep(description, s.description), color.GetOr(s.color), if icon.Some? then icon else s.icon, s.createdAt)
  }

  /** The clash check of PUT: it runs only for a non-empty name different from the
      stored one, and asks whether any subject at all, this one included, already has
      the trimmed name. */
  predicate RenameRefused(subjects: map<Id, Subject>, id: Id, name: Option<string>)
    requires id in subjects
  {
    Truthy(name) && name.value != subjects[id].name && NameTaken(subjects, Trim(name.value))
  }

  /** PUT: a missing id is refused, an unknown one is not found, a clashing rename is
      refused; otherwise the given fields replace the stored ones. A stored name that
      another subject has (reachable through an empty or unchanged name, which skip the
      check) is refused by the database's unique index. Statistics are not touched. */
  method Update(db: Catalog, id: Option<Id>, name: Option<string>, description: Option<string>, color: Option<string>, icon: Option<string>)
    returns (r: Response<Id>)
    requires db.Valid()
    modifies db
    ensures db.Valid() && db.nextId == old(db.nextId)
    ensures id.None? ==> r == BadRequest("Subject ID is required")
    ensures id.Some? && id.value !in old(db.tables.subjects) ==> r == NotFound("Subject not found")
    ensures id.Some? && id.value in old(db.tables.subjects) && RenameRefused(old(db.tables.subjects), id.value, name) ==>
      r == BadRequest("Subject with this name already exists")
    ensures id.Some? && id.value in old(db.tables.subjects) && !RenameRefused(old(db.tables.subjects), id.value, name) &&
            NameTakenByOther(old(db.tables.subjects), UpdatedSubject(old(db.tables.subjects)[id.value], name, description, color, icon).name, id.value) ==>
      r == ServerError("Failed to update subject")
    ensures id.Some? && id.value in old(db.tables.subjects) && !RenameRefused(old(db.tables.subjects), id.value, name) &&
            !NameTakenByOther(old(db.tables.subjects), UpdatedSubject(old(db.tables.subjects)[id.value], name, description, color, icon).name, id.value) ==>
      r == Ok(id.value) &&
      db.tables == old(db.tables).(subjects := old(db.tables.subjects)[id.value := UpdatedSubject(old(db.tables.subjects)[id.value], name, description, color, icon)])
    ensures !r.Ok? ==> db.tables == old(db.tables)
  {
    if id.None? {
      return BadRequest("Subject ID is required");
    }
    if id.value !in db.tables.subjects {
      return NotFound("Subject not found");
    }
    if RenameRefused(db.tables.subjects, id.value, name) {
      return BadRequest("Subject with this name already exists");
    }
    var s := UpdatedSubject(db.tables.subjects[id.value], name, description, color, icon);
    if NameTakenByOther(db.tables.subjects, s.name, id.value) {
      return ServerError("Failed to update subject");
    }
    db.PutSubject(id.value, s);
    r := Ok(id.value);
  }

  /** An update that passes the rename check never gives a name to two subjects through
      a rename: a changed, non-empty name that no subject has is free. */
  lemma RenameCheckSuffices(subjects: map<Id, Subject>, id: Id, name: Option<string>)
    requires id in subjects && Truthy(name) && name.value != subjects[id].name
    requires !RenameRefused(subjects, id, name)
    ensures !NameTakenByOther(subjects, Trim(name.value), id)
  {
  }

  /** DELETE: a missing id is refused, an unknown one is not found; otherwise the subject
      goes, with every row that depends on it, and the statistics are refreshed. */
  method Delete(db: Catalog, id: Option<Id>) returns (r: Response<Id>)
    requires db.Valid()
    modifies db
    ensures db.Valid() && db.nextId == old(db.nextId)
    ensures id.None? ==> r == BadRequest("Subject ID is required")
    ensures id.Some? && id.value !in old(db.tables.subjects) ==> r == NotFound("Subject not found")
    ensures id.Some? && id.value in old(db.tables.subjects) ==>
      r == Ok(id.value) && db.tables == Prune(old(db.tables).(subjects := old(db.tables.subjects) - {id.value})).Refreshed()
    ensures !r.Ok? ==> db.tables == old(db.tables)
  {
    if id.None? {
      return BadRequest("Subject ID is required");
    }
    if id.value !in db.tables.subjects {
      return NotFound("Subject not found");
    }
    db.Remove(db.tables.(subjects := db.tables.subjects - {id.value}));
    db.RefreshStatistics();
    r := Ok(id.value);
  }

  /** Selects the questions of one subject. */
  function OfSubject(subjectId: Id): Question -> bool {
    (q: Question) => q.subjectId == subjectId
  }

  /** The up to five questions of a subject shown with it: its questions ordered by score,
      then repeat count, both descending, cut after five. */
  function Preview(t: Tables, subjectId: Id): (ids: seq<Id>)
    ensures |ids| <= 5
  {
    Top(t.questions, OfSubject(subjectId), Rank, [Desc, Desc], 5)
  }

  /** The preview shows questions of the subject only, and fewer than five only when the
      subject has no more. */
  lemma PreviewMembers(t: Tables, subjectId: Id)
    ensures var ids := Preview(t, subjectId);
      (forall k :: k in ids ==> k in t.questions && t.questions[k].subjectId == subjectId) &&
      (|ids| < 5 ==> forall k :: k in t.questions && t.questions[k].subjectId == subjectId ==> k in ids)
  {
    TopMembers(t.questions, OfSubject(subjectId), Rank, [Desc, Desc], 5);
  }

  /** The preview lists each question once, best first by score and then repeat count. */
  lemma PreviewOrdered(t: Tables, subjectId: Id)
    ensures var ids := Preview(t, subjectId);
      forall i, j :: 0 <= i < j < |ids| ==>
        ids[i] in t.questions && ids[j] in t.questions && ids[i] != ids[j] &&
        RankedBefore(t.questions[ids[i]], t.questions[ids[j]])
  {
    var ids := Preview(t, subjectId);
    TopOrder(t.questions, OfSubject(subjectId), Rank, [Desc, Desc], 5);
    forall i, j | 0 <= i < j < |ids|
      ensures RankedBefore(t.questions[ids[i]], t.questions[ids[j]])
    {
      NotAfterTwo(Rank(t.questions[ids[i]]), Rank(t.questions[ids[j]]), Desc, Desc);
    }
  }

  /** A question of the subject that the preview leaves out ranks after every one it shows. */
  lemma PreviewIsTop(t: Tables, subjectId: Id)
    ensures var ids := Preview(t, subjectId);
      forall k, x :: k in t.questions && t.questions[k].subjectId == subjectId && k !in ids && x in ids ==>
        x in t.questions && RankedBefore(t.questions[x], t.questions[k])
  {
    var ids := Preview(t, subjectId);
    TopMembers(t.questions, OfSubject(subjectId), Rank, [Desc, Desc], 5);
    TopRank(t.questions, OfSubject(subjectId), Rank, [Desc, Desc], 5);
    forall k, x | k in t.questions && t.questions[k].subjectId == subjectId && k !in ids && x in ids
      ensures RankedBefore(t.questions[x], t.questions[k])
    {
      NotAfterTwo(Rank(t.questions[x]), Rank(t.questions[k]), Desc, Desc);
    }
  }

  function CreatedAt(s: Subject): real {
    s.createdAt as real
  }

  function AnySubject(): Subject -> bool {
    (s: Subject) => true
  }

  /** The order of the subject list: `findMany` ordered by `createdAt` ascending. */
  function Order(t: Tables): seq<Id> {
    Items(Query(t.subjects, AnySubject(), NumKey(CreatedAt), [Asc]))
  }

  /** The order lists every subject once, oldest first. */
  lemma OrderSorted(t: Tables)
    ensures forall k :: k in t.subjects <==> k in Order(t)
    ensures forall i, j :: 0 <= i < j < |Order(t)| ==>
      Order(t)[i] in t.subjects && Order(t)[j] in t.subjects && Order(t)[i] != Order(t)[j] &&
      CreatedAt(t.subjects[Order(t)[i]]) <= CreatedAt(t.subjects[Order(t)[j]])
  {
    ItemsByNumber(t.subjects, AnySubject(), CreatedAt, Asc, Order(t));
  }

  /** One entry of the subject list: the subject, the ids of its systems, the number of
      its systems and of its questions, and the ids of its preview. */
  datatype SubjectSummary = SubjectSummary(id: Id, subject: Subject, systems: set<Id>, systemCount: nat, questionCount: nat, preview: seq<Id>)

  /** The systems of a subject. */
  function SystemsOf(t: Tables, id: Id): set<Id> {
    set k | k in t.systems && t.systems[k].subjectId == id
  }

  /** The questions of a subject. */
  function QuestionsOf(t: Tables, id: Id): set<Id> {
    set k | k in t.questions && t.questions[k].subjectId == id
  }

  function Summary(t: Tables, id: Id, preview: seq<Id>): SubjectSummary
    requires id in t.subjects
  {
    SubjectSummary(id, t.subjects[id], SystemsOf(t, id), |SystemsOf(t, id)|, |QuestionsOf(t, id)|, preview)
  }

  /** The summaries of the subjects `ids`, with the previews `preview` gives. */
  function Summaries(t: Tables, ids: seq<Id>, preview: Id -> seq<Id>): seq<SubjectSummary>
    requires forall i :: 0 <= i < |ids| ==> ids[i] in t.subjects
  {
    if ids == [] then [] else [Summary(t, ids[0], preview(ids[0]))] + Summaries(t, ids[1..], preview)
  }

  /** The ids of a subject's preview. */
  function PreviewIds(t: Tables): Id -> seq<Id> {
    (id: Id) => Preview(t, id)
  }

  /** GET: the summary of every subject, in the order of `Order`. */
  function List(t: Tables): seq<SubjectSummary> {
    OrderSorted(t);
    Summaries(t, Order(t), PreviewIds(t))
  }

  /** The summaries of some subjects: one per subject, in the same order, each naming
      its subject and carrying its row, the subject's systems and its preview. */
  lemma {:induction false} SummariesShape(t: Tables, ids: seq<Id>, preview: Id -> seq<Id>)
    requires forall i :: 0 <= i < |ids| ==> ids[i] in t.subjects
    ensures |Summaries(t, ids, preview)| == |ids|
    ensures forall i :: 0 <= i < |ids| ==>
      var e := Summaries(t, ids, preview)[i];
      e.id == ids[i] && e.subject == t.subjects[ids[i]] && e.preview == preview(ids[i])
  {
    if ids != [] {
      SummariesShape(t, ids[1..], preview);
    }
  }

  /** Summaries of all the subjects: one entry per subject, each carrying its row and
      preview. */
  lemma SummariesCover(t: Tables, ids: seq<Id>, preview: Id -> seq<Id>)
    requires forall k :: k in t.subjects <==> k in ids
    requires forall i, j :: 0 <= i < j < |ids| ==> ids[i] != ids[j]
    ensures |Summaries(t, ids, preview)| == |t.subjects|
    ensures forall i :: 0 <= i < |Summaries(t, ids, preview)| ==>
      Summaries(t, ids, preview)[i].id in t.subjects &&
      Summaries(t, ids, preview)[i].subject == t.subjects[Summaries(t, ids, preview)[i].id] &&
      Summaries(t, ids, preview)[i].preview == preview(Summaries(t, ids, preview)[i].id)
    ensures forall k :: k in t.subjects ==> exists i :: 0 <= i < |Summaries(t, ids, preview)| && Summaries(t, ids, preview)[i].id == k
  {
    assert forall i :: 0 <= i < |ids| ==> ids[i] in t.subjects;
    SummariesShape(t, ids, preview);
    var l := Summaries(t, ids, preview);
    forall k | k in t.subjects ensures exists i :: 0 <= i < |l| && l[i].id == k {
      var i :| 0 <= i < |ids| && ids[i] == k;
      assert l[i].id == k;
    }
    DistinctCard(ids, t.subjects.Keys);
  }

  /** Summaries of the subjects in an order that lists each once and by age list them
      once each, oldest first. */
  lemma SummariesOrdered(t: Tables, ids: seq<Id>, preview: Id -> seq<Id>)
    requires forall i, j :: 0 <= i < j < |ids| ==>
      ids[i] in t.subjects && ids[j] in t.subjects && ids[i] != ids[j] &&
      CreatedAt(t.subjects[ids[i]]) <= CreatedAt(t.subjects[ids[j]])
    requires forall i :: 0 <= i < |ids| ==> ids[i] in t.subjects
    ensures forall i, j :: 0 <= i < j < |Summaries(t, ids, preview)| ==>
      Summaries(t, ids, preview)[i].id != Summaries(t, ids, preview)[j].id &&
      CreatedAt(Summaries(t, ids, preview)[i].subject) <= CreatedAt(Summaries(t, ids, preview)[j].subject)
  {
    SummariesShape(t, ids, preview);
  }

  /** GET lists one entry per subject. */
  lemma ListCovers(t: Tables)
    ensures |List(t)| == |t.subjects|
    ensures forall k :: k in t.subjects ==> exists i :: 0 <= i < |List(t)| && List(t)[i].id == k
  {
    OrderSorted(t);
    SummariesCover(t, Order(t), PreviewIds(t));
  }

  /** Each entry of GET carries its subject's row and the preview of its questions. */
  lemma ListEntries(t: Tables)
    ensures forall i :: 0 <= i < |List(t)| ==>
      var e := List(t)[i]; e.id in t.subjects && e.subject == t.subjects[e.id] && e.preview == Preview(t, e.id)
  {
    var l := List(t);
    OrderSorted(t);
    SummariesCover(t, Order(t), PreviewIds(t));
    forall i | 0 <= i < |l| ensures l[i].preview == Preview(t, l[i].id) {
      assert l[i].preview == PreviewIds(t)(l[i].id);
    }
  }

  /** GET lists the subjects oldest first, none twice. */
  lemma ListOrdered(t: Tables)
    ensures forall i, j :: 0 <= i < j < |List(t)| ==>
      List(t)[i].id != List(t)[j].id && CreatedAt(List(t)[i].subject) <= CreatedAt(List(t)[j].subject)
  {
    OrderSorted(t);
    SummariesOrdered(t, Order(t), PreviewIds(t));
  }
}
