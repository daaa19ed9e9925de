/** The catalog's tables, held in memory in place of the database: subjects, systems,
    marks sections, questions, folders, files and the statistics row, with the
    constraints the database itself enforces and the cascade it performs on delete. */
module Store {
  import opened Common
  import opened Ordering

  datatype Subject = Subject(name: string, description: Option<string>, color: string, icon: Option<string>, createdAt: int)

  datatype System = System(name: string, description: Option<string>, order: int, subjectId: Id, createdAt: int)

  datatype MarksSection = MarksSection(marks: int, labelText: string, systemId: Id, createdAt: int)

  /** The `years` column: the JSON text of a list of years, or text a backup supplied
      that `JSON.parse` does not read as a list. */
  datatype StoredYears = Serialized(list: seq<string>) | Verbatim(text: string)

  /** `parseYears`: the JSON text of a list reads back as that list; other text reads
      back as no years. */
  function ParseYears(y: StoredYears): (years: seq<string>)
    ensures y.Serialized? ==> years == y.list
    ensures y.Verbatim? ==> years == []
  {
    match y
    case Serialized(list) => list
    case Verbatim(_) => []
  }

  datatype Question = Question(
    title: string,
    description: Option<string>,
    repeatCount: int,
    years: StoredYears,
    importanceScore: real,
    globalImportance: real,
    notes: Option<string>,
    isBookmarked: bool,
    subjectId: Id,
    systemId: Id,
    marksSectionId: Id,
    createdAt: int)

  /** The numbers questions are ranked by, both descending, wherever a route lists the
      top questions: the score, then the repeat count. */
  function Rank(q: Question): seq<real> {
    [q.importanceScore, q.repeatCount as real]
  }

  /** `a` may be listed before `b`: a higher score, or the same score and at least as
      many repeats. */
  predicate RankedBefore(a: Question, b: Question) {
    a.importanceScore > b.importanceScore ||
    (a.importanceScore == b.importanceScore && a.repeatCount >= b.repeatCount)
  }

  datatype Folder = Folder(name: string, questionId: Id, createdAt: int)

  datatype File = File(
    name: string,
    fileType: string,
    url: string,
    size: int,
    description: Option<string>,
    questionId: Id,
    folderId: Option<Id>,
    createdAt: int)

  /** The singleton statistics row. */
  datatype Statistics = Statistics(totalSubjects: nat, totalSystems: nat, totalQuestions: nat, totalFiles: nat)

  /** `a` is `b` restricted to some of its keys. */
  predicate SubMap<K, V(==)>(a: map<K, V>, b: map<K, V>) {
    forall k :: k in a ==> k in b && a[k] == b[k]
  }

  /** A sub-map with every key of the map is the map. */
  lemma SameKeys<K, V>(a: map<K, V>, b: map<K, V>)
    requires SubMap(a, b) && forall k :: k in b ==> k in a
    ensures a == b
  {
  }

  /** Every key of `m` is below `n`. */
  predicate IdsBelow<V>(m: map<Id, V>, n: nat) {
    forall k :: k in m ==> k < n
  }

  /** Every key of `b` missing from `a` is at least `n`. */
  predicate NewAbove<V>(a: map<Id, V>, b: map<Id, V>, n: nat) {
    forall k :: k in b && k !in a ==> k >= n
  }

  /** Adding rows under ids above every existing one never changes which row
      `findFirst` returns, once it returns one. */
  lemma FindFirstStable<V>(a: map<Id, V>, b: map<Id, V>, n: nat, keep: V -> bool)
    requires SubMap(a, b) && IdsBelow(a, n) && NewAbove(a, b, n)
    requires FindFirst(a, keep).Some?
    ensures FindFirst(b, keep) == FindFirst(a, keep)
  {
    var x := FindFirst(a, keep).value;
    assert x in b && keep(b[x]);
    var y := FindFirst(b, keep).value;
    if y in a {
      assert keep(a[y]);
    }
  }

  /** When nothing matched, the row just written is the one `findFirst` returns. */
  lemma FindFirstNew<V>(m: map<Id, V>, keep: V -> bool, id: Id, x: V)
    requires FindFirst(m, keep).None? && id !in m && keep(x)
    ensures FindFirst(m[id := x], keep) == Some(id)
  {
    var u := m[id := x];
    assert id in u && keep(u[id]);
  }

  predicate SystemsLinked(systems: map<Id, System>, subjects: map<Id, Subject>) {
    forall k :: k in systems ==> systems[k].subjectId in subjects
  }

  predicate SectionsLinked(sections: map<Id, MarksSection>, systems: map<Id, System>) {
    forall k :: k in sections ==> sections[k].systemId in systems
  }

  /** The subject, system and section of `q` all exist. */
  predicate QuestionLinked(q: Question, subjects: map<Id, Subject>, systems: map<Id, System>, sections: map<Id, MarksSection>) {
    q.subjectId in subjects && q.systemId in systems && q.marksSectionId in sections
  }

  predicate QuestionsLinked(questions: map<Id, Question>, subjects: map<Id, Subject>, systems: map<Id, System>, sections: map<Id, MarksSection>) {
    forall k :: k in questions ==> QuestionLinked(questions[k], subjects, systems, sections)
  }

  predicate FoldersLinked(folders: map<Id, Folder>, questions: map<Id, Question>) {
    forall k :: k in folders ==> folders[k].questionId in questions
  }

  /** The question of `f` exists, and so does its folder if it has one. */
  predicate FileLinked(f: File, questions: map<Id, Question>, folders: map<Id, Folder>) {
    f.questionId in questions && (f.folderId.Some? ==> f.folderId.value in folders)
  }

  predicate FilesLinked(files: map<Id, File>, questions: map<Id, Question>, folders: map<Id, Folder>) {
    forall k :: k in files ==> FileLinked(files[k], questions, folders)
  }

  /** The id counter after a row with id `id` is written: above every id in use. */
  function After(nextId: nat, id: Id): (n: nat)
    ensures n >= nextId && n > id
    ensures id < nextId ==> n == nextId
  {
    if id < nextId then nextId else id + 1
  }

  datatype Tables = Tables(
    subjects: map<Id, Subject>,
    systems: map<Id, System>,
    sections: map<Id, MarksSection>,
    questions: map<Id, Question>,
    folders: map<Id, Folder>,
    files: map<Id, File>,
    stats: Option<Statistics>)
  {
    /** Every foreign key names an existing row. */
    predicate Linked() {
      SystemsLinked(systems, subjects) && SectionsLinked(sections, systems) &&
      QuestionsLinked(questions, subjects, systems, sections) &&
      FoldersLinked(folders, questions) && FilesLinked(files, questions, folders)
    }

    /** Subject names are unique (the database's unique index on `Subject.name`). */
    predicate SubjectNamesUnique() {
      forall a, b {:trigger subjects[a].name, subjects[b].name} :: a in subjects && b in subjects && subjects[a].name == subjects[b].name ==> a == b
    }

    /** No two systems of one subject share a name (kept by the handlers, not the database). */
    predicate SystemNamesUnique() {
      forall a, b :: a in systems && b in systems && systems[a].subjectId == systems[b].subjectId && systems[a].name == systems[b].name ==> a == b
    }

    /** No two sections of one system share a marks value (kept by the handlers). */
    predicate MarksUnique() {
      forall a, b :: a in sections && b in sections && sections[a].systemId == sections[b].systemId && sections[a].marks == sections[b].marks ==> a == b
    }

    /** No two folders of one question share a name (kept by the handlers). */
    predicate FolderNamesUnique() {
      forall a, b :: a in folders && b in folders && folders[a].questionId == folders[b].questionId && folders[a].name == folders[b].name ==> a == b
    }

    /** Each table of these tables is the same table of `u` with some rows taken out. */
    predicate Within(u: Tables) {
      SubMap(subjects, u.subjects) && SubMap(systems, u.systems) && SubMap(sections, u.sections) &&
      SubMap(questions, u.questions) && SubMap(folders, u.folders) && SubMap(files, u.files)
    }

    /** Every id in use is below `nextId`. */
    predicate Bounded(nextId: nat) {
      IdsBelow(subjects, nextId) && IdsBelow(systems, nextId) && IdsBelow(sections, nextId) &&
      IdsBelow(questions, nextId) && IdsBelow(folders, nextId) && IdsBelow(files, nextId)
    }

    /** What the database guarantees at every moment. */
    predicate Valid(nextId: nat) {
      Linked() && SubjectNamesUnique() && Bounded(nextId)
    }

    /** The four counters `updateStatistics` writes. */
    function Recount(): (s: Statistics)
      ensures s.totalSubjects == |subjects| && s.totalSystems == |systems|
      ensures s.totalQuestions == |questions| && s.totalFiles == |files|
    {
      Statistics(|subjects|, |systems|, |questions|, |files|)
    }

    /** The tables after `updateStatistics`: the row is created or overwritten with fresh counts. */
    function Refreshed(): (t: Tables)
      ensures t.stats == Some(Recount())
      ensures t == this.(stats := t.stats)
    {
      this.(stats := Some(Recount()))
    }

    /** The tables after the refresh of the seeding and import routes: the row is
        overwritten only when it exists, never created. */
    function RefreshedIfPresent(): (t: Tables)
      ensures stats.None? ==> t == this
      ensures stats.Some? ==> t == Refreshed()
    {
      if stats.Some? then Refreshed() else this
    }
  }

  /** The systems whose subject exists. */
  function LiveSystems(systems: map<Id, System>, subjects: map<Id, Subject>): (r: map<Id, System>)
    ensures SubMap(r, systems)
    ensures forall k :: k in r ==> r[k].subjectId in subjects
    ensures forall k :: k in systems && systems[k].subjectId in subjects ==> k in r
  {
    map k | k in systems && systems[k].subjectId in subjects :: systems[k]
  }

  /** The sections whose system exists. */
  function LiveSections(sections: map<Id, MarksSection>, systems: map<Id, System>): (r: map<Id, MarksSection>)
    ensures SubMap(r, sections)
    ensures forall k :: k in r ==> r[k].systemId in systems
    ensures forall k :: k in sections && sections[k].systemId in systems ==> k in r
  {
    map k | k in sections && sections[k].systemId in systems :: sections[k]
  }

  /** The questions whose subject, system and section all exist. */
  function LiveQuestions(questions: map<Id, Question>, subjects: map<Id, Subject>, systems: map<Id, System>, sections: map<Id, MarksSection>): (r: map<Id, Question>)
    ensures SubMap(r, questions)
    ensures forall k :: k in r ==> QuestionLinked(r[k], subjects, systems, sections)
    ensures forall k :: k in questions && QuestionLinked(questions[k], subjects, systems, sections) ==> k in r
  {
    map k | k in questions && QuestionLinked(questions[k], subjects, systems, sections) :: questions[k]
  }

  /** The folders whose question exists. */
  function LiveFolders(folders: map<Id, Folder>, questions: map<Id, Question>): (r: map<Id, Folder>)
    ensures SubMap(r, folders)
    ensures forall k :: k in r ==> r[k].questionId in questions
    ensures forall k :: k in folders && folders[k].questionId in questions ==> k in r
  {
    map k | k in folders && folders[k].questionId in questions :: folders[k]
  }

  /** A file whose folder is gone is kept with no folder. */
  function Unfiled(f: File, folders: map<Id, Folder>): (g: File)
    ensures g == f.(folderId := g.folderId)
    ensures g.folderId.Some? ==> g.folderId == f.folderId && g.folderId.value in folders
    ensures f.folderId.Some? && f.folderId.value in folders ==> g == f
  {
    if f.folderId.Some? && f.folderId.value !in folders then f.(folderId := None) else f
  }

  /** The files whose question exists, each unfiled from a folder that is gone. */
  function LiveFiles(files: map<Id, File>, questions: map<Id, Question>, folders: map<Id, Folder>): (r: map<Id, File>)
    ensures forall k :: k in r <==> k in files && files[k].questionId in questions
    ensures forall k :: k in r ==> r[k] == Unfiled(files[k], folders)
  {
    map k | k in files && files[k].questionId in questions :: Unfiled(files[k], folders)
  }

  /** The cascade the database applies after a row is deleted: systems of a missing
      subject go, then sections of a missing system, questions with any missing parent,
      folders and files of a missing question, and a file whose folder is gone is kept
      with no folder. */
  function Prune(t: Tables): (r: Tables)
    ensures r.Linked()
    ensures r.subjects == t.subjects && r.stats == t.stats
    ensures SubMap(r.systems, t.systems) && SubMap(r.sections, t.sections)
    ensures SubMap(r.questions, t.questions) && SubMap(r.folders, t.folders)
    ensures forall k :: k in r.files ==> k in t.files && r.files[k] == t.files[k].(folderId := r.files[k].folderId)
    ensures forall k :: k in r.files && r.files[k].folderId.Some? ==> r.files[k].folderId == t.files[k].folderId
    ensures forall k :: k in t.systems && t.systems[k].subjectId in t.subjects ==> k in r.systems
    ensures forall k :: k in t.sections && t.sections[k].systemId in r.systems ==> k in r.sections
    ensures forall k :: k in t.questions && QuestionLinked(t.questions[k], r.subjects, r.systems, r.sections) ==> k in r.questions
    ensures forall k :: k in t.folders && t.folders[k].questionId in r.questions ==> k in r.folders
    ensures forall k :: k in t.files && t.files[k].questionId in r.questions ==> k in r.files
    ensures forall k :: k in r.files && t.files[k].folderId.Some? && t.files[k].folderId.value in r.folders ==> r.files[k] == t.files[k]
  {
    var systems := LiveSystems(t.systems, t.subjects);
    var sections := LiveSections(t.sections, systems);
    var questions := LiveQuestions(t.questions, t.subjects, systems, sections);
    var folders := LiveFolders(t.folders, questions);
    var files := LiveFiles(t.files, questions, folders);
    Tables(t.subjects, systems, sections, questions, folders, files, t.stats)
  }

  lemma LiveSystemsAll(systems: map<Id, System>, subjects: map<Id, Subject>)
    requires SystemsLinked(systems, subjects)
    ensures LiveSystems(systems, subjects) == systems
  {
    SameKeys(LiveSystems(systems, subjects), systems);
  }

  lemma LiveSectionsAll(sections: map<Id, MarksSection>, systems: map<Id, System>)
    requires SectionsLinked(sections, systems)
    ensures LiveSections(sections, systems) == sections
  {
    SameKeys(LiveSections(sections, systems), sections);
  }

  lemma LiveQuestionsAll(questions: map<Id, Question>, subjects: map<Id, Subject>, systems: map<Id, System>, sections: map<Id, MarksSection>)
    requires QuestionsLinked(questions, subjects, systems, sections)
    ensures LiveQuestions(questions, subjects, systems, sections) == questions
  {
    SameKeys(LiveQuestions(questions, subjects, systems, sections), questions);
  }

  lemma LiveFoldersAll(folders: map<Id, Folder>, questions: map<Id, Question>)
    requires FoldersLinked(folders, questions)
    ensures LiveFolders(folders, questions) == folders
  {
    SameKeys(LiveFolders(folders, questions), folders);
  }

  lemma LiveFilesAll(files: map<Id, File>, questions: map<Id, Question>, folders: map<Id, Folder>)
    requires FilesLinked(files, questions, folders)
    ensures LiveFiles(files, questions, folders) == files
  {
    SameKeys(LiveFiles(files, questions, folders), files);
  }

  /** On tables whose keys all resolve, the cascade removes nothing. */
  lemma PruneLinked(t: Tables)
    requires t.Linked()
    ensures Prune(t) == t
  {
    LiveSystemsAll(t.systems, t.subjects);
    LiveSectionsAll(t.sections, t.systems);
    LiveQuestionsAll(t.questions, t.subjects, t.systems, t.sections);
    LiveFoldersAll(t.folders, t.questions);
    LiveFilesAll(t.files, t.questions, t.folders);
  }

  /** Removing rows keeps every uniqueness property and every id bound. */
  lemma PruneKeeps(t: Tables, nextId: nat)
    ensures t.SubjectNamesUnique() ==> Prune(t).SubjectNamesUnique()
    ensures t.SystemNamesUnique() ==> Prune(t).SystemNamesUnique()
    ensures t.MarksUnique() ==> Prune(t).MarksUnique()
    ensures t.FolderNamesUnique() ==> Prune(t).FolderNamesUnique()
    ensures t.Bounded(nextId) ==> Prune(t).Bounded(nextId)
  {
  }

  /** Taking rows out of valid tables keeps the subject names unique and the ids bounded. */
  lemma WithinKeeps(t: Tables, u: Tables, nextId: nat)
    requires u.Valid(nextId) && t.Within(u)
    ensures t.SubjectNamesUnique() && t.Bounded(nextId)
  {
    WithinBounded(t, u, nextId);
  }

  lemma WithinBounded(t: Tables, u: Tables, nextId: nat)
    requires u.Bounded(nextId) && t.Within(u)
    ensures t.Bounded(nextId)
  {
  }

  // Foreign keys keep resolving when the parent tables only gain keys, and a table
  // stays linked when a linked row is written into it.

  lemma SystemsLinkedWider(systems: map<Id, System>, subjects: map<Id, Subject>, subjects2: map<Id, Subject>)
    requires SystemsLinked(systems, subjects) && subjects.Keys <= subjects2.Keys
    ensures SystemsLinked(systems, subjects2)
  {
  }

  lemma SectionsLinkedWider(sections: map<Id, MarksSection>, systems: map<Id, System>, systems2: map<Id, System>)
    requires SectionsLinked(sections, systems) && systems.Keys <= systems2.Keys
    ensures SectionsLinked(sections, systems2)
  {
  }

  lemma QuestionsLinkedWider(questions: map<Id, Question>, subjects: map<Id, Subject>, systems: map<Id, System>, sections: map<Id, MarksSection>,
                             subjects2: map<Id, Subject>, systems2: map<Id, System>, sections2: map<Id, MarksSection>)
    requires QuestionsLinked(questions, subjects, systems, sections)
    requires subjects.Keys <= subjects2.Keys && systems.Keys <= systems2.Keys && sections.Keys <= sections2.Keys
    ensures QuestionsLinked(questions, subjects2, systems2, sections2)
  {
    forall k | k in questions ensures QuestionLinked(questions[k], subjects2, systems2, sections2) {
      assert QuestionLinked(questions[k], subjects, systems, sections);
    }
  }

  lemma FoldersLinkedWider(folders: map<Id, Folder>, questions: map<Id, Question>, questions2: map<Id, Question>)
    requires FoldersLinked(folders, questions) && questions.Keys <= questions2.Keys
    ensures FoldersLinked(folders, questions2)
  {
  }

  lemma FilesLinkedWider(files: map<Id, File>, questions: map<Id, Question>, folders: map<Id, Folder>, questions2: map<Id, Question>, folders2: map<Id, Folder>)
    requires FilesLinked(files, questions, folders) && questions.Keys <= questions2.Keys && folders.Keys <= folders2.Keys
    ensures FilesLinked(files, questions2, folders2)
  {
    forall k | k in files ensures FileLinked(files[k], questions2, folders2) {
      assert FileLinked(files[k], questions, folders);
    }
  }

  /** Writing one row keeps every id below the raised counter. */
  lemma BoundedPut(t: Tables, u: Tables, nextId: nat, id: Id)
    requires t.Bounded(nextId)
    requires u.subjects.Keys <= t.subjects.Keys + {id} && u.systems.Keys <= t.systems.Keys + {id}
    requires u.sections.Keys <= t.sections.Keys + {id} && u.questions.Keys <= t.questions.Keys + {id}
    requires u.folders.Keys <= t.folders.Keys + {id} && u.files.Keys <= t.files.Keys + {id}
    ensures u.Bounded(After(nextId, id))
  {
  }

  // Each write the database accepts keeps every foreign key resolving.

  lemma PutSubjectLinked(t: Tables, id: Id, s: Subject)
    requires t.Linked()
    ensures t.(subjects := t.subjects[id := s]).Linked()
  {
    var u := t.subjects[id := s];
    SystemsLinkedWider(t.systems, t.subjects, u);
    QuestionsLinkedWider(t.questions, t.subjects, t.systems, t.sections, u, t.systems, t.sections);
  }

  lemma PutSystemLinked(t: Tables, id: Id, x: System)
    requires t.Linked() && x.subjectId in t.subjects
    ensures t.(systems := t.systems[id := x]).Linked()
  {
    var u := t.systems[id := x];
    SectionsLinkedWider(t.sections, t.systems, u);
    QuestionsLinkedWider(t.questions, t.subjects, t.systems, t.sections, t.subjects, u, t.sections);
  }

  lemma PutSectionLinked(t: Tables, id: Id, x: MarksSection)
    requires t.Linked() && x.systemId in t.systems
    ensures t.(sections := t.sections[id := x]).Linked()
  {
    QuestionsLinkedWider(t.questions, t.subjects, t.systems, t.sections, t.subjects, t.systems, t.sections[id := x]);
  }

  lemma PutQuestionLinked(t: Tables, id: Id, q: Question)
    requires t.Linked() && QuestionLinked(q, t.subjects, t.systems, t.sections)
    ensures t.(questions := t.questions[id := q]).Linked()
  {
    var u := t.questions[id := q];
    FoldersLinkedWider(t.folders, t.questions, u);
    FilesLinkedWider(t.files, t.questions, t.folders, u, t.folders);
  }

  lemma PutFolderLinked(t: Tables, id: Id, x: Folder)
    requires t.Linked() && x.questionId in t.questions
    ensures t.(folders := t.folders[id := x]).Linked()
  {
    FilesLinkedWider(t.files, t.questions, t.folders, t.questions, t.folders[id := x]);
  }

  lemma PutFileLinked(t: Tables, id: Id, f: File)
    requires t.Linked() && FileLinked(f, t.questions, t.folders)
    ensures t.(files := t.files[id := f]).Linked()
  {
  }

  // Each write the database accepts keeps the tables valid.

  lemma PutSubjectValid(t: Tables, nextId: nat, id: Id, s: Subject)
    requires t.Valid(nextId)
    requires forall k :: k in t.subjects && k != id ==> t.subjects[k].name != s.name
    ensures t.(subjects := t.subjects[id := s]).Valid(After(nextId, id))
  {
    PutSubjectLinked(t, id, s);
    BoundedPut(t, t.(subjects := t.subjects[id := s]), nextId, id);
  }

  lemma PutSystemValid(t: Tables, nextId: nat, id: Id, x: System)
    requires t.Valid(nextId) && x.subjectId in t.subjects
    ensures t.(systems := t.systems[id := x]).Valid(After(nextId, id))
  {
    PutSystemLinked(t, id, x);
    BoundedPut(t, t.(systems := t.systems[id := x]), nextId, id);
  }

  lemma PutSectionValid(t: Tables, nextId: nat, id: Id, x: MarksSection)
    requires t.Valid(nextId) && x.systemId in t.systems
    ensures t.(sections := t.sections[id := x]).Valid(After(nextId, id))
  {
    PutSectionLinked(t, id, x);
    BoundedPut(t, t.(sections := t.sections[id := x]), nextId, id);
  }

  lemma PutQuestionValid(t: Tables, nextId: nat, id: Id, q: Question)
    requires t.Valid(nextId) && QuestionLinked(q, t.subjects, t.systems, t.sections)
    ensures t.(questions := t.questions[id := q]).Valid(After(nextId, id))
  {
    PutQuestionLinked(t, id, q);
    BoundedPut(t, t.(questions := t.questions[id := q]), nextId, id);
  }

  lemma PutFolderValid(t: Tables, nextId: nat, id: Id, x: Folder)
    requires t.Valid(nextId) && x.questionId in t.questions
    ensures t.(folders := t.folders[id := x]).Valid(After(nextId, id))
  {
    PutFolderLinked(t, id, x);
    BoundedPut(t, t.(folders := t.folders[id := x]), nextId, id);
  }

  lemma PutFileValid(t: Tables, nextId: nat, id: Id, f: File)
    requires t.Valid(nextId) && FileLinked(f, t.questions, t.folders)
    ensures t.(files := t.files[id := f]).Valid(After(nextId, id))
  {
    PutFileLinked(t, id, f);
    BoundedPut(t, t.(files := t.files[id := f]), nextId, id);
  }

  /** The database, as one object holding every table, which the handlers read and
      write. Each write method is one statement the database accepts; its precondition is
      what the database checks (foreign keys, the unique subject name). */
  class Catalog {
    var tables: Tables
    /** The next id the database hands out; no row uses it or any id above it. */
    var nextId: nat

    predicate Valid()
      reads this
    {
      tables.Valid(nextId)
    }

    constructor ()
      ensures Valid()
      ensures tables == Tables(map[], map[], map[], map[], map[], map[], None)
    {
      tables := Tables(map[], map[], map[], map[], map[], map[], None);
      nextId := 0;
    }

    /** A fresh id for a new row. */
    method NewId() returns (id: Id)
      requires Valid()
      modifies this
      ensures id == old(nextId) && nextId == id + 1
      ensures tables == old(tables) && Valid()
      ensures id !in tables.subjects && id !in tables.systems && id !in tables.sections
      ensures id !in tables.questions && id !in tables.folders && id !in tables.files
    {
      id := nextId;
      nextId := nextId + 1;
    }

    /** Writes subject `id` (insert or overwrite); no other subject may have its name. */
    method PutSubject(id: Id, s: Subject)
      requires Valid()
      requires forall k :: k in tables.subjects && k != id ==> tables.subjects[k].name != s.name
      modifies this
      ensures tables == old(tables).(subjects := old(tables.subjects)[id := s])
      ensures nextId == After(old(nextId), id) && Valid()
    {
      PutSubjectValid(tables, nextId, id, s);
      tables := tables.(subjects := tables.subjects[id := s]);
      nextId := After(nextId, id);
    }

    /** Writes system `id`; its subject must exist. */
    method PutSystem(id: Id, x: System)
      requires Valid() && x.subjectId in tables.subjects
      modifies this
      ensures tables == old(tables).(systems := old(tables.systems)[id := x])
      ensures nextId == After(old(nextId), id) && Valid()
    {
      PutSystemValid(tables, nextId, id, x);
      tables := tables.(systems := tables.systems[id := x]);
      nextId := After(nextId, id);
    }

    /** Writes marks section `id`; its system must exist. */
    method PutSection(id: Id, x: MarksSection)
      requires Valid() && x.systemId in tables.systems
      modifies this
      ensures tables == old(tables).(sections := old(tables.sections)[id := x])
      ensures nextId == After(old(nextId), id) && Valid()
    {
      PutSectionValid(tables, nextId, id, x);
      tables := tables.(sections := tables.sections[id := x]);
      nextId := After(nextId, id);
    }

    /** Writes question `id`; its subject, system and section must exist. */
    method PutQuestion(id: Id, q: Question)
      requires Valid() && QuestionLinked(q, tables.subjects, tables.systems, tables.sections)
      modifies this
      ensures tables == old(tables).(questions := old(tables.questions)[id := q])
      ensures nextId == After(old(nextId), id) && Valid()
    {
      PutQuestionValid(tables, nextId, id, q);
      tables := tables.(questions := tables.questions[id := q]);
      nextId := After(nextId, id);
    }

    /** Writes folder `id`; its question must exist. */
    method PutFolder(id: Id, x: Folder)
      requires Valid() && x.questionId in tables.questions
      modifies this
      ensures tables == old(tables).(folders := old(tables.folders)[id := x])
      ensures nextId == After(old(nextId), id) && Valid()
    {
      PutFolderValid(tables, nextId, id, x);
      tables := tables.(folders := tables.folders[id := x]);
      nextId := After(nextId, id);
    }

    /** Writes file `id`; its question, and its folder if any, must exist. */
    method PutFile(id: Id, f: File)
      requires Valid() && FileLinked(f, tables.questions, tables.folders)
      modifies this
      ensures tables == old(tables).(files := old(tables.files)[id := f])
      ensures nextId == After(old(nextId), id) && Valid()
    {
      PutFileValid(tables, nextId, id, f);
      tables := tables.(files := tables.files[id := f]);
      nextId := After(nextId, id);
    }

    /** Deletes rows: the tables become `t` (the current ones with rows taken out) after
        the cascade. */
    method Remove(t: Tables)
      requires Valid() && t.Within(tables)
      modifies this
      ensures tables == Prune(t) && nextId == old(nextId)
      ensures Valid()
    {
      WithinKeeps(t, tables, nextId);
      PruneKeeps(t, nextId);
      tables := Prune(t);
    }

    /** `updateStatistics()`: recount the four tables and create or overwrite the row. */
    method RefreshStatistics()
      modifies this
      ensures tables == old(tables).Refreshed() && nextId == old(nextId)
      ensures old(Valid()) ==> Valid()
    {
      tables := tables.Refreshed();
    }

    /** The refresh of the seeding and import routes: overwrite the row only if it exists. */
    method RefreshStatisticsIfPresent()
      modifies this
      ensures tables == old(tables).RefreshedIfPresent() && nextId == old(nextId)
      ensures old(Valid()) ==> Valid()
    {
      tables := tables.RefreshedIfPresent();
    }
  }
}
