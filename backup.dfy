/** The backup route: export of every table as one document (GET), and import of such a
    document (POST), either merging it into the catalog or replacing the catalog by it. */
module Backup {
  import opened Common
  import opened Ordering
  import opened Store

  // The document.

  /** One row of a table as a backup carries it: its id and its columns. */
  datatype Record<X> = Record(id: Id, row: X)

  /** The `years` of a question in a backup: a list of years, or any other value, which is
      kept as the text it is. */
  datatype YearsValue = YearList(list: seq<string>) | YearText(text: string)

  /** `JSON.parse` of a text, where it reads a list of years; `None` where it throws or
      reads some other value. The parser is a parameter of the import. */
  type YearsParser = string -> Option<seq<string>>

  /** A question as a backup carries it: the columns of the row, with `years` as a value
      of the document rather than the stored text. */
  datatype QuestionRecord = QuestionRecord(
    id: Id,
    title: string,
    description: Option<string>,
    repeatCount: int,
    years: YearsValue,
    importanceScore: real,
    globalImportance: real,
    notes: Option<string>,
    isBookmarked: bool,
    subjectId: Id,
    systemId: Id,
    marksSectionId: Id,
    createdAt: int)

  /** The `data` part of a backup. A collection that is absent, or is not a list, reads
      as the empty list. */
  datatype BackupTables = BackupTables(
    subjects: seq<Record<Subject>>,
    systems: seq<Record<System>>,
    marksSections: seq<Record<MarksSection>>,
    questions: seq<QuestionRecord>,
    files: seq<Record<File>>,
    folders: seq<Record<Folder>>)

  datatype Counts = Counts(subjects: nat, systems: nat, marksSections: nat, questions: nat, files: nat, folders: nat)

  datatype Backup = Backup(version: string, exportedAt: string, statistics: Option<Statistics>, counts: Counts, data: BackupTables)

  // Export.

  /** The rows of `m` under the ids `ks`, in that order. */
  function Rows<X>(m: map<Id, X>, ks: seq<Id>): (rs: seq<Record<X>>)
    requires forall k :: k in ks ==> k in m
    ensures |rs| == |ks|
    ensures forall i :: 0 <= i < |ks| ==> rs[i] == Record(ks[i], m[ks[i]])
  {
    if ks == [] then [] else [Record(ks[0], m[ks[0]])] + Rows(m, ks[1..])
  }

  /** A table as `findMany()` lists it: every row once, in id order. */
  function Table<X>(m: map<Id, X>): (rs: seq<Record<X>>)
    ensures |rs| == |m|
    ensures forall i :: 0 <= i < |rs| ==> rs[i].id in m && rs[i].row == m[rs[i].id]
    ensures forall k :: k in m <==> k in Ids(rs)
    ensures forall i, j :: 0 <= i < j < |rs| ==> rs[i].id < rs[j].id
  {
    var ks := SortedIds(m.Keys);
    var rs := Rows(m, ks);
    IdsOfRows(m, ks);
    rs
  }

  function Ids<X>(rs: seq<Record<X>>): (ks: seq<Id>)
    ensures |ks| == |rs| && forall i :: 0 <= i < |rs| ==> ks[i] == rs[i].id
  {
    if rs == [] then [] else [rs[0].id] + Ids(rs[1..])
  }

  lemma IdsOfRows<X>(m: map<Id, X>, ks: seq<Id>)
    requires forall k :: k in ks ==> k in m
    ensures Ids(Rows(m, ks)) == ks
  {
  }

  /** A question as exported: every column as stored, with the years read back by
      `parseYears`. */
  function ExportQuestion(id: Id, q: Question): (r: QuestionRecord)
    ensures r.years == YearList(ParseYears(q.years))
  {
    QuestionRecord(id, q.title, q.description, q.repeatCount, YearList(ParseYears(q.years)), q.importanceScore,
                   q.globalImportance, q.notes, q.isBookmarked, q.subjectId, q.systemId, q.marksSectionId, q.createdAt)
  }

  function ExportQuestions(rs: seq<Record<Question>>): (qs: seq<QuestionRecord>)
    ensures |qs| == |rs|
    ensures forall i :: 0 <= i < |rs| ==> qs[i] == ExportQuestion(rs[i].id, rs[i].row)
  {
    if rs == [] then [] else [ExportQuestion(rs[0].id, rs[0].row)] + ExportQuestions(rs[1..])
  }

  /** The `data` part of the document: every table in id order. */
  function Dump(t: Tables): BackupTables {
    BackupTables(Table(t.subjects), Table(t.systems), Table(t.sections), ExportQuestions(Table(t.questions)),
                 Table(t.files), Table(t.folders))
  }

  /** GET: every table in id order, the statistics row as it is, and the number of rows of
      each table. Writing the document to disk is left out. */
  function Export(t: Tables, exportedAt: string): (b: Backup)
    ensures b.version == "1.0" && b.statistics == t.stats && b.data == Dump(t)
    ensures b.counts == Counts(|b.data.subjects|, |b.data.systems|, |b.data.marksSections|, |b.data.questions|,
                               |b.data.files|, |b.data.folders|)
    ensures b.counts == Counts(|t.subjects|, |t.systems|, |t.sections|, |t.questions|, |t.files|, |t.folders|)
  {
    var data := Dump(t);
    Backup("1.0", exportedAt, t.stats,
           Counts(|data.subjects|, |data.systems|, |data.marksSections|, |data.questions|, |data.files|, |data.folders|),
           data)
  }

  /** Each exported question is a stored one, with its years read back by `parseYears`. */
  lemma ExportedYears(t: Tables, exportedAt: string)
    ensures var qs := Export(t, exportedAt).data.questions;
      forall i :: 0 <= i < |qs| ==> qs[i].id in t.questions && qs[i].years == YearList(ParseYears(t.questions[qs[i].id].years))
  {
  }

  // Import of one record.

  /** The row an imported question becomes: every column as given (the repeat count and
      the score are not recomputed), and a list of years serialised. Text in place of a
      list is stored as it is; when it is the JSON text of a list, it is stored as that
      list, since it is the same column text and reads back as that list. */
  function QuestionRow(r: QuestionRecord, parse: YearsParser): (q: Question)
    ensures q.repeatCount == r.repeatCount && q.importanceScore == r.importanceScore
    ensures r.years.YearList? ==> q.years == Serialized(r.years.list)
    ensures r.years.YearText? && parse(r.years.text).Some? ==> q.years == Serialized(parse(r.years.text).value)
    ensures r.years.YearText? && parse(r.years.text).None? ==> q.years == Verbatim(r.years.text)
    ensures ParseYears(q.years) == match r.years
      case YearList(list) => list
      case YearText(text) => if parse(text).Some? then parse(text).value else []
    ensures ExportQuestion(r.id, q) == r <==> r.years == YearList(ParseYears(q.years))
  {
    var years := match r.years
      case YearList(list) => Serialized(list)
      case YearText(text) => if parse(text).Some? then Serialized(parse(text).value) else Verbatim(text);
    Question(r.title, r.description, r.repeatCount, years, r.importanceScore, r.globalImportance, r.notes,
             r.isBookmarked, r.subjectId, r.systemId, r.marksSectionId, r.createdAt)
  }

  /** The rows the question records become, in order. */
  function QuestionRows(qs: seq<QuestionRecord>, parse: YearsParser): (rs: seq<Record<Question>>)
    ensures |rs| == |qs|
    ensures forall i :: 0 <= i < |qs| ==> rs[i] == Record(qs[i].id, QuestionRow(qs[i], parse))
  {
    if qs == [] then [] else [Record(qs[0].id, QuestionRow(qs[0], parse))] + QuestionRows(qs[1..], parse)
  }

  /** A question whose years a handler wrote exports to a record that imports back as it. */
  lemma QuestionRoundTrip(id: Id, q: Question, parse: YearsParser)
    requires q.years.Serialized?
    ensures QuestionRow(ExportQuestion(id, q), parse) == q
  {
  }

  /** No subject other than `id` is named `name`. */
  predicate NameFree(subjects: map<Id, Subject>, id: Id, name: string) {
    forall k :: k in subjects && k != id ==> subjects[k].name != name
  }

  // The write of one record: `None` when the database refuses it. In upsert mode a record
  // whose id is in use updates that row, which keeps its own `createdAt`; otherwise the
  // record is created with its id, which fails when the id is in use.

  function SubjectWrite(t: Tables, r: Record<Subject>, upsert: bool): Option<Tables> {
    if r.id in t.subjects && !upsert then None
    else if !NameFree(t.subjects, r.id, r.row.name) then None
    else
      var row := if r.id in t.subjects then r.row.(createdAt := t.subjects[r.id].createdAt) else r.row;
      Some(t.(subjects := t.subjects[r.id := row]))
  }

  function SystemWrite(t: Tables, r: Record<System>, upsert: bool): Option<Tables> {
    if r.id in t.systems && !upsert then None
    else if r.row.subjectId !in t.subjects then None
    else
      var row := if r.id in t.systems then r.row.(createdAt := t.systems[r.id].createdAt) else r.row;
      Some(t.(systems := t.systems[r.id := row]))
  }

  function SectionWrite(t: Tables, r: Record<MarksSection>, upsert: bool): Option<Tables> {
    if r.id in t.sections && !upsert then None
    else if r.row.systemId !in t.systems then None
    else
      var row := if r.id in t.sections then r.row.(createdAt := t.sections[r.id].createdAt) else r.row;
      Some(t.(sections := t.sections[r.id := row]))
  }

  function QuestionWrite(t: Tables, r: Record<Question>, upsert: bool): Option<Tables> {
    if r.id in t.questions && !upsert then None
    else if !QuestionLinked(r.row, t.subjects, t.systems, t.sections) then None
    else
      var row := if r.id in t.questions then r.row.(createdAt := t.questions[r.id].createdAt) else r.row;
      Some(t.(questions := t.questions[r.id := row]))
  }

  function FolderWrite(t: Tables, r: Record<Folder>, upsert: bool): Option<Tables> {
    if r.id in t.folders && !upsert then None
    else if r.row.questionId !in t.questions then None
    else
      var row := if r.id in t.folders then r.row.(createdAt := t.folders[r.id].createdAt) else r.row;
      Some(t.(folders := t.folders[r.id := row]))
  }

  function FileWrite(t: Tables, r: Record<File>, upsert: bool): Option<Tables> {
    if r.id in t.files && !upsert then None
    else if !FileLinked(r.row, t.questions, t.folders) then None
    else
      var row := if r.id in t.files then r.row.(createdAt := t.files[r.id].createdAt) else r.row;
      Some(t.(files := t.files[r.id := row]))
  }

  /** A write the database accepts keeps the tables valid under the raised counter. */
  lemma SubjectWriteValid(t: Tables, next: nat, r: Record<Subject>, upsert: bool)
    requires t.Valid(next) && SubjectWrite(t, r, upsert).Some?
    ensures SubjectWrite(t, r, upsert).value.Valid(After(next, r.id))
  {
    var row := if r.id in t.subjects then r.row.(createdAt := t.subjects[r.id].createdAt) else r.row;
    PutSubjectValid(t, next, r.id, row);
  }

  // The state the loops carry.

  /** The tables, the id counter, the counter of the collection being imported, and
      `results.errors`. */
  datatype Tally = Tally(t: Tables, next: nat, count: nat, errors: seq<string>)

  /** The outcome of one record: written, and counted; or refused, and its failure
      appended to the errors. */
  function Tallied(a: Tally, written: Option<Tables>, id: Id, failure: string): Tally {
    if written.Some? then Tally(written.value, After(a.next, id), a.count + 1, a.errors)
    else a.(errors := a.errors + [failure])
  }

  /** Each record is either counted or listed as failed, and no failure is forgotten. */
  predicate Accounts(a: Tally, r: Tally, n: nat) {
    a.count <= r.count && r.count + |r.errors| == a.count + |a.errors| + n && a.errors <= r.errors
  }

  lemma TalliedAccounts(a: Tally, written: Option<Tables>, id: Id, failure: string)
    ensures Accounts(a, Tallied(a, written, id, failure), 1)
  {
  }

  lemma AccountsTrans(a: Tally, b: Tally, c: Tally, m: nat, n: nat)
    requires Accounts(a, b, m) && Accounts(b, c, n)
    ensures Accounts(a, c, m + n)
  {
  }

  // The loop over each collection, in the order of the document.

  function ImportedSubjects(a: Tally, rs: seq<Record<Subject>>, upsert: bool): Tally
    decreases |rs|
  {
    if rs == [] then a
    else
      var b := ImportedSubjects(a, rs[..|rs| - 1], upsert);
      var r := rs[|rs| - 1];
      Tallied(b, SubjectWrite(b.t, r, upsert), r.id, "Subject: " + r.row.name)
  }

  function ImportedSystems(a: Tally, rs: seq<Record<System>>, upsert: bool): Tally
    decreases |rs|
  {
    if rs == [] then a
    else
      var b := ImportedSystems(a, rs[..|rs| - 1], upsert);
      var r := rs[|rs| - 1];
      Tallied(b, SystemWrite(b.t, r, upsert), r.id, "System: " + r.row.name)
  }

  function ImportedSections(a: Tally, rs: seq<Record<MarksSection>>, upsert: bool): Tally
    decreases |rs|
  {
    if rs == [] then a
    else
      var b := ImportedSections(a, rs[..|rs| - 1], upsert);
      var r := rs[|rs| - 1];
      Tallied(b, SectionWrite(b.t, r, upsert), r.id, "MarksSection: " + r.row.labelText)
  }

  function ImportedQuestions(a: Tally, rs: seq<Record<Question>>, upsert: bool): Tally
    decreases |rs|
  {
    if rs == [] then a
    else
      var b := ImportedQuestions(a, rs[..|rs| - 1], upsert);
      var r := rs[|rs| - 1];
      Tallied(b, QuestionWrite(b.t, r, upsert), r.id, "Question: " + r.row.title)
  }

  function ImportedFolders(a: Tally, rs: seq<Record<Folder>>, upsert: bool): Tally
    decreases |rs|
  {
    if rs == [] then a
    else
      var b := ImportedFolders(a, rs[..|rs| - 1], upsert);
      var r := rs[|rs| - 1];
      Tallied(b, FolderWrite(b.t, r, upsert), r.id, "Folder: " + r.row.name)
  }

  function ImportedFiles(a: Tally, rs: seq<Record<File>>, upsert: bool): Tally
    decreases |rs|
  {
    if rs == [] then a
    else
      var b := ImportedFiles(a, rs[..|rs| - 1], upsert);
      var r := rs[|rs| - 1];
      Tallied(b, FileWrite(b.t, r, upsert), r.id, "File: " + r.row.name)
  }

  // The whole import.

  /** `mode === 'replace'`: the tables are emptied first. */
  predicate Clears(mode: Option<string>) {
    mode == Some("replace")
  }

  /** `mode === 'merge'`, the default: records upsert by id. Any other mode creates every
      record, like replace, but without emptying the tables first. */
  predicate Upserts(mode: Option<string>) {
    mode.None? || mode == Some("merge")
  }

  /** The tables after the six `deleteMany` calls: every table empty, the statistics row
      kept. */
  function Cleared(t: Tables): (u: Tables)
    ensures u.subjects == map[] && u.systems == map[] && u.sections == map[]
    ensures u.questions == map[] && u.folders == map[] && u.files == map[]
    ensures u.stats == t.stats
  {
    Tables(map[], map[], map[], map[], map[], map[], t.stats)
  }

  datatype ImportReport = ImportReport(
    subjects: nat, systems: nat, marksSections: nat, questions: nat, files: nat, folders: nat, errors: seq<string>)

  /** The tables, the id counter and the report after the six loops. */
  datatype Imported = Imported(t: Tables, next: nat, report: ImportReport)

  /** The six loops, from the tally `a0`: subjects, systems, marks sections, questions,
      folders and files, each counted from zero, the errors gathered across all of
      them. */
  function ImportAll(a0: Tally, data: BackupTables, upsert: bool, parse: YearsParser): Imported {
    var a1 := ImportedSubjects(a0, data.subjects, upsert);
    var a2 := ImportedSystems(a1.(count := 0), data.systems, upsert);
    var a3 := ImportedSections(a2.(count := 0), data.marksSections, upsert);
    var a4 := ImportedQuestions(a3.(count := 0), QuestionRows(data.questions, parse), upsert);
    var a5 := ImportedFolders(a4.(count := 0), data.folders, upsert);
    var a6 := ImportedFiles(a5.(count := 0), data.files, upsert);
    Imported(a6.t, a6.next, ImportReport(a1.count, a2.count, a3.count, a4.count, a6.count, a5.count, a6.errors))
  }

  /** The loops of POST, after the tables are emptied in replace mode. */
  function Importing(t: Tables, next: nat, data: BackupTables, mode: Option<string>, parse: YearsParser): Imported {
    ImportAll(Tally(if Clears(mode) then Cleared(t) else t, next, 0, []), data, Upserts(mode), parse)
  }

  // Every record is accounted for.

  lemma {:induction false} SubjectsAccount(a: Tally, rs: seq<Record<Subject>>, upsert: bool)
    ensures Accounts(a, ImportedSubjects(a, rs, upsert), |rs|)
    decreases |rs|
  {
    if rs != [] {
      var init := rs[..|rs| - 1];
      SubjectsAccount(a, init, upsert);
      var b := ImportedSubjects(a, init, upsert);
      TalliedAccounts(b, SubjectWrite(b.t, rs[|rs| - 1], upsert), rs[|rs| - 1].id, "Subject: " + rs[|rs| - 1].row.name);
    }
  }

  lemma {:induction false} SystemsAccount(a: Tally, rs: seq<Record<System>>, upsert: bool)
    ensures Accounts(a, ImportedSystems(a, rs, upsert), |rs|)
    decreases |rs|
  {
    if rs != [] {
      var init := rs[..|rs| - 1];
      SystemsAccount(a, init, upsert);
      var b := ImportedSystems(a, init, upsert);
      TalliedAccounts(b, SystemWrite(b.t, rs[|rs| - 1], upsert), rs[|rs| - 1].id, "System: " + rs[|rs| - 1].row.name);
    }
  }

  lemma {:induction false} SectionsAccount(a: Tally, rs: seq<Record<MarksSection>>, upsert: bool)
    ensures Accounts(a, ImportedSections(a, rs, upsert), |rs|)
    decreases |rs|
  {
    if rs != [] {
      var init := rs[..|rs| - 1];
      SectionsAccount(a, init, upsert);
      var b := ImportedSections(a, init, upsert);
      TalliedAccounts(b, SectionWrite(b.t, rs[|rs| - 1], upsert), rs[|rs| - 1].id, "MarksSection: " + rs[|rs| - 1].row.labelText);
    }
  }

  lemma {:induction false} QuestionsAccount(a: Tally, rs: seq<Record<Question>>, upsert: bool)
    ensures Accounts(a, ImportedQuestions(a, rs, upsert), |rs|)
    decreases |rs|
  {
    if rs != [] {
      var init := rs[..|rs| - 1];
      QuestionsAccount(a, init, upsert);
      var b := ImportedQuestions(a, init, upsert);
      TalliedAccounts(b, QuestionWrite(b.t, rs[|rs| - 1], upsert), rs[|rs| - 1].id, "Question: " + rs[|rs| - 1].row.title);
    }
  }

  lemma {:induction false} FoldersAccount(a: Tally, rs: seq<Record<Folder>>, upsert: bool)
    ensures Accounts(a, ImportedFolders(a, rs, upsert), |rs|)
    decreases |rs|
  {
    if rs != [] {
      var init := rs[..|rs| - 1];
      FoldersAccount(a, init, upsert);
      var b := ImportedFolders(a, init, upsert);
      TalliedAccounts(b, FolderWrite(b.t, rs[|rs| - 1], upsert), rs[|rs| - 1].id, "Folder: " + rs[|rs| - 1].row.name);
    }
  }

  lemma {:induction false} FilesAccount(a: Tally, rs: seq<Record<File>>, upsert: bool)
    ensures Accounts(a, ImportedFiles(a, rs, upsert), |rs|)
    decreases |rs|
  {
    if rs != [] {
      var init := rs[..|rs| - 1];
      FilesAccount(a, init, upsert);
      var b := ImportedFiles(a, init, upsert);
      TalliedAccounts(b, FileWrite(b.t, rs[|rs| - 1], upsert), rs[|rs| - 1].id, "File: " + rs[|rs| - 1].row.name);
    }
  }

  /** Each collection's counter is at most its number of records, and every record is
      either counted or listed in the errors: a refused record does not stop the rest. */
  lemma ImportAccounts(t: Tables, next: nat, data: BackupTables, mode: Option<string>, parse: YearsParser)
    ensures var report := Importing(t, next, data, mode, parse).report;
      report.subjects <= |data.subjects| && report.systems <= |data.systems| &&
      report.marksSections <= |data.marksSections| && report.questions <= |data.questions| &&
      report.folders <= |data.folders| && report.files <= |data.files| &&
      report.subjects + report.systems + report.marksSections + report.questions + report.folders + report.files + |report.errors| ==
      |data.subjects| + |data.systems| + |data.marksSections| + |data.questions| + |data.folders| + |data.files|
  {
    var upsert := Upserts(mode);
    var a0 := Tally(if Clears(mode) then Cleared(t) else t, next, 0, []);
    SubjectsAccount(a0, data.subjects, upsert);
    var a1 := ImportedSubjects(a0, data.subjects, upsert);
    SystemsAccount(a1.(count := 0), data.systems, upsert);
    var a2 := ImportedSystems(a1.(count := 0), data.systems, upsert);
    SectionsAccount(a2.(count := 0), data.marksSections, upsert);
    var a3 := ImportedSections(a2.(count := 0), data.marksSections, upsert);
    QuestionsAccount(a3.(count := 0), QuestionRows(data.questions, parse), upsert);
    var a4 := ImportedQuestions(a3.(count := 0), QuestionRows(data.questions, parse), upsert);
    FoldersAccount(a4.(count := 0), data.folders, upsert);
    var a5 := ImportedFolders(a4.(count := 0), data.folders, upsert);
    FilesAccount(a5.(count := 0), data.files, upsert);
  }

  // Importing an export.

  /** The table the rows make when each is written under its id, in order. */
  function Keyed<X>(rs: seq<Record<X>>): map<Id, X>
    decreases |rs|
  {
    if rs == [] then map[] else Keyed(rs[..|rs| - 1])[rs[|rs| - 1].id := rs[|rs| - 1].row]
  }

  /** `rs` lists rows of `m`, in increasing id order. */
  predicate RowsOf<X(==)>(rs: seq<Record<X>>, m: map<Id, X>) {
    (forall i :: 0 <= i < |rs| ==> rs[i].id in m && rs[i].row == m[rs[i].id]) &&
    (forall i, j :: 0 <= i < j < |rs| ==> rs[i].id < rs[j].id)
  }

  lemma RowsOfInit<X>(rs: seq<Record<X>>, m: map<Id, X>)
    requires RowsOf(rs, m) && rs != []
    ensures RowsOf(rs[..|rs| - 1], m)
  {
    assert forall i :: 0 <= i < |rs| - 1 ==> rs[..|rs| - 1][i] == rs[i];
  }

  /** Rows of `m` written in id order make part of `m`, each under an id no later row
      uses. */
  lemma {:induction false} KeyedRows<X>(rs: seq<Record<X>>, m: map<Id, X>)
    requires RowsOf(rs, m)
    ensures SubMap(Keyed(rs), m)
    ensures forall i :: 0 <= i < |rs| ==> rs[i].id in Keyed(rs)
    ensures rs != [] ==> forall k :: k in Keyed(rs) ==> k <= rs[|rs| - 1].id
    decreases |rs|
  {
    if rs != [] {
      var init := rs[..|rs| - 1];
      RowsOfInit(rs, m);
      KeyedRows(init, m);
      forall i | 0 <= i < |rs| ensures rs[i].id in Keyed(rs) {
        if i < |init| {
          assert init[i] == rs[i];
        }
      }
      if init != [] {
        assert init[|init| - 1].id < rs[|rs| - 1].id;
      }
    }
  }

  /** The next row's id is not among those written before it. */
  lemma KeyedFresh<X>(rs: seq<Record<X>>, m: map<Id, X>)
    requires RowsOf(rs, m) && rs != []
    ensures RowsOf(rs[..|rs| - 1], m) && rs[|rs| - 1].id !in Keyed(rs[..|rs| - 1])
    ensures SubMap(Keyed(rs[..|rs| - 1]), m)
  {
    var init := rs[..|rs| - 1];
    RowsOfInit(rs, m);
    KeyedRows(init, m);
    if init != [] {
      assert init[|init| - 1].id < rs[|rs| - 1].id;
    }
  }

  /** A table's export, written row by row, is the table. */
  lemma KeyedTable<X>(m: map<Id, X>)
    ensures RowsOf(Table(m), m) && Keyed(Table(m)) == m
  {
    var rs := Table(m);
    KeyedRows(rs, m);
    forall k | k in m ensures k in Keyed(rs) {
      assert k in Ids(rs);
      var i :| 0 <= i < |rs| && Ids(rs)[i] == k;
    }
    SameKeys(Keyed(rs), m);
  }

  /** The subjects of a valid catalog, created in id order into an empty table, are all
      written, with no error. */
  lemma {:induction false} RestoreSubjects(a: Tally, rs: seq<Record<Subject>>, t: Tables)
    requires RowsOf(rs, t.subjects) && t.SubjectNamesUnique() && a.t.subjects == map[]
    ensures var r := ImportedSubjects(a, rs, false);
      r.t == a.t.(subjects := Keyed(rs)) && r.count == a.count + |rs| && r.errors == a.errors
    decreases |rs|
  {
    if rs != [] {
      var init, last := rs[..|rs| - 1], rs[|rs| - 1];
      KeyedFresh(rs, t.subjects);
      RestoreSubjects(a, init, t);
      var b := ImportedSubjects(a, init, false);
      forall k | k in b.t.subjects && k != last.id ensures b.t.subjects[k].name != last.row.name {
        assert b.t.subjects[k] == t.subjects[k];
        assert t.subjects[last.id].name == last.row.name;
      }
    }
  }

  lemma {:induction false} RestoreSystems(a: Tally, rs: seq<Record<System>>, t: Tables)
    requires RowsOf(rs, t.systems) && a.t.systems == map[]
    requires forall k :: k in t.systems ==> t.systems[k].subjectId in a.t.subjects
    ensures var r := ImportedSystems(a, rs, false);
      r.t == a.t.(systems := Keyed(rs)) && r.count == a.count + |rs| && r.errors == a.errors
    decreases |rs|
  {
    if rs != [] {
      KeyedFresh(rs, t.systems);
      RestoreSystems(a, rs[..|rs| - 1], t);
    }
  }

  lemma {:induction false} RestoreSections(a: Tally, rs: seq<Record<MarksSection>>, t: Tables)
    requires RowsOf(rs, t.sections) && a.t.sections == map[]
    requires forall k :: k in t.sections ==> t.sections[k].systemId in a.t.systems
    ensures var r := ImportedSections(a, rs, false);
      r.t == a.t.(sections := Keyed(rs)) && r.count == a.count + |rs| && r.errors == a.errors
    decreases |rs|
  {
    if rs != [] {
      KeyedFresh(rs, t.sections);
      RestoreSections(a, rs[..|rs| - 1], t);
    }
  }

  lemma {:induction false} RestoreQuestions(a: Tally, rs: seq<Record<Question>>, t: Tables)
    requires RowsOf(rs, t.questions) && a.t.questions == map[]
    requires forall k :: k in t.questions ==> QuestionLinked(t.questions[k], a.t.subjects, a.t.systems, a.t.sections)
    ensures var r := ImportedQuestions(a, rs, false);
      r.t == a.t.(questions := Keyed(rs)) && r.count == a.count + |rs| && r.errors == a.errors
    decreases |rs|
  {
    if rs != [] {
      KeyedFresh(rs, t.questions);
      RestoreQuestions(a, rs[..|rs| - 1], t);
    }
  }

  lemma {:induction false} RestoreFolders(a: Tally, rs: seq<Record<Folder>>, t: Tables)
    requires RowsOf(rs, t.folders) && a.t.folders == map[]
    requires forall k :: k in t.folders ==> t.folders[k].questionId in a.t.questions
    ensures var r := ImportedFolders(a, rs, false);
      r.t == a.t.(folders := Keyed(rs)) && r.count == a.count + |rs| && r.errors == a.errors
    decreases |rs|
  {
    if rs != [] {
      KeyedFresh(rs, t.folders);
      RestoreFolders(a, rs[..|rs| - 1], t);
    }
  }

  lemma {:induction false} RestoreFiles(a: Tally, rs: seq<Record<File>>, t: Tables)
    requires RowsOf(rs, t.files) && a.t.files == map[]
    requires forall k :: k in t.files ==> FileLinked(t.files[k], a.t.questions, a.t.folders)
    ensures var r := ImportedFiles(a, rs, false);
      r.t == a.t.(files := Keyed(rs)) && r.count == a.count + |rs| && r.errors == a.errors
    decreases |rs|
  {
    if rs != [] {
      KeyedFresh(rs, t.files);
      RestoreFiles(a, rs[..|rs| - 1], t);
    }
  }

  /** The question records of an export turn back into the rows they came from, when
      the years of each were written by a handler. */
  lemma QuestionRowsOfExport(m: map<Id, Question>, parse: YearsParser)
    requires forall k :: k in m ==> m[k].years.Serialized?
    ensures QuestionRows(ExportQuestions(Table(m)), parse) == Table(m)
  {
    var rs := Table(m);
    var qs := QuestionRows(ExportQuestions(rs), parse);
    forall i | 0 <= i < |rs| ensures qs[i] == rs[i] {
      QuestionRoundTrip(rs[i].id, rs[i].row, parse);
    }
  }

  /** The mode "replace" empties the tables and creates every record. */
  lemma ReplaceMode()
    ensures Clears(Some("replace")) && !Upserts(Some("replace"))
  {
    assert "replace"[0] != "merge"[0];
  }

  /** Replace mode, first half: subjects, systems and marks sections of a valid catalog
      restored into emptied tables. */
  lemma ReplaceRestoresStructure(s: Tables, snext: nat, t: Tables)
    requires t.Linked() && t.SubjectNamesUnique()
    ensures var a1 := ImportedSubjects(Tally(Cleared(s), snext, 0, []), Table(t.subjects), false);
      var a2 := ImportedSystems(a1.(count := 0), Table(t.systems), false);
      var a3 := ImportedSections(a2.(count := 0), Table(t.sections), false);
      a1.count == |t.subjects| && a2.count == |t.systems| && a3.count == |t.sections| && a3.errors == [] &&
      a3.t == Cleared(s).(subjects := t.subjects, systems := t.systems, sections := t.sections)
  {
    var a0 := Tally(Cleared(s), snext, 0, []);
    KeyedTable(t.subjects);
    RestoreSubjects(a0, Table(t.subjects), t);
    var a1 := ImportedSubjects(a0, Table(t.subjects), false);
    KeyedTable(t.systems);
    RestoreSystems(a1.(count := 0), Table(t.systems), t);
    var a2 := ImportedSystems(a1.(count := 0), Table(t.systems), false);
    KeyedTable(t.sections);
    RestoreSections(a2.(count := 0), Table(t.sections), t);
  }

  /** Replace mode, second half: questions, folders and files restored once the tables
      they hang from are. */
  lemma ReplaceRestoresContent(a3: Tally, t: Tables)
    requires t.Linked() && a3.t.questions == map[] && a3.t.folders == map[] && a3.t.files == map[]
    requires a3.t.subjects == t.subjects && a3.t.systems == t.systems && a3.t.sections == t.sections
    ensures var a4 := ImportedQuestions(a3.(count := 0), Table(t.questions), false);
      var a5 := ImportedFolders(a4.(count := 0), Table(t.folders), false);
      var a6 := ImportedFiles(a5.(count := 0), Table(t.files), false);
      a4.count == |t.questions| && a5.count == |t.folders| && a6.count == |t.files| && a6.errors == a3.errors &&
      a6.t == t.(stats := a3.t.stats)
  {
    KeyedTable(t.questions);
    RestoreQuestions(a3.(count := 0), Table(t.questions), t);
    var a4 := ImportedQuestions(a3.(count := 0), Table(t.questions), false);
    KeyedTable(t.folders);
    RestoreFolders(a4.(count := 0), Table(t.folders), t);
    var a5 := ImportedFolders(a4.(count := 0), Table(t.folders), false);
    KeyedTable(t.files);
    RestoreFiles(a5.(count := 0), Table(t.files), t);
  }

  /** The six loops over a valid catalog's export, created into emptied tables, restore
      every table, count every row and report no error. */
  lemma ReplaceRestoresTables(s: Tables, snext: nat, t: Tables, parse: YearsParser)
    requires t.Linked() && t.SubjectNamesUnique() && forall k :: k in t.questions ==> t.questions[k].years.Serialized?
    ensures var run := ImportAll(Tally(Cleared(s), snext, 0, []), Dump(t), false, parse);
      run.t == t.(stats := s.stats) &&
      run.report.subjects == |t.subjects| && run.report.systems == |t.systems| &&
      run.report.marksSections == |t.sections| && run.report.questions == |t.questions| &&
      run.report.files == |t.files| && run.report.folders == |t.folders| && run.report.errors == []
  {
    QuestionRowsOfExport(t.questions, parse);
    ReplaceRestoresStructure(s, snext, t);
    var a1 := ImportedSubjects(Tally(Cleared(s), snext, 0, []), Table(t.subjects), false);
    var a2 := ImportedSystems(a1.(count := 0), Table(t.systems), false);
    var a3 := ImportedSections(a2.(count := 0), Table(t.sections), false);
    ReplaceRestoresContent(a3, t);
  }

  /** Importing a catalog's own export in replace mode, whatever the tables held before,
      restores every table of the catalog, counts every row and reports no error; the
      statistics row stays the one that was there. */
  lemma ReplaceRestoresExport(t: Tables, s: Tables, snext: nat, exportedAt: string, parse: YearsParser)
    requires t.Linked() && t.SubjectNamesUnique() && forall k :: k in t.questions ==> t.questions[k].years.Serialized?
    ensures var run := Importing(s, snext, Export(t, exportedAt).data, Some("replace"), parse);
      run.t == t.(stats := s.stats) &&
      run.report.subjects == |t.subjects| && run.report.systems == |t.systems| &&
      run.report.marksSections == |t.sections| && run.report.questions == |t.questions| &&
      run.report.files == |t.files| && run.report.folders == |t.folders| && run.report.errors == []
  {
    ReplaceMode();
    ReplaceRestoresTables(s, snext, t, parse);
  }

  // The route's handler, over the store, proved against the functions above.

  /** One subject record: `findUnique` by id, then `update` or `create`; counted when
      written, listed in the errors when refused. */
  method ImportSubject(db: Catalog, r: Record<Subject>, upsert: bool, count0: nat, errors0: seq<string>) returns (count: nat, errors: seq<string>)
    requires db.Valid()
    modifies db
    ensures db.Valid()
    ensures Tally(db.tables, db.nextId, count, errors) ==
      Tallied(Tally(old(db.tables), old(db.nextId), count0, errors0), SubjectWrite(old(db.tables), r, upsert), r.id, "Subject: " + r.row.name)
  {
    ghost var w := SubjectWrite(db.tables, r, upsert);
    var existing := r.id in db.tables.subjects;
    if (existing && !upsert) || !NameFree(db.tables.subjects, r.id, r.row.name) {
      assert w.None?;
      return count0, errors0 + ["Subject: " + r.row.name];
    }
    var row := if existing then r.row.(createdAt := db.tables.subjects[r.id].createdAt) else r.row;
    db.PutSubject(r.id, row);
    assert w == Some(db.tables);
    count, errors := count0 + 1, errors0;
  }

  /** One system record: `findUnique` by id, then `update` or `create`; counted when
      written, listed in the errors when refused. */
  method ImportSystem(db: Catalog, r: Record<System>, upsert: bool, count0: nat, errors0: seq<string>) returns (count: nat, errors: seq<string>)
    requires db.Valid()
    modifies db
    ensures db.Valid()
    ensures Tally(db.tables, db.nextId, count, errors) ==
      Tallied(Tally(old(db.tables), old(db.nextId), count0, errors0), SystemWrite(old(db.tables), r, upsert), r.id, "System: " + r.row.name)
  {
    ghost var w := SystemWrite(db.tables, r, upsert);
    var existing := r.id in db.tables.systems;
    if (existing && !upsert) || r.row.subjectId !in db.tables.subjects {
      assert w.None?;
      return count0, errors0 + ["System: " + r.row.name];
    }
    var row := if existing then r.row.(createdAt := db.tables.systems[r.id].createdAt) else r.row;
    db.PutSystem(r.id, row);
    assert w == Some(db.tables);
    count, errors := count0 + 1, errors0;
  }

  /** One marks section record: `findUnique` by id, then `update` or `create`; counted when
      written, listed in the errors when refused. */
  method ImportSection(db: Catalog, r: Record<MarksSection>, upsert: bool, count0: nat, errors0: seq<string>) returns (count: nat, errors: seq<string>)
    requires db.Valid()
    modifies db
    ensures db.Valid()
    ensures Tally(db.tables, db.nextId, count, errors) ==
      Tallied(Tally(old(db.tables), old(db.nextId), count0, errors0), SectionWrite(old(db.tables), r, upsert), r.id, "MarksSection: " + r.row.labelText)
  {
    ghost var w := SectionWrite(db.tables, r, upsert);
    var existing := r.id in db.tables.sections;
    if (existing && !upsert) || r.row.systemId !in db.tables.systems {
      assert w.None?;
      return count0, errors0 + ["MarksSection: " + r.row.labelText];
    }
    var row := if existing then r.row.(createdAt := db.tables.sections[r.id].createdAt) else r.row;
    db.PutSection(r.id, row);
    assert w == Some(db.tables);
    count, errors := count0 + 1, errors0;
  }

  /** One question record: `findUnique` by id, then `update` or `create`; counted when
      written, listed in the errors when refused. */
  method ImportQuestion(db: Catalog, r: Record<Question>, upsert: bool, count0: nat, errors0: seq<string>) returns (count: nat, errors: seq<string>)
    requires db.Valid()
    modifies db
    ensures db.Valid()
    ensures Tally(db.tables, db.nextId, count, errors) ==
      Tallied(Tally(old(db.tables), old(db.nextId), count0, errors0), QuestionWrite(old(db.tables), r, upsert), r.id, "Question: " + r.row.title)
  {
    ghost var w := QuestionWrite(db.tables, r, upsert);
    var existing := r.id in db.tables.questions;
    if (existing && !upsert) || !QuestionLinked(r.row, db.tables.subjects, db.tables.systems, db.tables.sections) {
      assert w.None?;
      return count0, errors0 + ["Question: " + r.row.title];
    }
    var row := if existing then r.row.(createdAt := db.tables.questions[r.id].createdAt) else r.row;
    db.PutQuestion(r.id, row);
    assert w == Some(db.tables);
    count, errors := count0 + 1, errors0;
  }

  /** One folder record: `findUnique` by id, then `update` or `create`; counted when
      written, listed in the errors when refused. */
  method ImportFolder(db: Catalog, r: Record<Folder>, upsert: bool, count0: nat, errors0: seq<string>) returns (count: nat, errors: seq<string>)
    requires db.Valid()
    modifies db
    ensures db.Valid()
    ensures Tally(db.tables, db.nextId, count, errors) ==
      Tallied(Tally(old(db.tables), old(db.nextId), count0, errors0), FolderWrite(old(db.tables), r, upsert), r.id, "Folder: " + r.row.name)
  {
    ghost var w := FolderWrite(db.tables, r, upsert);
    var existing := r.id in db.tables.folders;
    if (existing && !upsert) || r.row.questionId !in db.tables.questions {
      assert w.None?;
      return count0, errors0 + ["Folder: " + r.row.name];
    }
    var row := if existing then r.row.(createdAt := db.tables.folders[r.id].createdAt) else r.row;
    db.PutFolder(r.id, row);
    assert w == Some(db.tables);
    count, errors := count0 + 1, errors0;
  }

  /** One file record: `findUnique` by id, then `update` or `create`; counted when
      written, listed in the errors when refused. */
  method ImportFile(db: Catalog, r: Record<File>, upsert: bool, count0: nat, errors0: seq<string>) returns (count: nat, errors: seq<string>)
    requires db.Valid()
    modifies db
    ensures db.Valid()
    ensures Tally(db.tables, db.nextId, count, errors) ==
      Tallied(Tally(old(db.tables), old(db.nextId), count0, errors0), FileWrite(old(db.tables), r, upsert), r.id, "File: " + r.row.name)
  {
    ghost var w := FileWrite(db.tables, r, upsert);
    var existing := r.id in db.tables.files;
    if (existing && !upsert) || !FileLinked(r.row, db.tables.questions, db.tables.folders) {
      assert w.None?;
      return count0, errors0 + ["File: " + r.row.name];
    }
    var row := if existing then r.row.(createdAt := db.tables.files[r.id].createdAt) else r.row;
    db.PutFile(r.id, row);
    assert w == Some(db.tables);
    count, errors := count0 + 1, errors0;
  }

  /** The subjects of the document, in order: each counted when written, listed in the
      errors when refused. */
  method ImportSubjects(db: Catalog, rs: seq<Record<Subject>>, upsert: bool, errors0: seq<string>) returns (count: nat, errors: seq<string>)
    requires db.Valid()
    modifies db
    ensures db.Valid()
    ensures Tally(db.tables, db.nextId, count, errors) == ImportedSubjects(Tally(old(db.tables), old(db.nextId), 0, errors0), rs, upsert)
  {
    ghost var a0 := Tally(db.tables, db.nextId, 0, errors0);
    count, errors := 0, errors0;
    for i := 0 to |rs|
      invariant db.Valid()
      invariant Tally(db.tables, db.nextId, count, errors) == ImportedSubjects(a0, rs[..i], upsert)
    {
      var r := rs[i];
      assert rs[..i + 1][..i] == rs[..i] && rs[..i + 1][i] == r;
      count, errors := ImportSubject(db, r, upsert, count, errors);
    }
    assert rs[..|rs|] == rs;
  }

  /** The systems of the document, in order: each counted when written, listed in the
      errors when refused. */
  method ImportSystems(db: Catalog, rs: seq<Record<System>>, upsert: bool, errors0: seq<string>) returns (count: nat, errors: seq<string>)
    requires db.Valid()
    modifies db
    ensures db.Valid()
    ensures Tally(db.tables, db.nextId, count, errors) == ImportedSystems(Tally(old(db.tables), old(db.nextId), 0, errors0), rs, upsert)
  {
    ghost var a0 := Tally(db.tables, db.nextId, 0, errors0);
    count, errors := 0, errors0;
    for i := 0 to |rs|
      invariant db.Valid()
      invariant Tally(db.tables, db.nextId, count, errors) == ImportedSystems(a0, rs[..i], upsert)
    {
      var r := rs[i];
      assert rs[..i + 1][..i] == rs[..i] && rs[..i + 1][i] == r;
      count, errors := ImportSystem(db, r, upsert, count, errors);
    }
    assert rs[..|rs|] == rs;
  }

  /** The marks sections of the document, in order: each counted when written, listed in the
      errors when refused. */
  method ImportSections(db: Catalog, rs: seq<Record<MarksSection>>, upsert: bool, errors0: seq<string>) returns (count: nat, errors: seq<string>)
    requires db.Valid()
    modifies db
    ensures db.Valid()
    ensures Tally(db.tables, db.nextId, count, errors) == ImportedSections(Tally(old(db.tables), old(db.nextId), 0, errors0), rs, upsert)
  {
    ghost var a0 := Tally(db.tables, db.nextId, 0, errors0);
    count, errors := 0, errors0;
    for i := 0 to |rs|
      invariant db.Valid()
      invariant Tally(db.tables, db.nextId, count, errors) == ImportedSections(a0, rs[..i], upsert)
    {
      var r := rs[i];
      assert rs[..i + 1][..i] == rs[..i] && rs[..i + 1][i] == r;
      count, errors := ImportSection(db, r, upsert, count, errors);
    }
    assert rs[..|rs|] == rs;
  }

  /** The questions of the document, in order: each counted when written, listed in the
      errors when refused. */
  method ImportQuestions(db: Catalog, rs: seq<Record<Question>>, upsert: bool, errors0: seq<string>) returns (count: nat, errors: seq<string>)
    requires db.Valid()
    modifies db
    ensures db.Valid()
    ensures Tally(db.tables, db.nextId, count, errors) == ImportedQuestions(Tally(old(db.tables), old(db.nextId), 0, errors0), rs, upsert)
  {
    ghost var a0 := Tally(db.tables, db.nextId, 0, errors0);
    count, errors := 0, errors0;
    for i := 0 to |rs|
      invariant db.Valid()
      invariant Tally(db.tables, db.nextId, count, errors) == ImportedQuestions(a0, rs[..i], upsert)
    {
      var r := rs[i];
      assert rs[..i + 1][..i] == rs[..i] && rs[..i + 1][i] == r;
      count, errors := ImportQuestion(db, r, upsert, count, errors);
    }
    assert rs[..|rs|] == rs;
  }

  /** The folders of the document, in order: each counted when written, listed in the
      errors when refused. */
  method ImportFolders(db: Catalog, rs: seq<Record<Folder>>, upsert: bool, errors0: seq<string>) returns (count: nat, errors: seq<string>)
    requires db.Valid()
    modifies db
    ensures db.Valid()
    ensures Tally(db.tables, db.nextId, count, errors) == ImportedFolders(Tally(old(db.tables), old(db.nextId), 0, errors0), rs, upsert)
  {
    ghost var a0 := Tally(db.tables, db.nextId, 0, errors0);
    count, errors := 0, errors0;
    for i := 0 to |rs|
      invariant db.Valid()
      invariant Tally(db.tables, db.nextId, count, errors) == ImportedFolders(a0, rs[..i], upsert)
    {
      var r := rs[i];
      assert rs[..i + 1][..i] == rs[..i] && rs[..i + 1][i] == r;
      count, errors := ImportFolder(db, r, upsert, count, errors);
    }
    assert rs[..|rs|] == rs;
  }

  /** The files of the document, in order: each counted when written, listed in the
      errors when refused. */
  method ImportFiles(db: Catalog, rs: seq<Record<File>>, upsert: bool, errors0: seq<string>) returns (count: nat, errors: seq<string>)
    requires db.Valid()
    modifies db
    ensures db.Valid()
    ensures Tally(db.tables, db.nextId, count, errors) == ImportedFiles(Tally(old(db.tables), old(db.nextId), 0, errors0), rs, upsert)
  {
    ghost var a0 := Tally(db.tables, db.nextId, 0, errors0);
    count, errors := 0, errors0;
    for i := 0 to |rs|
      invariant db.Valid()
      invariant Tally(db.tables, db.nextId, count, errors) == ImportedFiles(a0, rs[..i], upsert)
    {
      var r := rs[i];
      assert rs[..i + 1][..i] == rs[..i] && rs[..i + 1][i] == r;
      count, errors := ImportFile(db, r, upsert, count, errors);
    }
    assert rs[..|rs|] == rs;
  }

  /** POST: no `data` is refused and changes nothing; otherwise the tables are emptied in
      replace mode, the six collections imported in turn, and the statistics row
      refreshed if it exists. */
  method Post(db: Catalog, data: Option<BackupTables>, mode: Option<string>, parse: YearsParser) returns (r: Response<ImportReport>)
    requires db.Valid()
    modifies db
    ensures db.Valid()
    ensures data.None? ==> r == BadRequest("No backup data provided") && db.tables == old(db.tables) && db.nextId == old(db.nextId)
    ensures data.Some? ==> var run := Importing(old(db.tables), old(db.nextId), data.value, mode, parse);
      r == Ok(run.report) && db.tables == run.t.RefreshedIfPresent() && db.nextId == run.next
  {
    if data.None? {
      return BadRequest("No backup data provided");
    }
    var d := data.value;
    var upsert := Upserts(mode);
    if Clears(mode) {
      PruneLinked(Cleared(db.tables));
      db.Remove(Cleared(db.tables));
    }
    var subjects, errors := ImportSubjects(db, d.subjects, upsert, []);
    var systems, errors2 := ImportSystems(db, d.systems, upsert, errors);
    var sections, errors3 := ImportSections(db, d.marksSections, upsert, errors2);
    var questions, errors4 := ImportQuestions(db, QuestionRows(d.questions, parse), upsert, errors3);
    var folders, errors5 := ImportFolders(db, d.folders, upsert, errors4);
    var files, errors6 := ImportFiles(db, d.files, upsert, errors5);
    db.RefreshStatisticsIfPresent();
    r := Ok(ImportReport(subjects, systems, sections, questions, files, folders, errors6));
  }
}
