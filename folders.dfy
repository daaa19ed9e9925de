/** The folders route: named folders that group the files of one question, their listing
    by name, and create, rename and delete of a folder. */
module Folders {
  import opened Common
  import opened Text
  import opened Ordering
  import opened Store

  /** Selects the folders of `questionId` named `name`. */
  function WithName(name: string, questionId: Id): Folder -> bool {
    (f: Folder) => f.name == name && f.questionId == questionId
  }

  /** Some folder of `questionId` is named `name`. */
  predicate NameTaken(folders: map<Id, Folder>, name: string, questionId: Id) {
    exists k :: k in folders && folders[k].name == name && folders[k].questionId == questionId
  }

  /** `findFirst` finds a folder exactly when the name is taken. */
  lemma FoundIffTaken(folders: map<Id, Folder>, name: string, questionId: Id)
    ensures FindFirst(folders, WithName(name, questionId)).Some? <==> NameTaken(folders, name, questionId)
  {
    if NameTaken(folders, name, questionId) {
      var k :| k in folders && folders[k].name == name && folders[k].questionId == questionId;
      assert WithName(name, questionId)(folders[k]);
    }
  }

  /** POST: a blank name is refused, so is a missing question id; an unknown question is
      not found; a (trimmed) name the question already has is refused. Otherwise the folder
      is stored under the trimmed name. Statistics are not touched. */
  method Create(db: Catalog, name: Option<string>, questionId: Option<Id>, now: int) returns (r: Response<Id>)
    requires db.Valid()
    modifies db
    ensures db.Valid()
    ensures IsBlank(name) ==> r == BadRequest("Folder name is required")
    ensures !IsBlank(name) && questionId.None? ==> r == BadRequest("Question ID is required")
    ensures !IsBlank(name) && questionId.Some? && questionId.value !in old(db.tables.questions) ==>
      r == NotFound("Question not found")
    ensures !IsBlank(name) && questionId.Some? && questionId.value in old(db.tables.questions) &&
            NameTaken(old(db.tables.folders), Trim(name.value), questionId.value) ==>
      r == BadRequest("Folder with this name already exists")
    ensures !r.Ok? ==> db.tables == old(db.tables) && db.nextId == old(db.nextId)
    ensures !IsBlank(name) && questionId.Some? && questionId.value in old(db.tables.questions) &&
            !NameTaken(old(db.tables.folders), Trim(name.value), questionId.value) ==>
      r == Ok(old(db.nextId)) && old(db.nextId) !in old(db.tables.folders) &&
      db.tables == old(db.tables).(folders := old(db.tables.folders)[old(db.nextId) := Folder(Trim(name.value), questionId.value, now)])
  {
    if IsBlank(name) {
      return BadRequest("Folder name is required");
    }
    if questionId.None? {
      return BadRequest("Question ID is required");
    }
    if questionId.value !in db.tables.questions {
      return NotFound("Question not found");
    }
    FoundIffTaken(db.tables.folders, Trim(name.value), questionId.value);
    if FindFirst(db.tables.folders, WithName(Trim(name.value), questionId.value)).Some? {
      return BadRequest("Folder with this name already exists");
    }
    var id := db.NewId();
    db.PutFolder(id, Folder(Trim(name.value), questionId.value, now));
    r := Ok(id);
  }

  /** A create never gives one question two folders with the same name, and the name it
      stores has no white space at either end. */
  lemma CreateKeepsNamesUnique(t: Tables, id: Id, name: string, questionId: Id, now: int)
    requires t.FolderNamesUnique() && id !in t.folders
    requires !NameTaken(t.folders, Trim(name), questionId)
    ensures t.(folders := t.folders[id := Folder(Trim(name), questionId, now)]).FolderNamesUnique()
    ensures var s := Trim(name); s == [] || (!IsSpace(s[0]) && !IsSpace(s[|s| - 1]))
  {
    AddKeepsNamesUnique(t, id, Folder(Trim(name), questionId, now));
    TrimIdempotent(name);
  }

  /** A folder whose name its question does not use yet keeps the names unique. */
  lemma AddKeepsNamesUnique(t: Tables, id: Id, x: Folder)
    requires t.FolderNamesUnique() && id !in t.folders
    requires !NameTaken(t.folders, x.name, x.questionId)
    ensures t.(folders := t.folders[id := x]).FolderNamesUnique()
  {
  }

  /** The check of PUT: it runs only when a non-empty name is given that differs (before
      trimming) from the stored one, and refuses a trimmed name that any folder of the same
      question has, the renamed folder included. */
  predicate RenameRefused(folders: map<Id, Folder>, id: Id, name: Option<string>)
    requires id in folders
  {
    Truthy(name) && name.value != folders[id].name && NameTaken(folders, Trim(name.value), folders[id].questionId)
  }

  /** PUT: a missing id is refused, an unknown one is not found, a name in use is refused;
      otherwise the folder takes the trimmed name given, or keeps its own. */
  method Update(db: Catalog, id: Option<Id>, name: Option<string>) returns (r: Response<Id>)
    requires db.Valid()
    modifies db
    ensures db.Valid() && db.nextId == old(db.nextId)
    ensures id.None? ==> r == BadRequest("Folder ID is required")
    ensures id.Some? && id.value !in old(db.tables.folders) ==> r == NotFound("Folder not found")
    ensures id.Some? && id.value in old(db.tables.folders) && RenameRefused(old(db.tables.folders), id.value, name) ==>
      r == BadRequest("Folder with this name already exists")
    ensures id.Some? && id.value in old(db.tables.folders) && !RenameRefused(old(db.tables.folders), id.value, name) ==>
      var existing := old(db.tables.folders)[id.value];
      r == Ok(id.value) &&
      db.tables == old(db.tables).(folders := old(db.tables.folders)[id.value := existing.(name := TrimOr(name, existing.name))])
    ensures !r.Ok? ==> db.tables == old(db.tables)
  {
    if id.None? {
      return BadRequest("Folder ID is required");
    }
    if id.value !in db.tables.folders {
      return NotFound("Folder not found");
    }
    var existing := db.tables.folders[id.value];
    if Truthy(name) && name.value != existing.name {
      FoundIffTaken(db.tables.folders, Trim(name.value), existing.questionId);
      if FindFirst(db.tables.folders, WithName(Trim(name.value), existing.questionId)).Some? {
        return BadRequest("Folder with this name already exists");
      }
    }
    db.PutFolder(id.value, existing.(name := TrimOr(name, existing.name)));
    r := Ok(id.value);
  }

  /** A rename the check lets through keeps the names unique, and so does an update that
      leaves the stored name as it is. */
  lemma UpdateKeepsNamesUnique(t: Tables, id: Id, name: Option<string>)
    requires t.FolderNamesUnique() && id in t.folders
    requires !RenameRefused(t.folders, id, name)
    requires (Truthy(name) && name.value != t.folders[id].name) || TrimOr(name, t.folders[id].name) == t.folders[id].name
    ensures var f := t.folders[id]; t.(folders := t.folders[id := f.(name := TrimOr(name, f.name))]).FolderNamesUnique()
  {
    var f := t.folders[id];
    var newName := TrimOr(name, f.name);
    var u := t.folders[id := f.(name := newName)];
    if newName == f.name {
      assert f.(name := newName) == f;
      assert u == t.folders;
    } else {
      assert !NameTaken(t.folders, newName, f.questionId);
      forall a, b | a in u && b in u && u[a].questionId == u[b].questionId && u[a].name == u[b].name
        ensures a == b
      {
        if a != id && b != id {
          assert t.folders[a] == u[a] && t.folders[b] == u[b];
        }
      }
    }
  }

  /** The check counts the folder itself: renaming a folder to its own name with a space
      in front is refused, though the trimmed name would change nothing. */
  lemma PaddedOwnNameRefused(n: string, questionId: Id)
    requires n != [] && !IsSpace(n[0]) && !IsSpace(n[|n| - 1])
    ensures RenameRefused(map[0 := Folder(n, questionId, 0)], 0, Some(" " + n))
  {
    var folders := map[0 := Folder(n, questionId, 0)];
    assert (" " + n)[1..] == n;
    assert TrimStart(" " + n) == TrimStart(n) == n;
    assert Trim(" " + n) == n;
    assert " " + n != n by {
      assert |" " + n| != |n|;
    }
    assert folders[0].name == n && folders[0].questionId == questionId;
  }

  /** The files of a folder, taken out of it (`updateMany({ where: { folderId }, data: {
      folderId: null } })`). */
  function Unlinked(files: map<Id, File>, folderId: Id): (r: map<Id, File>)
    ensures r.Keys == files.Keys
    ensures forall k :: k in r ==> r[k] == if files[k].folderId == Some(folderId) then files[k].(folderId := None) else files[k]
  {
    map k | k in files :: if files[k].folderId == Some(folderId) then files[k].(folderId := None) else files[k]
  }

  /** On valid tables, deleting a folder through the cascade takes exactly that folder
      out and unfiles exactly its files: what the route does by hand. */
  lemma DeleteIsUnlinkThenDelete(t: Tables, id: Id)
    requires t.Linked() && id in t.folders
    ensures Prune(t.(folders := t.folders - {id})) == t.(folders := t.folders - {id}, files := Unlinked(t.files, id))
  {
    var u := t.(folders := t.folders - {id});
    LiveSystemsAll(u.systems, u.subjects);
    LiveSectionsAll(u.sections, u.systems);
    LiveQuestionsAll(u.questions, u.subjects, u.systems, u.sections);
    LiveFoldersAll(u.folders, u.questions);
    var files := LiveFiles(u.files, u.questions, u.folders);
    forall k | k in t.files ensures k in files && files[k] == Unlinked(t.files, id)[k] {
      assert FileLinked(t.files[k], t.questions, t.folders);
    }
    assert files == Unlinked(t.files, id);
  }

  /** DELETE: a missing id is refused, an unknown one is not found; otherwise the folder's
      files are taken out of it and the folder goes. Statistics are not touched. */
  method Delete(db: Catalog, id: Option<Id>) returns (r: Response<Id>)
    requires db.Valid()
    modifies db
    ensures db.Valid() && db.nextId == old(db.nextId)
    ensures id.None? ==> r == BadRequest("Folder ID is required")
    ensures id.Some? && id.value !in old(db.tables.folders) ==> r == NotFound("Folder not found")
    ensures id.Some? && id.value in old(db.tables.folders) ==>
      r == Ok(id.value) &&
      db.tables == old(db.tables).(folders := old(db.tables.folders) - {id.value}, files := Unlinked(old(db.tables.files), id.value))
    ensures !r.Ok? ==> db.tables == old(db.tables)
  {
    if id.None? {
      return BadRequest("Folder ID is required");
    }
    if id.value !in db.tables.folders {
      return NotFound("Folder not found");
    }
    DeleteIsUnlinkThenDelete(db.tables, id.value);
    db.Remove(db.tables.(folders := db.tables.folders - {id.value}));
    r := Ok(id.value);
  }

  function Name(f: Folder): string {
    f.name
  }

  /** Selects the folders of one question, or all of them. */
  function OfQuestion(questionId: Option<Id>): Folder -> bool {
    (f: Folder) => questionId.None? || f.questionId == questionId.value
  }

  /** The folders of a question (or all folders), by name. */
  function ByName(t: Tables, questionId: Option<Id>): seq<Id> {
    Items(Query(t.folders, OfQuestion(questionId), TextKey(Name), [Asc]))
  }

  /** The listing holds each folder of the question (or each folder) once. */
  lemma ByNameMembers(t: Tables, questionId: Option<Id>)
    ensures forall k :: k in ByName(t, questionId) <==> k in t.folders && (questionId.None? || t.folders[k].questionId == questionId.value)
  {
    ItemsByText(t.folders, OfQuestion(questionId), Name, Asc, ByName(t, questionId));
  }

  /** The listing shows the names in character-code order, no folder twice. */
  lemma ByNameOrder(t: Tables, questionId: Option<Id>)
    ensures forall i, j :: 0 <= i < j < |ByName(t, questionId)| ==>
      ByName(t, questionId)[i] in t.folders && ByName(t, questionId)[j] in t.folders &&
      ByName(t, questionId)[i] != ByName(t, questionId)[j] &&
      StrCmp(Name(t.folders[ByName(t, questionId)[i]]), Name(t.folders[ByName(t, questionId)[j]])) <= 0
  {
    ItemsByText(t.folders, OfQuestion(questionId), Name, Asc, ByName(t, questionId));
  }

  /** A folder with its files. */
  datatype FolderDetail = FolderDetail(id: Id, folder: Folder, files: set<Id>, fileCount: nat)

  function FilesIn(t: Tables, id: Id): set<Id> {
    set k | k in t.files && t.files[k].folderId == Some(id)
  }

  function Detail(t: Tables, id: Id): FolderDetail
    requires id in t.folders
  {
    FolderDetail(id, t.folders[id], FilesIn(t, id), |FilesIn(t, id)|)
  }

  /** GET: with an id, that folder (or not found); without one, the folders of the given
      question (or all), by name. */
  function Get(t: Tables, questionId: Option<Id>, id: Option<Id>): Response<seq<FolderDetail>> {
    if id.Some? then
      if id.value in t.folders then Ok([Detail(t, id.value)]) else NotFound("Folder not found")
    else
      Ok(Details(t, ByName(t, questionId)))
  }

  function Details(t: Tables, ids: seq<Id>): seq<FolderDetail> {
    if ids == [] then []
    else if ids[0] in t.folders then [Detail(t, ids[0])] + Details(t, ids[1..])
    else Details(t, ids[1..])
  }
}
