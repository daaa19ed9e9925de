/** The files route: uploads attached to a question (and optionally filed in one of its
    folders), their metadata, their removal, and their listing. */
module Files {
  import opened Common
  import opened Text
  import opened Ordering
  import opened Scoring
  import opened FileTypes
  import opened Store

  /** The directory uploads are written to. */
  const UploadDir := "/home/z/my-project/download/question-files"

  /** The part of an upload request the handler reads from the file itself. */
  datatype Upload = Upload(originalName: string, size: nat)

  /** Where an upload is stored: `<dir>/<timestamp>-<random>.<extension>`, where `random`
      stands for the base-36 digits drawn from the random number generator. */
  function StoredPath(timestamp: nat, random: string, originalName: string): string {
    UploadDir + "/" + ShowNat(timestamp) + "-" + random + "." + DiskExtension(originalName)
  }

  /** The stored copy keeps the extension of the uploaded name as written (case
      included), or gets "bin" when that name ends without one. */
  lemma StoredPathExtension(timestamp: nat, random: string, originalName: string)
    ensures LastSegment(StoredPath(timestamp, random, originalName)) == DiskExtension(originalName)
    ensures LastSegment(originalName) == [] ==> LastSegment(StoredPath(timestamp, random, originalName)) == "bin"
  {
    var base := UploadDir + "/" + ShowNat(timestamp) + "-" + random;
    assert StoredPath(timestamp, random, originalName) == base + "." + DiskExtension(originalName);
    LastSegmentAfterDot(base, DiskExtension(originalName));
  }

  /** The row an upload creates: the given name if non-empty, else the uploaded one; the
      type from the uploaded name; the description trimmed, or null when blank. */
  function NewFile(upload: Upload, customName: Option<string>, description: Option<string>, questionId: Id,
                   folderId: Option<Id>, timestamp: nat, random: string): (f: File)
    ensures Truthy(customName) ==> f.name == customName.value
    ensures !Truthy(customName) ==> f.name == upload.originalName
    ensures f.fileType == GetFileType(upload.originalName)
    ensures f.description.None? <==> IsBlank(description)
    ensures f.questionId == questionId && f.folderId == folderId && f.size == upload.size
    ensures LastSegment(f.url) == DiskExtension(upload.originalName)
  {
    StoredPathExtension(timestamp, random, upload.originalName);
    File(OrDefault(customName, upload.originalName), GetFileType(upload.originalName),
         StoredPath(timestamp, random, upload.originalName), upload.size, TrimOrNull(description),
         questionId, folderId, timestamp)
  }

  /** The type is read from the uploaded name, never from the name the user gives it. */
  lemma TypeIgnoresCustomName(upload: Upload, n1: Option<string>, n2: Option<string>, description: Option<string>,
                              questionId: Id, folderId: Option<Id>, timestamp: nat, random: string)
    ensures NewFile(upload, n1, description, questionId, folderId, timestamp, random).fileType ==
            NewFile(upload, n2, description, questionId, folderId, timestamp, random).fileType
  {
  }

  /** POST: no file, or no question id, is refused; an unknown question, or a folder id
      that names no folder, is not found. Otherwise the file is stored, its row written,
      and the statistics refreshed. The folder is not checked against the question. An
      empty folder id reads as none. */
  method Create(db: Catalog, upload: Option<Upload>, questionId: Option<Id>, folderId: Option<Id>,
                description: Option<string>, customName: Option<string>, timestamp: nat, random: string)
    returns (r: Response<Id>)
    requires db.Valid()
    modifies db
    ensures db.Valid()
    ensures upload.None? ==> r == BadRequest("No file provided")
    ensures upload.Some? && questionId.None? ==> r == BadRequest("Question ID is required")
    ensures upload.Some? && questionId.Some? && questionId.value !in old(db.tables.questions) ==>
      r == NotFound("Question not found")
    ensures upload.Some? && questionId.Some? && questionId.value in old(db.tables.questions) &&
            folderId.Some? && folderId.value !in old(db.tables.folders) ==>
      r == NotFound("Folder not found")
    ensures !r.Ok? ==> db.tables == old(db.tables) && db.nextId == old(db.nextId)
    ensures upload.Some? && questionId.Some? && questionId.value in old(db.tables.questions) &&
            (folderId.Some? ==> folderId.value in old(db.tables.folders)) ==>
      r == Ok(old(db.nextId)) && old(db.nextId) !in old(db.tables.files) &&
      db.tables == old(db.tables).(files := old(db.tables.files)[old(db.nextId) :=
        NewFile(upload.value, customName, description, questionId.value, folderId, timestamp, random)]).Refreshed()
  {
    if upload.None? {
      return BadRequest("No file provided");
    }
    if questionId.None? {
      return BadRequest("Question ID is required");
    }
    if questionId.value !in db.tables.questions {
      return NotFound("Question not found");
    }
    if folderId.Some? && folderId.value !in db.tables.folders {
      return NotFound("Folder not found");
    }
    var f := NewFile(upload.value, customName, description, questionId.value, folderId, timestamp, random);
    var id := db.NewId();
    db.PutFile(id, f);
    db.RefreshStatistics();
    r := Ok(id);
  }

  /** The `folderId` field of a PUT: absent keeps the folder, null takes the file out of
      its folder, an id moves it there. */
  datatype FolderChange = Keep | Detach | MoveTo(folderId: Id)

  function NewFolder(change: FolderChange, current: Option<Id>): (r: Option<Id>)
    ensures change.Keep? ==> r == current
    ensures change.Detach? ==> r.None?
    ensures change.MoveTo? ==> r == Some(change.folderId)
  {
    match change
    case Keep => current
    case Detach => None
    case MoveTo(k) => Some(k)
  }

  /** The row after a PUT: name and description trimmed when given, else kept. */
  function UpdatedFile(f: File, name: Option<string>, description: Option<string>, change: FolderChange): (g: File)
    ensures g.name == TrimOr(name, f.name) && g.description == TrimOrKeep(description, f.description)
    ensures g.folderId == NewFolder(change, f.folderId)
    ensures g.fileType == f.fileType && g.url == f.url && g.size == f.size
    ensures g.questionId == f.questionId && g.createdAt == f.createdAt
  {
    f.(name := TrimOr(name, f.name), description := TrimOrKeep(description, f.description),
       folderId := NewFolder(change, f.folderId))
  }

  /** A PUT with no field given leaves the row as it is. */
  lemma EmptyUpdateKeepsFile(f: File)
    ensures UpdatedFile(f, None, None, Keep) == f
  {
  }

  /** A PUT never changes what was stored: the copy on disk, its type, size and question. */
  lemma UpdateKeepsUpload(f: File, name: Option<string>, description: Option<string>, change: FolderChange)
    ensures var g := UpdatedFile(f, name, description, change);
      g.(name := f.name, description := f.description, folderId := f.folderId) == f
  {
  }

  /** PUT: a missing id is refused; an unknown file, or a folder id that names no folder,
      is not found; otherwise the row is rewritten. Statistics are not touched. */
  method Update(db: Catalog, id: Option<Id>, name: Option<string>, description: Option<string>, change: FolderChange)
    returns (r: Response<Id>)
    requires db.Valid()
    modifies db
    ensures db.Valid() && db.nextId == old(db.nextId)
    ensures id.None? ==> r == BadRequest("File ID is required")
    ensures id.Some? && id.value !in old(db.tables.files) ==> r == NotFound("File not found")
    ensures id.Some? && id.value in old(db.tables.files) && change.MoveTo? && change.folderId !in old(db.tables.folders) ==>
      r == NotFound("Folder not found")
    ensures id.Some? && id.value in old(db.tables.files) && (change.MoveTo? ==> change.folderId in old(db.tables.folders)) ==>
      r == Ok(id.value) &&
      db.tables == old(db.tables).(files := old(db.tables.files)[id.value :=
        UpdatedFile(old(db.tables.files)[id.value], name, description, change)])
    ensures !r.Ok? ==> db.tables == old(db.tables)
  {
    if id.None? {
      return BadRequest("File ID is required");
    }
    if id.value !in db.tables.files {
      return NotFound("File not found");
    }
    if change.MoveTo? && change.folderId !in db.tables.folders {
      return NotFound("Folder not found");
    }
    var existing := db.tables.files[id.value];
    assert FileLinked(existing, db.tables.questions, db.tables.folders);
    db.PutFile(id.value, UpdatedFile(existing, name, description, change));
    r := Ok(id.value);
  }

  /** Taking a file row out of linked tables cascades to nothing else. */
  lemma RemoveFileCascadesNothing(t: Tables, id: Id)
    requires t.Linked()
    ensures Prune(t.(files := t.files - {id})) == t.(files := t.files - {id})
  {
    PruneLinked(t.(files := t.files - {id}));
  }

  /** DELETE: a missing id is refused, an unknown one is not found; otherwise the row
      goes and the statistics are refreshed, whether or not the copy on disk could be
      removed. */
  method Delete(db: Catalog, id: Option<Id>) returns (r: Response<Id>)
    requires db.Valid()
    modifies db
    ensures db.Valid() && db.nextId == old(db.nextId)
    ensures id.None? ==> r == BadRequest("File ID is required")
    ensures id.Some? && id.value !in old(db.tables.files) ==> r == NotFound("File not found")
    ensures id.Some? && id.value in old(db.tables.files) ==>
      r == Ok(id.value) && db.tables == old(db.tables).(files := old(db.tables.files) - {id.value}).Refreshed()
    ensures !r.Ok? ==> db.tables == old(db.tables)
  {
    if id.None? {
      return BadRequest("File ID is required");
    }
    if id.value !in db.tables.files {
      return NotFound("File not found");
    }
    RemoveFileCascadesNothing(db.tables, id.value);
    db.Remove(db.tables.(files := db.tables.files - {id.value}));
    db.RefreshStatistics();
    r := Ok(id.value);
  }

  /** The `folderId` query parameter: absent lists every file, the text "null" the files
      in no folder, an id the files of that folder. */
  datatype FolderFilter = AnyFolder | NoFolder | InFolder(folderId: Id)

  /** Selects the files of the listing. */
  function Listed(questionId: Option<Id>, folder: FolderFilter): File -> bool {
    (f: File) =>
      (questionId.None? || f.questionId == questionId.value) &&
      match folder
      case AnyFolder => true
      case NoFolder => f.folderId.None?
      case InFolder(k) => f.folderId == Some(k)
  }

  function CreatedAt(f: File): real {
    f.createdAt as real
  }

  /** The files of the listing, newest first. */
  function Newest(t: Tables, questionId: Option<Id>, folder: FolderFilter): seq<Id> {
    Items(Query(t.files, Listed(questionId, folder), NumKey(CreatedAt), [Desc]))
  }

  /** The listing holds each file matching the filters once, newest first. */
  lemma NewestOrder(t: Tables, questionId: Option<Id>, folder: FolderFilter)
    ensures forall k :: k in Newest(t, questionId, folder) <==> k in t.files && Listed(questionId, folder)(t.files[k])
    ensures forall i, j :: 0 <= i < j < |Newest(t, questionId, folder)| ==>
      Newest(t, questionId, folder)[i] in t.files && Newest(t, questionId, folder)[j] in t.files &&
      Newest(t, questionId, folder)[i] != Newest(t, questionId, folder)[j] &&
      CreatedAt(t.files[Newest(t, questionId, folder)[i]]) >= CreatedAt(t.files[Newest(t, questionId, folder)[j]])
  {
    ItemsByNumber(t.files, Listed(questionId, folder), CreatedAt, Desc, Newest(t, questionId, folder));
  }

  /** GET: with an id, that file (or not found); without one, the files matching the
      filters, newest first. */
  function Get(t: Tables, id: Option<Id>, questionId: Option<Id>, folder: FolderFilter): (r: Response<seq<Id>>)
    ensures id.Some? && id.value !in t.files ==> r == NotFound("File not found")
    ensures id.Some? && id.value in t.files ==> r == Ok([id.value])
    ensures id.None? ==> r.Ok? && forall k :: k in r.value ==> k in t.files && Listed(questionId, folder)(t.files[k])
  {
    if id.Some? then
      if id.value in t.files then Ok([id.value]) else NotFound("File not found")
    else
      NewestOrder(t, questionId, folder);
      Ok(Newest(t, questionId, folder))
  }
}
