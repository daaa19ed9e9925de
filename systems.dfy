/** The systems route: the systems of a subject (body systems, chapters), their listing
    in display order, and create, update and delete of a system. */
module Systems {
  import opened Common
  import opened Text
  import opened Ordering
  import opened Store
  import MarksSections

  /** Selects the systems of `subjectId` named `name`. */
  function WithName(name: string, subjectId: Id): System -> bool {
    (s: System) => s.name == name && s.subjectId == subjectId
  }

  /** Some system of `subjectId` is named `name`. */
  predicate NameInSubject(systems: map<Id, System>, name: string, subjectId: Id) {
    exists k :: k in systems && systems[k].name == name && systems[k].subjectId == subjectId
  }

  /** `aggregate({ where: { subjectId }, _max: { order: true } })`: the largest order of
      the subject's systems, none when it has no systems. */
  function MaxOrder(systems: map<Id, System>, subjectId: Id): (r: Option<int>)
    ensures r.None? <==> forall k :: k in systems ==> systems[k].subjectId != subjectId
    ensures r.Some? ==> exists k :: k in systems && systems[k].subjectId == subjectId && systems[k].order == r.value
    ensures r.Some? ==> forall k :: k in systems && systems[k].subjectId == subjectId ==> systems[k].order <= r.value
    decreases |systems|
  {
    if systems == map[] then None
    else
      var k := MinOf(systems.Keys);
      var others := systems - {k};
      assert forall j :: j in systems ==> j == k || (j in others && others[j] == systems[j]);
      var rest := MaxOrder(others, subjectId);
      if systems[k].subjectId != subjectId then rest
      else if rest.Some? && rest.value >= systems[k].order then rest
      else Some(systems[k].order)
  }

  /** `order ?? (max ?? -1) + 1`: the order given, else one past the subject's last
      system, which is 0 for its first. */
  function NextOrder(systems: map<Id, System>, order: Option<int>, subjectId: Id): (r: int)
    ensures order.Some? ==> r == order.value
    ensures order.None? ==> forall k :: k in systems && systems[k].subjectId == subjectId ==> systems[k].order < r
    ensures order.None? && (forall k :: k in systems ==> systems[k].subjectId != subjectId) ==> r == 0
    ensures order.None? && (exists k :: k in systems && systems[k].subjectId == subjectId) ==>
      exists k :: k in systems && systems[k].subjectId == subjectId && systems[k].order == r - 1
  {
    if order.Some? then order.value else MaxOrder(systems, subjectId).GetOr(-1) + 1
  }

  /** The system a create stores: the trimmed name, the trimmed description or none, and
      the order `NextOrder` gives. */
  function NewSystem(systems: map<Id, System>, name: string, description: Option<string>, order: Option<int>, subjectId: Id, now: int): System {
    System(Trim(name), TrimOrNull(description), NextOrder(systems, order, subjectId), subjectId, now)
  }

  /** POST: a blank name is refused, so is a missing subject id; an unknown subject is not
      found; a (trimmed) name the subject already has is refused. Otherwise the system is
      stored and the statistics refreshed. */
  method Create(db: Catalog, name: Option<string>, description: Option<string>, order: Option<int>, subjectId: Option<Id>, now: int)
    returns (r: Response<Id>)
    requires db.Valid()
    modifies db
    ensures db.Valid()
    ensures IsBlank(name) ==> r == BadRequest("System name is required")
    ensures !IsBlank(name) && subjectId.None? ==> r == BadRequest("Subject ID is required")
    ensures !IsBlank(name) && subjectId.Some? && subjectId.value !in old(db.tables.subjects) ==>
      r == NotFound("Subject not found")
    ensures !IsBlank(name) && subjectId.Some? && subjectId.value in old(db.tables.subjects) &&
            NameInSubject(old(db.tables.systems), Trim(name.value), subjectId.value) ==>
      r == BadRequest("System with this name already exists in this subject")
    ensures !r.Ok? ==> db.tables == old(db.tables) && db.nextId == old(db.nextId)
    ensures !IsBlank(name) && subjectId.Some? && subjectId.value in old(db.tables.subjects) &&
            !NameInSubject(old(db.tables.systems), Trim(name.value), subjectId.value) ==>
      r == Ok(old(db.nextId)) && old(db.nextId) !in old(db.tables.systems) &&
      db.tables == old(db.tables).(systems := old(db.tables.systems)[old(db.nextId) :=
        NewSystem(old(db.tables.systems), name.value, description, order, subjectId.value, now)]).Refreshed()
  {
    if IsBlank(name) {
      return BadRequest("System name is required");
    }
    if subjectId.None? {
      return BadRequest("Subject ID is required");
    }
    if subjectId.value !in db.tables.subjects {
      return NotFound("Subject not found");
    }
    if FindFirst(db.tables.systems, WithName(Trim(name.value), subjectId.value)).Some? {
      return BadRequest("System with this name already exists in this subject");
    }
    var x := NewSystem(db.tables.systems, name.value, description, order, subjectId.value, now);
    var id := db.NewId();
    db.PutSystem(id, x);
    db.RefreshStatistics();
    r := Ok(id);
  }

  /** A create never gives one subject two systems with the same name. */
  lemma CreateKeepsNamesUnique(t: Tables, id: Id, x: System)
    requires t.SystemNamesUnique() && id !in t.systems
    requires !NameInSubject(t.systems, x.name, x.subjectId)
    ensures t.(systems := t.systems[id := x]).SystemNamesUnique()
  {
  }

  /** The clash check of PUT: it runs only when a non-empty name is given that differs
      (before trimming) from the stored one; the trimmed name is looked up in the target
      subject, and the first system found counts unless it is the one being updated. */
  predicate NameClash(systems: map<Id, System>, id: Id, name: Option<string>, target: Id)
    requires id in systems
  {
    Truthy(name) && name.value != systems[id].name &&
    var found := FindFirst(systems, WithName(Trim(name.value), target));
    found.Some? && found.value != id
  }

  /** While names are unique within each subject, the check refuses exactly the names that
      another system of the target subject has. */
  lemma NameClashIsTaken(systems: map<Id, System>, id: Id, name: Option<string>, target: Id)
    requires id in systems
    requires Tables(map[], systems, map[], map[], map[], map[], None).SystemNamesUnique()
    ensures NameClash(systems, id, name, target) <==>
      Truthy(name) && name.value != systems[id].name &&
      exists k :: k in systems && k != id && systems[k].name == Trim(name.value) && systems[k].subjectId == target
  {
    if Truthy(name) && name.value != systems[id].name {
      var keep := WithName(Trim(name.value), target);
      var found := FindFirst(systems, keep);
      if k :| k in systems && k != id && systems[k].name == Trim(name.value) && systems[k].subjectId == target {
        assert keep(systems[k]);
        assert found.value == k;
      }
    }
  }

  /** The system an update stores: each field given replaces the stored one (the name and
      description trimmed), and the system moves to the target subject. */
  function UpdatedSystem(s: System, name: Option<string>, description: Option<string>, order: Option<int>, target: Id): System {
    System(TrimOr(name, s.name), TrimOrKeep(description, s.description), order.GetOr(s.order), target, s.createdAt)
  }

  /** PUT: a missing id is refused, an unknown one is not found, a clashing name is
      refused; a target subject that does not exist is refused by the database. Otherwise
      the given fields replace the stored ones. Statistics are not touched. */
  method Update(db: Catalog, id: Option<Id>, name: Option<string>, description: Option<string>, order: Option<int>, subjectId: Option<Id>)
    returns (r: Response<Id>)
    requires db.Valid()
    modifies db
    ensures db.Valid() && db.nextId == old(db.nextId)
    ensures id.None? ==> r == BadRequest("System ID is required")
    ensures id.Some? && id.value !in old(db.tables.systems) ==> r == NotFound("System not found")
    ensures id.Some? && id.value in old(db.tables.systems) ==>
      var existing := old(db.tables.systems)[id.value];
      var target := subjectId.GetOr(existing.subjectId);
      (NameClash(old(db.tables.systems), id.value, name, target) ==>
        r == BadRequest("System with this name already exists in this subject")) &&
      (!NameClash(old(db.tables.systems), id.value, name, target) && target !in old(db.tables.subjects) ==>
        r == ServerError("Failed to update system")) &&
      (!NameClash(old(db.tables.systems), id.value, name, target) && target in old(db.tables.subjects) ==>
        r == Ok(id.value) &&
        db.tables == old(db.tables).(systems := old(db.tables.systems)[id.value := UpdatedSystem(existing, name, description, order, target)]))
    ensures !r.Ok? ==> db.tables == old(db.tables)
  {
    if id.None? {
      return BadRequest("System ID is required");
    }
    if id.value !in db.tables.systems {
      return NotFound("System not found");
    }
    var existing := db.tables.systems[id.value];
    var target := subjectId.GetOr(existing.subjectId);
    if NameClash(db.tables.systems, id.value, name, target) {
      return BadRequest("System with this name already exists in this subject");
    }
    if target !in db.tables.subjects {
      return ServerError("Failed to update system");
    }
    db.PutSystem(id.value, UpdatedSystem(existing, name, description, order, target));
    r := Ok(id.value);
  }

  /** An update keeps the names unique when its check ran, or when the system keeps both its
      name and its subject. */
  lemma UpdateKeepsNamesUnique(t: Tables, id: Id, name: Option<string>, description: Option<string>, order: Option<int>, target: Id)
    requires t.SystemNamesUnique() && id in t.systems
    requires !NameClash(t.systems, id, name, target)
    requires (Truthy(name) && name.value != t.systems[id].name) ||
             (target == t.systems[id].subjectId && TrimOr(name, t.systems[id].name) == t.systems[id].name)
    ensures t.(systems := t.systems[id := UpdatedSystem(t.systems[id], name, description, order, target)]).SystemNamesUnique()
  {
    var s := UpdatedSystem(t.systems[id], name, description, order, target);
    forall k | k in t.systems && k != id
      ensures !(t.systems[k].name == s.name && t.systems[k].subjectId == s.subjectId)
    {
      UpdatedNameFree(t, id, name, description, order, target, k);
    }
    PutKeepsNamesUnique(t, id, s);
  }

  /** Replacing a system by one whose name no other system of its subject has keeps the
      names unique. */
  lemma PutKeepsNamesUnique(t: Tables, id: Id, s: System)
    requires t.SystemNamesUnique() && id in t.systems
    requires forall k :: k in t.systems && k != id ==> !(t.systems[k].name == s.name && t.systems[k].subjectId == s.subjectId)
    ensures t.(systems := t.systems[id := s]).SystemNamesUnique()
  {
    var u := t.systems[id := s];
    forall a, b | a in u && b in u && u[a].subjectId == u[b].subjectId && u[a].name == u[b].name
      ensures a == b
    {
      if a != id && b != id {
        assert t.systems[a] == u[a] && t.systems[b] == u[b];
      }
    }
  }

  /** Under the conditions of `UpdateKeepsNamesUnique`, no other system of the target
      subject has the updated system's name. */
  lemma UpdatedNameFree(t: Tables, id: Id, name: Option<string>, description: Option<string>, order: Option<int>, target: Id, k: Id)
    requires t.SystemNamesUnique() && id in t.systems
    requires !NameClash(t.systems, id, name, target)
    requires (Truthy(name) && name.value != t.systems[id].name) ||
             (target == t.systems[id].subjectId && TrimOr(name, t.systems[id].name) == t.systems[id].name)
    requires k in t.systems && k != id
    ensures !(t.systems[k].name == UpdatedSystem(t.systems[id], name, description, order, target).name && t.systems[k].subjectId == target)
  {
    var s := UpdatedSystem(t.systems[id], name, description, order, target);
    if Truthy(name) && name.value != t.systems[id].name {
      NameClashIsTaken(t.systems, id, name, target);
      assert s.name == Trim(name.value);
    } else {
      assert s.name == t.systems[id].name;
    }
  }

  /** The check does not run when a system keeps its name but moves to another subject, so
      the move can give that subject two systems with one name. */
  lemma MoveCanDuplicateNames()
    ensures var t := Tables(map[0 := Subject("Medicine", None, "#000000", None, 0), 1 := Subject("Surgery", None, "#000000", None, 0)],
                            map[2 := System("Heart", None, 0, 0, 0), 3 := System("Heart", None, 0, 1, 0)],
                            map[], map[], map[], map[], None);
      t.SystemNamesUnique() &&
      !NameClash(t.systems, 3, None, 0) &&
      !t.(systems := t.systems[3 := UpdatedSystem(t.systems[3], None, None, None, 0)]).SystemNamesUnique()
  {
    var t := Tables(map[0 := Subject("Medicine", None, "#000000", None, 0), 1 := Subject("Surgery", None, "#000000", None, 0)],
                    map[2 := System("Heart", None, 0, 0, 0), 3 := System("Heart", None, 0, 1, 0)],
                    map[], map[], map[], map[], None);
    var u := t.systems[3 := UpdatedSystem(t.systems[3], None, None, None, 0)];
    assert u[2].name == u[3].name && u[2].subjectId == u[3].subjectId;
  }

  /** DELETE: a missing id is refused, an unknown one is not found; otherwise the system
      goes, with its sections, questions and their files and folders, and the statistics
      are refreshed. */
  method Delete(db: Catalog, id: Option<Id>) returns (r: Response<Id>)
    requires db.Valid()
    modifies db
    ensures db.Valid() && db.nextId == old(db.nextId)
    ensures id.None? ==> r == BadRequest("System ID is required")
    ensures id.Some? && id.value !in old(db.tables.systems) ==> r == NotFound("System not found")
    ensures id.Some? && id.value in old(db.tables.systems) ==>
      r == Ok(id.value) && db.tables == Prune(old(db.tables).(systems := old(db.tables.systems) - {id.value})).Refreshed()
    ensures !r.Ok? ==> db.tables == old(db.tables)
  {
    if id.None? {
      return BadRequest("System ID is required");
    }
    if id.value !in db.tables.systems {
      return NotFound("System not found");
    }
    db.Remove(db.tables.(systems := db.tables.systems - {id.value}));
    db.RefreshStatistics();
    r := Ok(id.value);
  }

  /** The numbers systems are listed by: the display order, then the creation time. */
  function Position(s: System): seq<real> {
    [s.order as real, s.createdAt as real]
  }

  /** Selects the systems of one subject, or all of them. */
  function InSubject(subjectId: Option<Id>): System -> bool {
    (s: System) => subjectId.None? || s.subjectId == subjectId.value
  }

  /** The systems of a subject (or all systems) in display order, older first among equals. */
  function ByPosition(t: Tables, subjectId: Option<Id>): seq<Id> {
    NumsKeyFits(t.systems, Position, [Asc, Asc]);
    Items(Query(t.systems, InSubject(subjectId), NumsKey(Position), [Asc, Asc]))
  }

  /** The listing holds each system of the subject (or each system) once, by order and then
      by creation time. */
  lemma ByPositionOrder(t: Tables, subjectId: Option<Id>)
    ensures var ids := ByPosition(t, subjectId);
      (forall k :: k in ids <==> k in t.systems && (subjectId.None? || t.systems[k].subjectId == subjectId.value)) &&
      (forall i, j :: 0 <= i < j < |ids| ==>
        ids[i] in t.systems && ids[j] in t.systems && ids[i] != ids[j] &&
        var a, b := t.systems[ids[i]], t.systems[ids[j]];
        a.order < b.order || (a.order == b.order && a.createdAt <= b.createdAt))
  {
    ItemsByNumbers(t.systems, InSubject(subjectId), Position, [Asc, Asc], ByPosition(t, subjectId));
    var ids := ByPosition(t, subjectId);
    forall i, j | 0 <= i < j < |ids|
      ensures var a, b := t.systems[ids[i]], t.systems[ids[j]];
        a.order < b.order || (a.order == b.order && a.createdAt <= b.createdAt)
    {
      NotAfterTwo(Position(t.systems[ids[i]]), Position(t.systems[ids[j]]), Asc, Asc);
    }
  }

  /** A system with its sections, highest marks first. */
  datatype SystemDetail = SystemDetail(id: Id, system: System, sections: seq<Id>, sectionCount: nat)

  function Detail(t: Tables, id: Id): SystemDetail
    requires id in t.systems
  {
    var sections := MarksSections.ByMarks(t, Some(id));
    SystemDetail(id, t.systems[id], sections, |sections|)
  }

  /** GET: with an id, that system (or not found); without one, the systems of the given
      subject (or all), in display order. */
  function Get(t: Tables, subjectId: Option<Id>, id: Option<Id>): Response<seq<SystemDetail>> {
    if id.Some? then
      if id.value in t.systems then Ok([Detail(t, id.value)]) else NotFound("System not found")
    else
      Ok(Details(t, ByPosition(t, subjectId)))
  }

  function Details(t: Tables, ids: seq<Id>): seq<SystemDetail> {
    if ids == [] then []
    else if ids[0] in t.systems then [Detail(t, ids[0])] + Details(t, ids[1..])
    else Details(t, ids[1..])
  }
}
