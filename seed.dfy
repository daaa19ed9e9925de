/** The seeding route: it creates the seed subjects, the systems listed for each and a
    section for each standard marks value, reusing whatever already exists, and reports
    how many rows it created; GET tells whether the catalog has any subject. */
module Seed {
  import opened Common
  import opened Ordering
  import opened Store
  import Systems
  import MarksSections

  /** One entry of the seed subject list. */
  datatype SubjectInfo = SubjectInfo(name: string, description: string, color: string, icon: string)

  /** One entry of the systems listed for a seed subject. */
  datatype SystemInfo = SystemInfo(name: string, description: string, order: int)

  /** The `results` object: rows created per table, and the failures met. */
  datatype SeedReport = SeedReport(subjects: nat, systems: nat, marksSections: nat, errors: seq<string>)

  /** The marks every seeded system gets a section for. */
  const MarksOptions: seq<int> := [10, 8, 5, 4, 3, 2, 1]

  /** The subjects a run creates. */
  const SubjectData: seq<SubjectInfo> := [
    SubjectInfo("Pathology", "Study of disease processes", "#ef4444", "Microscope"),
    SubjectInfo("Pharmacology", "Study of drugs and their effects", "#22c55e", "Pill"),
    SubjectInfo("Microbiology", "Study of microorganisms", "#3b82f6", "Virus")
  ]

  /** The systems listed for each seed subject. */
  const MedicalSystems: map<string, seq<SystemInfo>> := map[
    "Pathology" := [
      SystemInfo("General Pathology", "Cell Injury, Inflammation, Healing, Neoplasia", 1),
      SystemInfo("Hematology", "Blood disorders and hematopoietic system", 2),
      SystemInfo("Cardiovascular System", "Heart and blood vessels pathology", 3),
      SystemInfo("Respiratory System", "Lungs and respiratory tract pathology", 4),
      SystemInfo("Gastrointestinal System", "GI tract pathology", 5),
      SystemInfo("Hepatobiliary System", "Liver, gallbladder and biliary tract", 6),
      SystemInfo("Urinary System", "Kidney and urinary tract pathology", 7),
      SystemInfo("Reproductive System", "Male and female reproductive pathology", 8),
      SystemInfo("Endocrine System", "Endocrine glands pathology", 9),
      SystemInfo("Nervous System", "CNS and PNS pathology", 10),
      SystemInfo("Musculoskeletal System", "Bones, joints and soft tissue pathology", 11),
      SystemInfo("Skin & Soft Tissue", "Dermatological pathology", 12)
    ],
    "Pharmacology" := [
      SystemInfo("General Pharmacology", "Pharmacokinetics, pharmacodynamics, drug interactions", 1),
      SystemInfo("Autonomic Nervous System", "Cholinergic and adrenergic drugs", 2),
      SystemInfo("Cardiovascular Pharmacology", "Drugs for cardiovascular diseases", 3),
      SystemInfo("Respiratory Pharmacology", "Drugs for respiratory conditions", 4),
      SystemInfo("Gastrointestinal Pharmacology", "Drugs for GI disorders", 5),
      SystemInfo("Chemotherapy", "Antimicrobial and anticancer drugs", 6),
      SystemInfo("Endocrine Pharmacology", "Hormones and related drugs", 7),
      SystemInfo("CNS Drugs", "Drugs acting on central nervous system", 8),
      SystemInfo("Autacoids", "Histamine, prostaglandins, leukotrienes", 9),
      SystemInfo("Blood Drugs", "Anticoagulants, antiplatelets, hematinics", 10)
    ],
    "Microbiology" := [
      SystemInfo("General Microbiology", "Basic microbiology principles", 1),
      SystemInfo("Bacteriology", "Bacterial infections and pathogens", 2),
      SystemInfo("Virology", "Viral infections and pathogens", 3),
      SystemInfo("Mycology", "Fungal infections", 4),
      SystemInfo("Parasitology", "Parasitic infections", 5),
      SystemInfo("Immunology", "Immune system and immunological disorders", 6),
      SystemInfo("Clinical Microbiology", "Clinical aspects of microbiology", 7),
      SystemInfo("Hospital Infection Control", "Nosocomial infections and control measures", 8)
    ]
  ]

  /** `MEDICAL_SYSTEMS[name] || []`. */
  function SystemsFor(catalog: map<string, seq<SystemInfo>>, name: string): seq<SystemInfo> {
    if name in catalog then catalog[name] else []
  }

  /** Selects the subjects called `name` (`findUnique({ where: { name } })`). */
  function Named(name: string): Subject -> bool {
    (s: Subject) => s.name == name
  }

  /** `b` is `a` with subjects, systems and sections added under ids from `n` up, and
      nothing else changed. */
  predicate Grows(a: Tables, b: Tables, n: nat) {
    SubMap(a.subjects, b.subjects) && SubMap(a.systems, b.systems) && SubMap(a.sections, b.sections) &&
    NewAbove(a.subjects, b.subjects, n) && NewAbove(a.systems, b.systems, n) && NewAbove(a.sections, b.sections, n) &&
    b.questions == a.questions && b.folders == a.folders && b.files == a.files && b.stats == a.stats
  }

  /** `b` has `subjects`, `systems` and `sections` rows more than `a` in those tables. */
  predicate Added(a: Tables, b: Tables, subjects: int, systems: int, sections: int) {
    |b.subjects| == |a.subjects| + subjects && |b.systems| == |a.systems| + systems &&
    |b.sections| == |a.sections| + sections
  }

  lemma GrowsTrans(a: Tables, b: Tables, c: Tables, n: nat, m: nat)
    requires Grows(a, b, n) && Grows(b, c, m) && n <= m
    ensures Grows(a, c, n)
  {
  }

  lemma AddedTrans(a: Tables, b: Tables, c: Tables, x1: int, y1: int, z1: int, x2: int, y2: int, z2: int)
    requires Added(a, b, x1, y1, z1) && Added(b, c, x2, y2, z2)
    ensures Added(a, c, x1 + x2, y1 + y2, z1 + z2)
  {
  }

  lemma GrowsBySubject(t: Tables, n: nat, id: Id, x: Subject)
    requires id >= n && id !in t.subjects
    ensures Grows(t, t.(subjects := t.subjects[id := x]), n)
    ensures Added(t, t.(subjects := t.subjects[id := x]), 1, 0, 0)
  {
  }

  lemma GrowsBySystem(t: Tables, n: nat, id: Id, x: System)
    requires id >= n && id !in t.systems
    ensures Grows(t, t.(systems := t.systems[id := x]), n)
    ensures Added(t, t.(systems := t.systems[id := x]), 0, 1, 0)
  {
  }

  lemma GrowsBySection(t: Tables, n: nat, id: Id, x: MarksSection)
    requires id >= n && id !in t.sections
    ensures Grows(t, t.(sections := t.sections[id := x]), n)
    ensures Added(t, t.(sections := t.sections[id := x]), 0, 0, 1)
  {
  }

  /** `findFirst({ where: { marks, systemId } })` finds a section exactly when the
      system has one with those marks. */
  lemma FoundIffTaken(sections: map<Id, MarksSection>, marks: int, systemId: Id)
    ensures FindFirst(sections, MarksSections.WithMarks(marks, systemId)).Some? <==> MarksSections.MarksTaken(sections, marks, systemId)
  {
    if MarksSections.MarksTaken(sections, marks, systemId) {
      var k :| k in sections && sections[k].marks == marks && sections[k].systemId == systemId;
      assert MarksSections.WithMarks(marks, systemId)(sections[k]);
    }
  }

  /** System `systemId` has a section for every standard marks value. */
  predicate SectionsSeeded(sections: map<Id, MarksSection>, systemId: Id) {
    forall m :: m in MarksOptions ==> MarksSections.MarksTaken(sections, m, systemId)
  }

  lemma SectionsSeededGrows(a: map<Id, MarksSection>, b: map<Id, MarksSection>, systemId: Id)
    requires SubMap(a, b) && SectionsSeeded(a, systemId)
    ensures SectionsSeeded(b, systemId)
  {
    forall m | m in MarksOptions ensures MarksSections.MarksTaken(b, m, systemId) {
      var k :| k in a && a[k].marks == m && a[k].systemId == systemId;
      assert b[k] == a[k];
    }
  }

  /** The system a run finds for `name` in subject `subjectId` exists and is seeded. */
  predicate SystemSeeded(t: Tables, subjectId: Id, name: string) {
    var y := FindFirst(t.systems, Systems.WithName(name, subjectId));
    y.Some? && SectionsSeeded(t.sections, y.value)
  }

  predicate SystemsSeeded(t: Tables, subjectId: Id, infos: seq<SystemInfo>) {
    forall j :: 0 <= j < |infos| ==> SystemSeeded(t, subjectId, infos[j].name)
  }

  /** The subject called `name` exists and each of its listed systems is seeded. */
  predicate SubjectSeeded(t: Tables, name: string, infos: seq<SystemInfo>) {
    var k := FindFirst(t.subjects, Named(name));
    k.Some? && SystemsSeeded(t, k.value, infos)
  }

  /** Everything a run creates is in place. */
  predicate AllSeeded(t: Tables, data: seq<SubjectInfo>, catalog: map<string, seq<SystemInfo>>) {
    forall i :: 0 <= i < |data| ==> SubjectSeeded(t, data[i].name, SystemsFor(catalog, data[i].name))
  }

  lemma SystemSeededGrows(a: Tables, b: Tables, n: nat, subjectId: Id, name: string)
    requires Grows(a, b, n) && a.Bounded(n) && SystemSeeded(a, subjectId, name)
    ensures SystemSeeded(b, subjectId, name)
  {
    FindFirstStable(a.systems, b.systems, n, Systems.WithName(name, subjectId));
    SectionsSeededGrows(a.sections, b.sections, FindFirst(a.systems, Systems.WithName(name, subjectId)).value);
  }

  lemma SystemsSeededGrows(a: Tables, b: Tables, n: nat, subjectId: Id, infos: seq<SystemInfo>)
    requires Grows(a, b, n) && a.Bounded(n) && SystemsSeeded(a, subjectId, infos)
    ensures SystemsSeeded(b, subjectId, infos)
  {
    forall j | 0 <= j < |infos| ensures SystemSeeded(b, subjectId, infos[j].name) {
      SystemSeededGrows(a, b, n, subjectId, infos[j].name);
    }
  }

  lemma SubjectSeededGrows(a: Tables, b: Tables, n: nat, name: string, infos: seq<SystemInfo>)
    requires Grows(a, b, n) && a.Bounded(n) && SubjectSeeded(a, name, infos)
    ensures SubjectSeeded(b, name, infos)
  {
    FindFirstStable(a.subjects, b.subjects, n, Named(name));
    SystemsSeededGrows(a, b, n, FindFirst(a.subjects, Named(name)).value, infos);
  }

  /** Whether the catalog counts as seeded does not depend on the statistics row. */
  lemma SeededIgnoresStats(t: Tables, stats: Option<Store.Statistics>, data: seq<SubjectInfo>, catalog: map<string, seq<SystemInfo>>)
    requires AllSeeded(t, data, catalog)
    ensures AllSeeded(t.(stats := stats), data, catalog)
  {
    var u := t.(stats := stats);
    forall i | 0 <= i < |data| ensures SubjectSeeded(u, data[i].name, SystemsFor(catalog, data[i].name)) {
      var infos := SystemsFor(catalog, data[i].name);
      var k := FindFirst(t.subjects, Named(data[i].name)).value;
      forall j | 0 <= j < |infos| ensures SystemSeeded(u, k, infos[j].name) {
        assert SystemSeeded(t, k, infos[j].name);
      }
    }
  }

  /** Every section of `b` missing from `a` belongs to `systemId` and carries the
      default label of its marks. */
  predicate AddedLabelled(a: map<Id, MarksSection>, b: map<Id, MarksSection>, systemId: Id) {
    forall k :: k in b && k !in a ==> b[k].systemId == systemId && b[k].labelText == MarksSections.MarksLabel(b[k].marks)
  }

  lemma TakenGrows(a: map<Id, MarksSection>, b: map<Id, MarksSection>, marks: int, systemId: Id)
    requires SubMap(a, b) && MarksSections.MarksTaken(a, marks, systemId)
    ensures MarksSections.MarksTaken(b, marks, systemId)
  {
    var k :| k in a && a[k].marks == marks && a[k].systemId == systemId;
    assert b[k] == a[k];
  }

  /** The system has a section for each of the first `i` standard marks values. */
  predicate SeededUpTo(sections: map<Id, MarksSection>, systemId: Id, i: nat)
    requires i <= |MarksOptions|
  {
    forall j :: 0 <= j < i ==> MarksSections.MarksTaken(sections, MarksOptions[j], systemId)
  }

  lemma SeededUpToStep(a: map<Id, MarksSection>, b: map<Id, MarksSection>, systemId: Id, i: nat)
    requires i < |MarksOptions| && SubMap(a, b) && SeededUpTo(a, systemId, i)
    requires MarksSections.MarksTaken(b, MarksOptions[i], systemId)
    ensures SeededUpTo(b, systemId, i + 1)
  {
    forall j | 0 <= j < i ensures MarksSections.MarksTaken(b, MarksOptions[j], systemId) {
      TakenGrows(a, b, MarksOptions[j], systemId);
    }
  }

  /** What one step of the innermost loop does, from tables `a` and id counter `n` to
      tables `b` and counter `m`: `added` sections created (each under a fresh id,
      belonging to `systemId` and labelled by its marks), after which the system has a
      section with `marks`; nothing at all when it already had one. */
  predicate SectionStep(a: Tables, b: Tables, n: nat, m: nat, systemId: Id, marks: int, added: nat) {
    n <= m && Grows(a, b, n) && b.subjects == a.subjects && b.systems == a.systems &&
    Added(a, b, 0, 0, added) && AddedLabelled(a.sections, b.sections, systemId) &&
    MarksSections.MarksTaken(b.sections, marks, systemId) &&
    (MarksSections.MarksTaken(a.sections, marks, systemId) ==> b == a && m == n && added == 0)
  }

  lemma SectionKept(t: Tables, n: nat, systemId: Id, marks: int)
    requires MarksSections.MarksTaken(t.sections, marks, systemId)
    ensures SectionStep(t, t, n, n, systemId, marks, 0)
  {
  }

  lemma SectionCreated(t: Tables, id: Id, x: MarksSection)
    requires id !in t.sections && IdsBelow(t.sections, id)
    requires !MarksSections.MarksTaken(t.sections, x.marks, x.systemId)
    requires x.labelText == MarksSections.MarksLabel(x.marks)
    ensures SectionStep(t, t.(sections := t.sections[id := x]), id, id + 1, x.systemId, x.marks, 1)
  {
    GrowsBySection(t, id, id, x);
    var u := t.sections[id := x];
    assert u[id] == x;
  }

  /** One step of the innermost loop: create the section with `marks` unless the system
      has one. */
  method SeedSection(db: Catalog, systemId: Id, marks: int, now: int) returns (added: nat)
    requires db.Valid() && systemId in db.tables.systems
    modifies db
    ensures db.Valid()
    ensures SectionStep(old(db.tables), db.tables, old(db.nextId), db.nextId, systemId, marks, added)
  {
    FoundIffTaken(db.tables.sections, marks, systemId);
    if FindFirst(db.tables.sections, MarksSections.WithMarks(marks, systemId)).Some? {
      SectionKept(db.tables, db.nextId, systemId, marks);
      return 0;
    }
    var id := db.NewId();
    var x := MarksSection(marks, MarksSections.MarksLabel(marks), systemId, now);
    SectionCreated(db.tables, id, x);
    db.PutSection(id, x);
    added := 1;
  }

  /** What the innermost loop does: `SectionStep` for every standard marks value. */
  predicate SectionsStep(a: Tables, b: Tables, n: nat, m: nat, systemId: Id, added: nat) {
    n <= m && Grows(a, b, n) && b.subjects == a.subjects && b.systems == a.systems &&
    Added(a, b, 0, 0, added) && AddedLabelled(a.sections, b.sections, systemId) &&
    SectionsSeeded(b.sections, systemId) &&
    (SectionsSeeded(a.sections, systemId) ==> b == a && m == n && added == 0)
  }

  /** The loop's state after `i` steps. */
  predicate SectionsLoop(a: Tables, b: Tables, n: nat, m: nat, systemId: Id, added: nat, i: nat)
    requires i <= |MarksOptions|
  {
    n <= m && Grows(a, b, n) && b.subjects == a.subjects && b.systems == a.systems &&
    Added(a, b, 0, 0, added) && AddedLabelled(a.sections, b.sections, systemId) &&
    SeededUpTo(b.sections, systemId, i) &&
    (SectionsSeeded(a.sections, systemId) ==> b == a && m == n && added == 0)
  }

  lemma SectionsLoopStep(a: Tables, b: Tables, c: Tables, n: nat, m: nat, p: nat, systemId: Id, added: nat, step: nat, i: nat)
    requires i < |MarksOptions|
    requires SectionsLoop(a, b, n, m, systemId, added, i)
    requires SectionStep(b, c, m, p, systemId, MarksOptions[i], step)
    ensures SectionsLoop(a, c, n, p, systemId, added + step, i + 1)
  {
    GrowsTrans(a, b, c, n, m);
    SeededUpToStep(b.sections, c.sections, systemId, i);
  }

  lemma SectionsLoopDone(a: Tables, b: Tables, n: nat, m: nat, systemId: Id, added: nat)
    requires SectionsLoop(a, b, n, m, systemId, added, |MarksOptions|)
    ensures SectionsStep(a, b, n, m, systemId, added)
  {
    assert forall x :: x in MarksOptions ==> exists j :: 0 <= j < |MarksOptions| && MarksOptions[j] == x;
  }

  /** The innermost loop: a section for each standard marks value the system lacks,
      labelled "<marks> Markers"; the count of sections it created. */
  method SeedSections(db: Catalog, systemId: Id, now: int) returns (added: nat)
    requires db.Valid() && systemId in db.tables.systems
    modifies db
    ensures db.Valid()
    ensures SectionsStep(old(db.tables), db.tables, old(db.nextId), db.nextId, systemId, added)
  {
    added := 0;
    var i := 0;
    while i < |MarksOptions|
      invariant 0 <= i <= |MarksOptions|
      invariant db.Valid() && systemId in db.tables.systems
      invariant SectionsLoop(old(db.tables), db.tables, old(db.nextId), db.nextId, systemId, added, i)
    {
      ghost var before := db.tables;
      ghost var n := db.nextId;
      var step := SeedSection(db, systemId, MarksOptions[i], now);
      SectionsLoopStep(old(db.tables), before, db.tables, old(db.nextId), n, db.nextId, systemId, added, step, i);
      added := added + step;
      i := i + 1;
    }
    SectionsLoopDone(old(db.tables), db.tables, old(db.nextId), db.nextId, systemId, added);
  }

  /** Every system of `b` missing from `a` is the listed system `info` of `subjectId`. */
  predicate AddedSystems(a: map<Id, System>, b: map<Id, System>, subjectId: Id, info: SystemInfo, now: int) {
    forall k :: k in b && k !in a ==> b[k] == System(info.name, Some(info.description), info.order, subjectId, now)
  }

  /** What finding or creating the listed system `info` of `subjectId` does, from tables
      `a` and counter `n` to tables `b` and counter `m`: `added` systems created (each
      the listed one), after which `findFirst` finds `y`; nothing when it found one. */
  predicate SystemStep(a: Tables, b: Tables, n: nat, m: nat, subjectId: Id, info: SystemInfo, now: int, y: Id, added: nat) {
    n <= m && Grows(a, b, n) && b.subjects == a.subjects && b.sections == a.sections &&
    Added(a, b, 0, added, 0) && AddedSystems(a.systems, b.systems, subjectId, info, now) &&
    FindFirst(b.systems, Systems.WithName(info.name, subjectId)) == Some(y) && y in b.systems &&
    (FindFirst(a.systems, Systems.WithName(info.name, subjectId)).Some? ==> b == a && m == n && added == 0)
  }

  lemma SystemFound(t: Tables, n: nat, subjectId: Id, info: SystemInfo, now: int)
    requires FindFirst(t.systems, Systems.WithName(info.name, subjectId)).Some?
    ensures SystemStep(t, t, n, n, subjectId, info, now, FindFirst(t.systems, Systems.WithName(info.name, subjectId)).value, 0)
  {
  }

  lemma SystemCreated(t: Tables, id: Id, subjectId: Id, info: SystemInfo, now: int)
    requires id !in t.systems && FindFirst(t.systems, Systems.WithName(info.name, subjectId)).None?
    ensures var x := System(info.name, Some(info.description), info.order, subjectId, now);
      SystemStep(t, t.(systems := t.systems[id := x]), id, id + 1, subjectId, info, now, id, 1)
  {
    var x := System(info.name, Some(info.description), info.order, subjectId, now);
    GrowsBySystem(t, id, id, x);
    FindFirstNew(t.systems, Systems.WithName(info.name, subjectId), id, x);
  }

  /** `findFirst({ where: { name, subjectId } })`, or a create with the listed
      description and order when it finds nothing: the system the sections go to. */
  method FindOrCreateSystem(db: Catalog, subjectId: Id, info: SystemInfo, now: int) returns (y: Id, added: nat)
    requires db.Valid() && subjectId in db.tables.subjects
    modifies db
    ensures db.Valid()
    ensures SystemStep(old(db.tables), db.tables, old(db.nextId), db.nextId, subjectId, info, now, y, added)
  {
    var found := FindFirst(db.tables.systems, Systems.WithName(info.name, subjectId));
    if found.Some? {
      SystemFound(db.tables, db.nextId, subjectId, info, now);
      return found.value, 0;
    }
    y := db.NewId();
    SystemCreated(db.tables, y, subjectId, info, now);
    db.PutSystem(y, System(info.name, Some(info.description), info.order, subjectId, now));
    added := 1;
  }

  /** One step of the middle loop: the listed system, then its sections. */
  method SeedSystem(db: Catalog, subjectId: Id, info: SystemInfo, now: int) returns (systemAdded: nat, sectionsAdded: nat)
    requires db.Valid() && subjectId in db.tables.subjects
    modifies db
    ensures db.Valid() && db.nextId >= old(db.nextId)
    ensures Grows(old(db.tables), db.tables, old(db.nextId))
    ensures db.tables.subjects == old(db.tables.subjects)
    ensures Added(old(db.tables), db.tables, 0, systemAdded, sectionsAdded)
    ensures AddedSystems(old(db.tables.systems), db.tables.systems, subjectId, info, now)
    ensures SystemSeeded(db.tables, subjectId, info.name)
    ensures SystemSeeded(old(db.tables), subjectId, info.name) ==>
      db.tables == old(db.tables) && db.nextId == old(db.nextId) && systemAdded == 0 && sectionsAdded == 0
  {
    var y;
    y, systemAdded := FindOrCreateSystem(db, subjectId, info, now);
    ghost var mid := db.tables;
    ghost var n := db.nextId;
    sectionsAdded := SeedSections(db, y, now);
    GrowsTrans(old(db.tables), mid, db.tables, old(db.nextId), n);
  }

  /** The first `j` listed systems of the subject are seeded. */
  predicate SystemsSeededUpTo(t: Tables, subjectId: Id, infos: seq<SystemInfo>, j: nat)
    requires j <= |infos|
  {
    forall i :: 0 <= i < j ==> SystemSeeded(t, subjectId, infos[i].name)
  }

  lemma SystemsSeededStep(a: Tables, b: Tables, n: nat, subjectId: Id, infos: seq<SystemInfo>, j: nat)
    requires j < |infos| && Grows(a, b, n) && a.Bounded(n) && SystemsSeededUpTo(a, subjectId, infos, j)
    requires SystemSeeded(b, subjectId, infos[j].name)
    ensures SystemsSeededUpTo(b, subjectId, infos, j + 1)
  {
    forall i | 0 <= i < j ensures SystemSeeded(b, subjectId, infos[i].name) {
      SystemSeededGrows(a, b, n, subjectId, infos[i].name);
    }
  }

  /** The middle loop: every listed system of the subject, and its sections. */
  method SeedSystems(db: Catalog, subjectId: Id, infos: seq<SystemInfo>, now: int) returns (systemsAdded: nat, sectionsAdded: nat)
    requires db.Valid() && subjectId in db.tables.subjects
    modifies db
    ensures db.Valid() && db.nextId >= old(db.nextId)
    ensures Grows(old(db.tables), db.tables, old(db.nextId))
    ensures db.tables.subjects == old(db.tables.subjects)
    ensures Added(old(db.tables), db.tables, 0, systemsAdded, sectionsAdded)
    ensures SystemsSeeded(db.tables, subjectId, infos)
    ensures SystemsSeeded(old(db.tables), subjectId, infos) ==>
      db.tables == old(db.tables) && db.nextId == old(db.nextId) && systemsAdded == 0 && sectionsAdded == 0
  {
    systemsAdded, sectionsAdded := 0, 0;
    var j := 0;
    while j < |infos|
      invariant 0 <= j <= |infos|
      invariant db.Valid() && db.nextId >= old(db.nextId)
      invariant Grows(old(db.tables), db.tables, old(db.nextId))
      invariant db.tables.subjects == old(db.tables.subjects)
      invariant Added(old(db.tables), db.tables, 0, systemsAdded, sectionsAdded)
      invariant SystemsSeededUpTo(db.tables, subjectId, infos, j)
      invariant SystemsSeeded(old(db.tables), subjectId, infos) ==>
        db.tables == old(db.tables) && db.nextId == old(db.nextId) && systemsAdded == 0 && sectionsAdded == 0
    {
      ghost var before := db.tables;
      ghost var n := db.nextId;
      var a, b := SeedSystem(db, subjectId, infos[j], now);
      systemsAdded, sectionsAdded := systemsAdded + a, sectionsAdded + b;
      GrowsTrans(old(db.tables), before, db.tables, old(db.nextId), n);
      SystemsSeededStep(before, db.tables, n, subjectId, infos, j);
      j := j + 1;
    }
  }

  /** Every subject of `b` missing from `a` is the listed subject `info`. */
  predicate AddedSubjects(a: map<Id, Subject>, b: map<Id, Subject>, info: SubjectInfo, now: int) {
    forall k :: k in b && k !in a ==> b[k] == Subject(info.name, Some(info.description), info.color, Some(info.icon), now)
  }

  /** What finding or creating the listed subject `info` does: `added` subjects created
      (the listed one), after which `findUnique` finds `k`; nothing when it found one. */
  predicate SubjectFoundStep(a: Tables, b: Tables, n: nat, m: nat, info: SubjectInfo, now: int, k: Id, added: nat) {
    n <= m && Grows(a, b, n) && b.systems == a.systems && b.sections == a.sections &&
    Added(a, b, added, 0, 0) && AddedSubjects(a.subjects, b.subjects, info, now) &&
    FindFirst(b.subjects, Named(info.name)) == Some(k) && k in b.subjects &&
    (FindFirst(a.subjects, Named(info.name)).Some? ==> b == a && m == n && added == 0)
  }

  lemma SubjectFound(t: Tables, n: nat, info: SubjectInfo, now: int)
    requires FindFirst(t.subjects, Named(info.name)).Some?
    ensures SubjectFoundStep(t, t, n, n, info, now, FindFirst(t.subjects, Named(info.name)).value, 0)
  {
  }

  lemma SubjectCreated(t: Tables, id: Id, info: SubjectInfo, now: int)
    requires id !in t.subjects && FindFirst(t.subjects, Named(info.name)).None?
    ensures var x := Subject(info.name, Some(info.description), info.color, Some(info.icon), now);
      SubjectFoundStep(t, t.(subjects := t.subjects[id := x]), id, id + 1, info, now, id, 1)
  {
    var x := Subject(info.name, Some(info.description), info.color, Some(info.icon), now);
    GrowsBySubject(t, id, id, x);
    FindFirstNew(t.subjects, Named(info.name), id, x);
  }

  /** `findUnique({ where: { name } })`, or a create with the listed description, colour
      and icon when it finds nothing: the subject the systems go to. */
  method FindOrCreateSubject(db: Catalog, info: SubjectInfo, now: int) returns (k: Id, added: nat)
    requires db.Valid()
    modifies db
    ensures db.Valid()
    ensures SubjectFoundStep(old(db.tables), db.tables, old(db.nextId), db.nextId, info, now, k, added)
  {
    var found := FindFirst(db.tables.subjects, Named(info.name));
    if found.Some? {
      SubjectFound(db.tables, db.nextId, info, now);
      return found.value, 0;
    }
    k := db.NewId();
    SubjectCreated(db.tables, k, info, now);
    assert forall j :: j in db.tables.subjects ==> !Named(info.name)(db.tables.subjects[j]);
    db.PutSubject(k, Subject(info.name, Some(info.description), info.color, Some(info.icon), now));
    added := 1;
  }

  /** What one step of the outer loop does: rows added under fresh ids, the listed
      subject (if created) as listed, after which the subject and its systems are seeded;
      nothing when they already were. */
  predicate SubjectStep(a: Tables, b: Tables, n: nat, m: nat, info: SubjectInfo, infos: seq<SystemInfo>, now: int,
                        subjects: nat, systems: nat, sections: nat) {
    n <= m && Grows(a, b, n) && Added(a, b, subjects, systems, sections) &&
    AddedSubjects(a.subjects, b.subjects, info, now) && SubjectSeeded(b, info.name, infos) &&
    (SubjectSeeded(a, info.name, infos) ==> b == a && m == n && subjects == 0 && systems == 0 && sections == 0)
  }

  lemma SubjectStepJoin(a: Tables, mid: Tables, b: Tables, n: nat, p: nat, m: nat, info: SubjectInfo,
                        infos: seq<SystemInfo>, now: int, k: Id, subjects: nat, systems: nat, sections: nat)
    requires SubjectFoundStep(a, mid, n, p, info, now, k, subjects)
    requires p <= m && Grows(mid, b, p) && b.subjects == mid.subjects
    requires Added(mid, b, 0, systems, sections) && SystemsSeeded(b, k, infos)
    requires SystemsSeeded(mid, k, infos) ==> b == mid && m == p && systems == 0 && sections == 0
    ensures SubjectStep(a, b, n, m, info, infos, now, subjects, systems, sections)
  {
    GrowsTrans(a, mid, b, n, p);
  }

  /** One step of the outer loop: the listed subject, then its listed systems. */
  method SeedSubject(db: Catalog, info: SubjectInfo, infos: seq<SystemInfo>, now: int)
    returns (subjects: nat, systems: nat, sections: nat)
    requires db.Valid()
    modifies db
    ensures db.Valid()
    ensures SubjectStep(old(db.tables), db.tables, old(db.nextId), db.nextId, info, infos, now, subjects, systems, sections)
  {
    var k;
    k, subjects := FindOrCreateSubject(db, info, now);
    ghost var mid, n := db.tables, db.nextId;
    systems, sections := SeedSystems(db, k, infos, now);
    SubjectStepJoin(old(db.tables), mid, db.tables, old(db.nextId), n, db.nextId, info, infos, now, k, subjects, systems, sections);
  }

  /** The first `i` listed subjects are seeded. */
  predicate SeededUpToSubject(t: Tables, data: seq<SubjectInfo>, catalog: map<string, seq<SystemInfo>>, i: nat)
    requires i <= |data|
  {
    forall j :: 0 <= j < i ==> SubjectSeeded(t, data[j].name, SystemsFor(catalog, data[j].name))
  }

  /** The outer loop's state after `i` steps. */
  predicate RunLoop(a: Tables, b: Tables, n: nat, m: nat, data: seq<SubjectInfo>, catalog: map<string, seq<SystemInfo>>,
                    subjects: nat, systems: nat, sections: nat, i: nat)
    requires i <= |data|
  {
    n <= m && Grows(a, b, n) && Added(a, b, subjects, systems, sections) &&
    SeededUpToSubject(b, data, catalog, i) &&
    (AllSeeded(a, data, catalog) ==> b == a && m == n && subjects == 0 && systems == 0 && sections == 0)
  }

  lemma RunLoopStep(a: Tables, b: Tables, c: Tables, n: nat, m: nat, p: nat, data: seq<SubjectInfo>,
                    catalog: map<string, seq<SystemInfo>>, subjects: nat, systems: nat, sections: nat,
                    now: int, s: nat, y: nat, z: nat, i: nat)
    requires i < |data| && b.Bounded(m)
    requires RunLoop(a, b, n, m, data, catalog, subjects, systems, sections, i)
    requires SubjectStep(b, c, m, p, data[i], SystemsFor(catalog, data[i].name), now, s, y, z)
    ensures RunLoop(a, c, n, p, data, catalog, subjects + s, systems + y, sections + z, i + 1)
  {
    GrowsTrans(a, b, c, n, m);
    forall j | 0 <= j < i ensures SubjectSeeded(c, data[j].name, SystemsFor(catalog, data[j].name)) {
      SubjectSeededGrows(b, c, m, data[j].name, SystemsFor(catalog, data[j].name));
    }
  }

  lemma RunLoopDone(a: Tables, b: Tables, n: nat, m: nat, data: seq<SubjectInfo>, catalog: map<string, seq<SystemInfo>>,
                    subjects: nat, systems: nat, sections: nat)
    requires RunLoop(a, b, n, m, data, catalog, subjects, systems, sections, |data|)
    ensures AllSeeded(b, data, catalog)
  {
  }

  /** The seeding run over the listed subjects `data` and the systems `catalog` lists for
      them: what exists is reused, what is missing is created, every table only grows,
      the statistics row is written with fresh counts, and the report holds the number of
      rows created per table. A catalog already seeded is left as it is, apart from the
      statistics. */
  method Run(db: Catalog, data: seq<SubjectInfo>, catalog: map<string, seq<SystemInfo>>, now: int) returns (report: SeedReport)
    requires db.Valid()
    modifies db
    ensures db.Valid() && db.nextId >= old(db.nextId)
    ensures report.errors == []
    ensures Grows(old(db.tables), db.tables.(stats := old(db.tables.stats)), old(db.nextId))
    ensures Added(old(db.tables), db.tables, report.subjects, report.systems, report.marksSections)
    ensures db.tables.stats == Some(db.tables.Recount())
    ensures AllSeeded(db.tables, data, catalog)
    ensures AllSeeded(old(db.tables), data, catalog) ==>
      db.tables == old(db.tables).Refreshed() && report == SeedReport(0, 0, 0, [])
  {
    var subjects, systems, sections := 0, 0, 0;
    var i := 0;
    while i < |data|
      invariant 0 <= i <= |data|
      invariant db.Valid()
      invariant RunLoop(old(db.tables), db.tables, old(db.nextId), db.nextId, data, catalog, subjects, systems, sections, i)
    {
      ghost var before, n := db.tables, db.nextId;
      var s, y, z := SeedSubject(db, data[i], SystemsFor(catalog, data[i].name), now);
      RunLoopStep(old(db.tables), before, db.tables, old(db.nextId), n, db.nextId, data, catalog,
                  subjects, systems, sections, now, s, y, z, i);
      subjects, systems, sections := subjects + s, systems + y, sections + z;
      i := i + 1;
    }
    RunLoopDone(old(db.tables), db.tables, old(db.nextId), db.nextId, data, catalog, subjects, systems, sections);
    SeededIgnoresStats(db.tables, Some(db.tables.Recount()), data, catalog);
    db.RefreshStatistics();
    report := SeedReport(subjects, systems, sections, []);
  }

  /** POST: a run over the seed subjects and their systems. Every write is one the
      database accepts, so the error list stays empty. */
  method Post(db: Catalog, now: int) returns (r: Response<SeedReport>)
    requires db.Valid()
    modifies db
    ensures db.Valid()
    ensures r.Ok? && r.value.errors == []
    ensures Added(old(db.tables), db.tables, r.value.subjects, r.value.systems, r.value.marksSections)
    ensures AllSeeded(db.tables, SubjectData, MedicalSystems)
    ensures Status(db.tables).isSeeded && Status(db.tables).systems > 0 && Status(db.tables).marksSections > 0
    ensures AllSeeded(old(db.tables), SubjectData, MedicalSystems) ==>
      db.tables == old(db.tables).Refreshed() && r.value == SeedReport(0, 0, 0, [])
  {
    var report := Run(db, SubjectData, MedicalSystems, now);
    SeedDataSeeded(db.tables);
    r := Ok(report);
  }

  /** The `data` of GET. */
  datatype SeedStatus = SeedStatus(isSeeded: bool, subjects: nat, systems: nat, marksSections: nat)

  /** GET: the catalog counts as seeded as soon as it has one subject, whatever else it
      lacks. */
  function Status(t: Tables): (r: SeedStatus)
    ensures r.isSeeded <==> t.subjects != map[]
    ensures r.subjects == |t.subjects| && r.systems == |t.systems| && r.marksSections == |t.sections|
  {
    SeedStatus(|t.subjects| > 0, |t.subjects|, |t.systems|, |t.sections|)
  }

  /** After a run over at least one subject, GET reports the catalog seeded, with at
      least one system for each listed one of that subject. */
  lemma SeededAfterRun(t: Tables, data: seq<SubjectInfo>, catalog: map<string, seq<SystemInfo>>)
    requires AllSeeded(t, data, catalog) && |data| > 0
    ensures Status(t).isSeeded
    ensures |SystemsFor(catalog, data[0].name)| > 0 ==> Status(t).systems > 0 && Status(t).marksSections > 0
  {
    var k := FindFirst(t.subjects, Named(data[0].name)).value;
    assert k in t.subjects;
    var infos := SystemsFor(catalog, data[0].name);
    if |infos| > 0 {
      assert SystemSeeded(t, k, infos[0].name);
      var y := FindFirst(t.systems, Systems.WithName(infos[0].name, k)).value;
      assert y in t.systems;
      assert MarksOptions[0] in MarksOptions;
      var j :| j in t.sections && t.sections[j].marks == MarksOptions[0] && t.sections[j].systemId == y;
    }
  }

  /** After a run over the seed data, GET reports the catalog seeded, with systems and
      sections. */
  lemma SeedDataSeeded(t: Tables)
    requires AllSeeded(t, SubjectData, MedicalSystems)
    ensures Status(t).isSeeded && Status(t).systems > 0 && Status(t).marksSections > 0
  {
    assert SubjectData[0].name == "Pathology";
    assert |SystemsFor(MedicalSystems, "Pathology")| == 12;
    SeededAfterRun(t, SubjectData, MedicalSystems);
  }
}
