/** The featured route: the most important questions of the catalog, optionally within one
    subject or one system, highest score first, then most repeated, then newest. */
module Featured {
  import opened Common
  import opened Text
  import opened Scoring
  import opened Ordering
  import opened Store

  /** The `take` used when no `limit` parameter is given. */
  const DefaultLimit := "30"

  /** The filter: a subject id and a system id, each applied only when given. */
  predicate InScope(subjectId: Option<Id>, systemId: Option<Id>, q: Question) {
    (subjectId.Some? ==> q.subjectId == subjectId.value) &&
    (systemId.Some? ==> q.systemId == systemId.value)
  }

  function Scope(subjectId: Option<Id>, systemId: Option<Id>): Question -> bool {
    (q: Question) => InScope(subjectId, systemId, q)
  }

  /** The three columns of the ordering, each read highest first. */
  function Rank(q: Question): seq<real> {
    [q.importanceScore, q.repeatCount as real, q.createdAt as real]
  }

  /** `a` comes no later than `b`: a higher score, or an equal score and more repeats, or
      both equal and created no earlier. */
  predicate RanksAtLeast(a: Question, b: Question) {
    a.importanceScore > b.importanceScore ||
    (a.importanceScore == b.importanceScore &&
      (a.repeatCount > b.repeatCount || (a.repeatCount == b.repeatCount && a.createdAt >= b.createdAt)))
  }

  /** The ordering of the featured listing, read column by column. */
  lemma RankOrder(a: Question, b: Question)
    ensures NotAfter(Rank(a), Rank(b), [Desc, Desc, Desc]) <==> RanksAtLeast(a, b)
  {
    NotAfterThree(Rank(a), Rank(b), Desc, Desc, Desc);
  }

  /** The `take`: `parseInt` of the `limit` parameter, or of "30" when it is absent or empty;
      `None` is `NaN`. */
  function Limit(limit: Option<string>): Option<int> {
    ParseInt(OrDefault(limit, DefaultLimit))
  }

  /** Without a `limit` parameter the listing takes 30 rows. */
  lemma LimitDefaults(limit: Option<string>)
    ensures !Truthy(limit) ==> Limit(limit) == Some(30)
    ensures Truthy(limit) ==> Limit(limit) == ParseInt(limit.value)
  {
    assert ShowNat(30) == ShowNat(3) + [DigitChar(0)];
    assert ShowNat(30) + [] == DefaultLimit;
    ParseShowNat(30, []);
  }

  /** The ids of every question in scope, once each, in the order of the listing. */
  function Ranked(t: Tables, subjectId: Option<Id>, systemId: Option<Id>): (ids: seq<Id>)
    ensures forall k :: k in ids <==> k in t.questions && InScope(subjectId, systemId, t.questions[k])
  {
    NumsKeyFits(t.questions, Rank, [Desc, Desc, Desc]);
    Items(Query(t.questions, Scope(subjectId, systemId), NumsKey(Rank), [Desc, Desc, Desc]))
  }

  /** `ids` names stored questions, each once, each ranking at least as high as the next. */
  predicate Ordered(m: map<Id, Question>, ids: seq<Id>) {
    (forall i :: 0 <= i < |ids| ==> ids[i] in m) &&
    (forall i, j :: 0 <= i < j < |ids| ==> ids[i] != ids[j]) &&
    (forall i, j :: 0 <= i < j < |ids| ==> RanksAtLeast(m[ids[i]], m[ids[j]]))
  }

  /** The listing is in rank order. */
  lemma RankedOrder(t: Tables, subjectId: Option<Id>, systemId: Option<Id>)
    ensures Ordered(t.questions, Ranked(t, subjectId, systemId))
  {
    ItemsByNumbers(t.questions, Scope(subjectId, systemId), Rank, [Desc, Desc, Desc], Ranked(t, subjectId, systemId));
    var ids := Ranked(t, subjectId, systemId);
    forall i, j | 0 <= i < j < |ids| ensures RanksAtLeast(t.questions[ids[i]], t.questions[ids[j]]) {
      RankOrder(t.questions[ids[i]], t.questions[ids[j]]);
    }
  }

  /** A question as the listing returns it: every column as stored, the years read back
      with `parseYears`. */
  datatype FeaturedQuestion = FeaturedQuestion(id: Id, question: Question, years: seq<string>)

  function Views(t: Tables, ids: seq<Id>): (r: seq<FeaturedQuestion>)
    requires forall k :: k in ids ==> k in t.questions
    ensures |r| == |ids|
    ensures forall i :: 0 <= i < |ids| ==>
      r[i] == FeaturedQuestion(ids[i], t.questions[ids[i]], ParseYears(t.questions[ids[i]].years))
  {
    if ids == [] then []
    else [FeaturedQuestion(ids[0], t.questions[ids[0]], ParseYears(t.questions[ids[0]].years))] + Views(t, ids[1..])
  }

  /** Where the rows a `take` keeps start in the rows it is given: at the front for a
      count `n >= 0`, else `-n` rows (or all of them) from the end. */
  function TakeStart(size: nat, n: int): nat {
    if n >= 0 then 0 else size - (if -n < size then -n else size)
  }

  /** The rows a `take` keeps are a stretch of the rows it is given, whatever its sign. */
  lemma TakeStretch<T>(all: seq<T>, n: int)
    ensures var r := Take(all, n);
      TakeStart(|all|, n) + |r| <= |all| && forall i :: 0 <= i < |r| ==> r[i] == all[TakeStart(|all|, n) + i]
  {
  }

  /** The rows a `take` keeps are rows it is given. */
  lemma TakeWithin<T>(all: seq<T>, n: int)
    ensures forall x :: x in Take(all, n) ==> x in all
  {
    TakeStretch(all, n);
  }

  /** A stretch of a listing in rank order is in rank order. */
  lemma SliceOrdered(m: map<Id, Question>, all: seq<Id>, lo: nat, hi: nat)
    requires Ordered(m, all) && lo <= hi <= |all|
    ensures Ordered(m, all[lo..hi])
  {
    var r := all[lo..hi];
    forall i | 0 <= i < |r| ensures r[i] in m {
      assert r[i] == all[lo + i];
    }
    forall i, j | 0 <= i < j < |r| ensures r[i] != r[j] && RanksAtLeast(m[r[i]], m[r[j]]) {
      assert r[i] == all[lo + i] && r[j] == all[lo + j];
    }
  }

  /** A `take` of a listing in rank order is in rank order. */
  lemma TakeOrdered(m: map<Id, Question>, all: seq<Id>, n: int)
    requires Ordered(m, all)
    ensures Ordered(m, Take(all, n))
  {
    if n >= 0 {
      SliceOrdered(m, all, 0, if n < |all| then n else |all|);
    } else {
      var lo := |all| - (if -n < |all| then -n else |all|);
      SliceOrdered(m, all, lo, |all|);
      assert all[lo..] == all[lo..|all|];
    }
  }

  /** The first `n` rows of a listing in rank order: every row left out ranks no higher than
      each row kept, and fewer than `n` rows are kept only when all of them are. */
  lemma TakeTop(m: map<Id, Question>, all: seq<Id>, n: nat)
    requires Ordered(m, all)
    ensures var r := Take(all, n);
      |r| <= n && (|r| < n ==> r == all) &&
      forall k, x :: k in all && k !in r && x in r ==> RanksAtLeast(m[x], m[k])
  {
    var r := Take(all, n);
    forall k, x | k in all && k !in r && x in r ensures RanksAtLeast(m[x], m[k]) {
      var i :| 0 <= i < |r| && r[i] == x;
      var j :| 0 <= j < |all| && all[j] == k;
      assert r[i] == all[i];
      assert forall h :: 0 <= h < |r| ==> r[h] == all[h] && r[h] in r;
      assert j >= |r|;
    }
  }

  /** The listing before it is read back: the ids `take: limit` keeps. */
  function Kept(t: Tables, subjectId: Option<Id>, systemId: Option<Id>, n: int): (ids: seq<Id>)
    ensures forall k :: k in ids ==> k in t.questions && InScope(subjectId, systemId, t.questions[k])
  {
    TakeWithin(Ranked(t, subjectId, systemId), n);
    Take(Ranked(t, subjectId, systemId), n)
  }

  /** GET: the questions in scope, in the listing's order, cut by `take: limit`, each with
      its years read back; a limit that is not a number makes the query fail. */
  function Get(t: Tables, subjectId: Option<Id>, systemId: Option<Id>, limit: Option<string>)
    : (r: Response<seq<FeaturedQuestion>>)
    ensures Limit(limit).None? <==> r == ServerError("Failed to fetch featured questions")
    ensures Limit(limit).Some? <==> r.Ok?
    ensures r.Ok? ==> r.value == Views(t, Kept(t, subjectId, systemId, Limit(limit).value))
  {
    match Limit(limit)
    case None => ServerError("Failed to fetch featured questions")
    case Some(n) => Ok(Views(t, Kept(t, subjectId, systemId, n)))
  }

  /** Each view is the stored question it names, with its years read back. */
  lemma ViewsSelect(t: Tables, ids: seq<Id>)
    requires forall k :: k in ids ==> k in t.questions
    ensures forall v :: v in Views(t, ids) <==>
      v.id in ids && v.question == t.questions[v.id] && v.years == ParseYears(v.question.years)
  {
    var r := Views(t, ids);
    forall v: FeaturedQuestion | v.id in ids && v.question == t.questions[v.id] && v.years == ParseYears(v.question.years)
      ensures v in r
    {
      var i :| 0 <= i < |ids| && ids[i] == v.id;
      assert r[i] == v;
    }
  }

  /** Views of a listing in rank order are in rank order. */
  lemma ViewsOrdered(t: Tables, ids: seq<Id>)
    requires forall k :: k in ids ==> k in t.questions
    requires Ordered(t.questions, ids)
    ensures var r := Views(t, ids);
      forall i, j :: 0 <= i < j < |r| ==> r[i].id != r[j].id && RanksAtLeast(r[i].question, r[j].question)
  {
  }

  /** Every question returned is a stored question in scope, returned with all its columns
      and its years as `parseYears` reads them; and every question of the listing is
      returned. */
  lemma GetSelects(t: Tables, subjectId: Option<Id>, systemId: Option<Id>, limit: Option<string>)
    ensures var r := Get(t, subjectId, systemId, limit);
      r.Ok? ==>
        forall v :: v in r.value <==>
          v.id in Kept(t, subjectId, systemId, Limit(limit).value) &&
          v.question == t.questions[v.id] && v.years == ParseYears(v.question.years)
    ensures var r := Get(t, subjectId, systemId, limit);
      r.Ok? ==> forall v :: v in r.value ==> v.id in t.questions && InScope(subjectId, systemId, v.question)
  {
    if Limit(limit).Some? {
      ViewsSelect(t, Kept(t, subjectId, systemId, Limit(limit).value));
    }
  }

  /** No question is returned twice, and each ranks at least as high as the next. */
  lemma GetOrder(t: Tables, subjectId: Option<Id>, systemId: Option<Id>, limit: Option<string>)
    ensures var r := Get(t, subjectId, systemId, limit);
      r.Ok? ==>
        forall i, j :: 0 <= i < j < |r.value| ==>
          r.value[i].id != r.value[j].id && RanksAtLeast(r.value[i].question, r.value[j].question)
  {
    if Limit(limit).Some? {
      var n := Limit(limit).value;
      RankedOrder(t, subjectId, systemId);
      TakeOrdered(t.questions, Ranked(t, subjectId, systemId), n);
      ViewsOrdered(t, Kept(t, subjectId, systemId, n));
    }
  }

  /** With a limit `n >= 0`, at most `n` questions are returned; fewer only when every
      question in scope is returned; and every question in scope that is left out ranks
      no higher than each one returned. */
  lemma GetTop(t: Tables, subjectId: Option<Id>, systemId: Option<Id>, limit: Option<string>)
    requires Limit(limit).Some? && Limit(limit).value >= 0
    ensures var r := Get(t, subjectId, systemId, limit);
      var n := Limit(limit).value;
      var ids := Kept(t, subjectId, systemId, n);
      r.Ok? && |r.value| <= n &&
      (|r.value| < n ==> forall k :: k in t.questions && InScope(subjectId, systemId, t.questions[k]) ==> k in ids) &&
      (forall k, x :: k in t.questions && InScope(subjectId, systemId, t.questions[k]) && k !in ids && x in ids ==>
        RanksAtLeast(t.questions[x], t.questions[k]))
  {
    RankedOrder(t, subjectId, systemId);
    TakeTop(t.questions, Ranked(t, subjectId, systemId), Limit(limit).value);
  }

  /** Without a `limit` the listing is the one `limit=30` gives, and holds at most 30
      questions. */
  lemma GetDefaultLimit(t: Tables, subjectId: Option<Id>, systemId: Option<Id>)
    ensures Get(t, subjectId, systemId, None) == Get(t, subjectId, systemId, Some("30"))
    ensures var r := Get(t, subjectId, systemId, None); r.Ok? && |r.value| <= 30
  {
    LimitDefaults(None);
    LimitDefaults(Some("30"));
  }
}
