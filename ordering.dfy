/** Record identifiers, and the orders the queries sort by: a list of columns, each
    ascending or descending, compared one after the other (Prisma's `orderBy: [...]`),
    and the `take` that cuts the sorted list. */
module Ordering {
  import opened Common

  /** A row id. The database's generated ids are opaque strings; here they are numbers,
      handed out in creation order. */
  type Id = nat

  /** `m` is the least member of `s`. */
  predicate IsLeast(m: Id, s: set<Id>) {
    m in s && forall x :: x in s ==> m <= x
  }

  /** The least id of a non-empty set: which row `findFirst` returns when several match. */
  function MinOf(s: set<Id>): (m: Id)
    requires s != {}
    ensures m in s
    ensures forall x :: x in s ==> m <= x
  {
    HasLeast(s);
    var m :| IsLeast(m, s);
    m
  }

  lemma {:induction false} HasLeast(s: set<Id>)
    requires s != {}
    ensures exists m :: IsLeast(m, s)
    decreases s
  {
    var x :| x in s;
    var rest := s - {x};
    if rest == {} {
      forall y | y in s ensures x <= y {
        assert y !in rest;
      }
      assert IsLeast(x, s);
    } else {
      HasLeast(rest);
      var m :| IsLeast(m, rest);
      var least := if x < m then x else m;
      forall y | y in s ensures least <= y {
        assert y == x || y in rest;
      }
      assert IsLeast(least, s);
    }
  }

  /** `findFirst({ where: keep })`: the least id of a row that passes `keep`, if any. */
  function FindFirst<V>(m: map<Id, V>, keep: V -> bool): (r: Option<Id>)
    ensures r.None? <==> forall k :: k in m ==> !keep(m[k])
    ensures r.Some? ==> r.value in m && keep(m[r.value])
    ensures r.Some? ==> forall k :: k in m && keep(m[k]) ==> r.value <= k
  {
    var matches := set k | k in m && keep(m[k]);
    assert forall k :: k in m && keep(m[k]) ==> k in matches;
    if matches == {} then None else Some(MinOf(matches))
  }

  /** The ids of `s` in increasing order: the order a query without `orderBy` reports
      rows in, here. */
  function SortedIds(s: set<Id>): (r: seq<Id>)
    ensures |r| == |s|
    ensures forall x :: x in r <==> x in s
    ensures forall i, j :: 0 <= i < j < |r| ==> r[i] < r[j]
    decreases s
  {
    if s == {} then []
    else
      var m := MinOf(s);
      var rest := SortedIds(s - {m});
      PrependIncreasing(m, rest);
      [m] + rest
  }

  /** An id below every id of an increasing list extends it to an increasing list. */
  lemma PrependIncreasing(m: Id, rest: seq<Id>)
    requires forall x :: x in rest ==> m < x
    requires forall i, j :: 0 <= i < j < |rest| ==> rest[i] < rest[j]
    ensures forall i, j :: 0 <= i < j < |[m] + rest| ==> ([m] + rest)[i] < ([m] + rest)[j]
  {
    var r := [m] + rest;
    forall i, j | 0 <= i < j < |r|
      ensures r[i] < r[j]
    {
      assert r[j] == rest[j - 1] && rest[j - 1] in rest;
      if i > 0 {
        assert r[i] == rest[i - 1];
      }
    }
  }

  /** One column value of a row. */
  datatype Field = Num(n: real) | Txt(t: string)

  datatype Dir = Asc | Desc

  /** Three-way comparison of strings by character code, shorter prefix first. */
  function StrCmp(a: string, b: string): (c: int)
    ensures -1 <= c <= 1
    ensures c == 0 <==> a == b
  {
    if a == [] && b == [] then 0
    else if a == [] then -1
    else if b == [] then 1
    else if a[0] < b[0] then -1
    else if a[0] > b[0] then 1
    else
      var c := StrCmp(a[1..], b[1..]);
      assert c == 0 ==> a == [a[0]] + a[1..] == [b[0]] + b[1..] == b;
      c
  }

  /** Three-way comparison of two column values; numbers sort before text (no column
      mixes the two). */
  function FieldCmp(x: Field, y: Field): (c: int)
    ensures -1 <= c <= 1
  {
    if x.Num? && y.Num? then (if x.n < y.n then -1 else if x.n > y.n then 1 else 0)
    else if x.Txt? && y.Txt? then StrCmp(x.t, y.t)
    else if x.Num? then -1
    else 1
  }

  /** Lexicographic comparison of two rows' keys, column `i` in direction `dirs[i]`. */
  function Cmp(a: seq<Field>, b: seq<Field>, dirs: seq<Dir>): (c: int)
    ensures -1 <= c <= 1
  {
    if a == [] || b == [] || dirs == [] then 0
    else
      var c := FieldCmp(a[0], b[0]);
      if c != 0 then (if dirs[0] == Asc then c else -c)
      else Cmp(a[1..], b[1..], dirs[1..])
  }

  lemma {:induction false} StrCmpFlip(a: string, b: string)
    ensures StrCmp(b, a) == -StrCmp(a, b)
  {
    if a != [] && b != [] && a[0] == b[0] {
      StrCmpFlip(a[1..], b[1..]);
    }
  }

  lemma {:induction false} StrCmpTrans(a: string, b: string, c: string)
    requires StrCmp(a, b) <= 0 && StrCmp(b, c) <= 0
    ensures StrCmp(a, c) <= 0
  {
    if a != [] && b != [] && c != [] && a[0] == b[0] == c[0] {
      StrCmpTrans(a[1..], b[1..], c[1..]);
    }
  }

  lemma FieldCmpFlip(x: Field, y: Field)
    ensures FieldCmp(y, x) == -FieldCmp(x, y)
  {
    if x.Txt? && y.Txt? {
      StrCmpFlip(x.t, y.t);
    }
  }

  lemma FieldCmpTrans(x: Field, y: Field, z: Field)
    requires FieldCmp(x, y) <= 0 && FieldCmp(y, z) <= 0
    ensures FieldCmp(x, z) <= 0
    ensures FieldCmp(x, y) == 0 && FieldCmp(y, z) == 0 ==> FieldCmp(x, z) == 0
  {
    if x.Txt? && y.Txt? && z.Txt? {
      StrCmpTrans(x.t, y.t, z.t);
    }
  }

  /** Swapping the rows negates the comparison. */
  lemma {:induction false} CmpFlip(a: seq<Field>, b: seq<Field>, dirs: seq<Dir>)
    ensures Cmp(b, a, dirs) == -Cmp(a, b, dirs)
  {
    if a != [] && b != [] && dirs != [] {
      FieldCmpFlip(a[0], b[0]);
      CmpFlip(a[1..], b[1..], dirs[1..]);
    }
  }

  /** The comparison is transitive, so it orders rows (ties allowed). */
  lemma {:induction false} CmpTrans(a: seq<Field>, b: seq<Field>, c: seq<Field>, dirs: seq<Dir>)
    requires |a| == |b| == |c| == |dirs|
    requires Cmp(a, b, dirs) <= 0 && Cmp(b, c, dirs) <= 0
    ensures Cmp(a, c, dirs) <= 0
  {
    if a != [] {
      var x, y, z := a[0], b[0], c[0];
      FieldCmpFlip(x, y);
      FieldCmpFlip(y, z);
      FieldCmpFlip(x, z);
      if FieldCmp(x, y) == 0 && FieldCmp(y, z) == 0 {
        FieldCmpTrans(x, y, z);
        CmpTrans(a[1..], b[1..], c[1..], dirs[1..]);
      } else if dirs[0] == Asc {
        if FieldCmp(x, y) <= 0 && FieldCmp(y, z) <= 0 {
          FieldCmpTrans(x, y, z);
        }
      } else {
        if FieldCmp(z, y) <= 0 && FieldCmp(y, x) <= 0 {
          FieldCmpTrans(z, y, x);
        }
      }
    }
  }

  /** A row paired with its sort key. */
  datatype Keyed<T> = Keyed(key: seq<Field>, item: T)

  predicate KeysFit<T>(s: seq<Keyed<T>>, dirs: seq<Dir>) {
    forall i :: 0 <= i < |s| ==> |s[i].key| == |dirs|
  }

  /** Every row is ordered no later than every row after it. */
  predicate Sorted<T>(s: seq<Keyed<T>>, dirs: seq<Dir>) {
    forall i, j :: 0 <= i < j < |s| ==> Cmp(s[i].key, s[j].key, dirs) <= 0
  }

  function Insert<T>(x: Keyed<T>, s: seq<Keyed<T>>, dirs: seq<Dir>): seq<Keyed<T>> {
    if s == [] then [x]
    else if Cmp(x.key, s[0].key, dirs) <= 0 then [x] + s
    else [s[0]] + Insert(x, s[1..], dirs)
  }

  /** `y` orders no later than every row of `s`. */
  predicate Below<T>(y: seq<Field>, s: seq<Keyed<T>>, dirs: seq<Dir>) {
    forall k :: 0 <= k < |s| ==> Cmp(y, s[k].key, dirs) <= 0
  }

  lemma {:induction false} InsertMultiset<T>(x: Keyed<T>, s: seq<Keyed<T>>, dirs: seq<Dir>)
    ensures multiset(Insert(x, s, dirs)) == multiset(s) + multiset{x}
  {
    if s != [] && Cmp(x.key, s[0].key, dirs) > 0 {
      InsertMultiset(x, s[1..], dirs);
      assert s == [s[0]] + s[1..];
    }
  }

  lemma {:induction false} InsertKeysFit<T>(x: Keyed<T>, s: seq<Keyed<T>>, dirs: seq<Dir>)
    requires |x.key| == |dirs| && KeysFit(s, dirs)
    ensures KeysFit(Insert(x, s, dirs), dirs)
  {
    if s != [] && Cmp(x.key, s[0].key, dirs) > 0 {
      InsertKeysFit(x, s[1..], dirs);
      var u := Insert(x, s[1..], dirs);
      assert forall i :: 0 < i <= |u| ==> ([s[0]] + u)[i] == u[i - 1];
    }
  }

  lemma {:induction false} InsertBelow<T>(y: seq<Field>, x: Keyed<T>, s: seq<Keyed<T>>, dirs: seq<Dir>)
    requires Below(y, s, dirs) && Cmp(y, x.key, dirs) <= 0
    ensures Below(y, Insert(x, s, dirs), dirs)
  {
    if s != [] && Cmp(x.key, s[0].key, dirs) > 0 {
      assert Below(y, s[1..], dirs);
      InsertBelow(y, x, s[1..], dirs);
      var u := Insert(x, s[1..], dirs);
      assert forall i :: 0 < i <= |u| ==> ([s[0]] + u)[i] == u[i - 1];
    }
  }

  lemma SortedCons<T>(h: Keyed<T>, u: seq<Keyed<T>>, dirs: seq<Dir>)
    requires Below(h.key, u, dirs) && Sorted(u, dirs)
    ensures Sorted([h] + u, dirs)
  {
    var r := [h] + u;
    forall i, j | 0 <= i < j < |r|
      ensures Cmp(r[i].key, r[j].key, dirs) <= 0
    {
      if i == 0 {
        assert r[j] == u[j - 1];
      } else {
        assert r[i] == u[i - 1] && r[j] == u[j - 1];
      }
    }
  }

  lemma {:induction false} InsertSorted<T>(x: Keyed<T>, s: seq<Keyed<T>>, dirs: seq<Dir>)
    requires |x.key| == |dirs| && KeysFit(s, dirs) && Sorted(s, dirs)
    ensures Sorted(Insert(x, s, dirs), dirs)
  {
    if s == [] {
    } else if Cmp(x.key, s[0].key, dirs) <= 0 {
      forall k | 0 <= k < |s|
        ensures Cmp(x.key, s[k].key, dirs) <= 0
      {
        if k > 0 {
          CmpTrans(x.key, s[0].key, s[k].key, dirs);
        }
      }
      SortedCons(x, s, dirs);
    } else {
      var t := s[1..];
      InsertSorted(x, t, dirs);
      CmpFlip(x.key, s[0].key, dirs);
      assert Below(s[0].key, t, dirs);
      InsertBelow(s[0].key, x, t, dirs);
      SortedCons(s[0], Insert(x, t, dirs), dirs);
    }
  }

  /** `rows` sorted by key: a permutation of `rows` in which every row comes no later than
      the rows after it. Rows whose keys tie keep their relative order. */
  function SortBy<T>(rows: seq<Keyed<T>>, dirs: seq<Dir>): (r: seq<Keyed<T>>)
    requires KeysFit(rows, dirs)
    ensures multiset(r) == multiset(rows)
    ensures KeysFit(r, dirs) && Sorted(r, dirs)
  {
    if rows == [] then []
    else
      assert KeysFit(rows[1..], dirs) by {
        assert forall i :: 0 <= i < |rows| - 1 ==> rows[1..][i] == rows[i + 1];
      }
      var t := SortBy(rows[1..], dirs);
      InsertMultiset(rows[0], t, dirs);
      InsertKeysFit(rows[0], t, dirs);
      InsertSorted(rows[0], t, dirs);
      HeadMultiset(rows);
      Insert(rows[0], t, dirs)
  }

  /** A non-empty list holds its head and its tail. */
  lemma HeadMultiset<T>(s: seq<T>)
    requires s != []
    ensures multiset(s) == multiset([s[0]]) + multiset(s[1..])
  {
    assert s == [s[0]] + s[1..];
  }

  /** Prisma's `take: n`: the first `n` rows, or for a negative `n` the last `-n` rows. */
  function Take<T>(s: seq<T>, n: int): (r: seq<T>)
    ensures n >= 0 ==> r == s[..if n < |s| then n else |s|]
    ensures n < 0 ==> r == s[|s| - (if -n < |s| then -n else |s|)..]
    ensures |r| <= |s|
  {
    if n >= 0 then (if n < |s| then s[..n] else s)
    else (if -n < |s| then s[|s| + n..] else s)
  }

  function Items<T>(s: seq<Keyed<T>>): (r: seq<T>)
    ensures |r| == |s| && forall i :: 0 <= i < |s| ==> r[i] == s[i].item
  {
    if s == [] then [] else [s[0].item] + Items(s[1..])
  }

  /** No row occurs twice. */
  predicate Distinct<T(==)>(s: seq<T>) {
    forall i, j :: 0 <= i < j < |s| ==> s[i] != s[j]
  }

  lemma {:induction false} DistinctCounts<T>(s: seq<T>)
    requires Distinct(s)
    ensures forall x :: multiset(s)[x] <= 1
  {
    if s != [] {
      assert Distinct(s[1..]) by {
        forall i, j | 0 <= i < j < |s| - 1 ensures s[1..][i] != s[1..][j] {
          assert s[1..][i] == s[i + 1] && s[1..][j] == s[j + 1];
        }
      }
      DistinctCounts(s[1..]);
      assert s == [s[0]] + s[1..];
      assert s[0] !in s[1..];
    }
  }

  /** A sequence without repeats that holds exactly the members of a set is as long as
      the set is large. */
  lemma {:induction false} DistinctCard<T>(s: seq<T>, members: set<T>)
    requires Distinct(s) && forall x :: x in s <==> x in members
    ensures |s| == |members|
  {
    if s == [] {
      assert forall x :: x !in members;
      assert members == {};
    } else {
      DistinctTail(s);
      DistinctCard(s[1..], members - {s[0]});
    }
  }

  /** A permutation of a sequence without repeats has none either. */
  lemma DistinctPermutation<T>(a: seq<T>, b: seq<T>)
    requires multiset(a) == multiset(b) && Distinct(a)
    ensures Distinct(b)
  {
    DistinctCounts(a);
    forall i, j | 0 <= i < j < |b|
      ensures b[i] != b[j]
    {
      assert b == b[..j] + b[j..];
      assert b[i] in b[..j];
      assert multiset(b)[b[i]] == multiset(b[..j])[b[i]] + multiset(b[j..])[b[i]];
      assert multiset(b[j..])[b[j]] >= 1;
    }
  }

  /** A permutation has the same items, and every row of it is a row of the original. */
  lemma PermutationItems<T>(a: seq<Keyed<T>>, b: seq<Keyed<T>>)
    requires multiset(a) == multiset(b)
    ensures forall x :: x in Items(a) <==> x in Items(b)
    ensures forall i :: 0 <= i < |b| ==> b[i] in a
  {
    forall x
      ensures x in Items(a) ==> x in Items(b)
      ensures x in Items(b) ==> x in Items(a)
    {
      if x in Items(b) {
        var i :| 0 <= i < |b| && Items(b)[i] == x;
        assert b[i] in multiset(a);
        var j :| 0 <= j < |a| && a[j] == b[i];
        assert Items(a)[j] == x;
      }
      if x in Items(a) {
        var j :| 0 <= j < |a| && Items(a)[j] == x;
        assert a[j] in multiset(b);
        var i :| 0 <= i < |b| && b[i] == a[j];
        assert Items(b)[i] == x;
      }
    }
    forall i | 0 <= i < |b|
      ensures b[i] in a
    {
      assert b[i] in multiset(a);
    }
  }

  /** Dropping the head of a sequence without repeats leaves one without repeats
      that does not hold the head. */
  lemma DistinctTail<T>(s: seq<T>)
    requires |s| > 0 && Distinct(s)
    ensures Distinct(s[1..]) && s[0] !in s[1..]
  {
    forall i, j | 0 <= i < j < |s| - 1 ensures s[1..][i] != s[1..][j] {
      assert s[1..][i] == s[i + 1] && s[1..][j] == s[j + 1];
    }
  }

  /** The rows of `m` whose ids are listed in `ids` and pass `keep`, in the order of
      `ids`, each paired with its key. */
  function Select<V>(m: map<Id, V>, ids: seq<Id>, keep: V -> bool, key: V -> seq<Field>): (r: seq<Keyed<Id>>)
    requires forall x :: x in ids ==> x in m
    ensures forall x :: x in Items(r) <==> x in ids && keep(m[x])
    ensures forall i :: 0 <= i < |r| ==> r[i].item in m && r[i].key == key(m[r[i].item])
  {
    if ids == [] then []
    else
      var rest := Select(m, ids[1..], keep, key);
      assert forall x :: x in ids ==> x == ids[0] || x in ids[1..];
      if keep(m[ids[0]]) then
        var h := Keyed(key(m[ids[0]]), ids[0]);
        assert Items([h] + rest) == [ids[0]] + Items(rest);
        [h] + rest
      else rest
  }

  /** Selecting from ids without repeats gives rows without repeats. */
  lemma {:induction false} SelectDistinct<V>(m: map<Id, V>, ids: seq<Id>, keep: V -> bool, key: V -> seq<Field>)
    requires forall x :: x in ids ==> x in m
    requires Distinct(ids)
    ensures Distinct(Select(m, ids, keep, key))
  {
    if ids != [] {
      DistinctTail(ids);
      SelectDistinct(m, ids[1..], keep, key);
      var rest := Select(m, ids[1..], keep, key);
      if keep(m[ids[0]]) {
        var h := Keyed(key(m[ids[0]]), ids[0]);
        forall i | 0 <= i < |rest| ensures rest[i] != h {
          assert rest[i].item in Items(rest);
        }
      }
    }
  }

  /** `findMany({ where: keep, orderBy })`: every row of `m` that passes `keep`, each once,
      sorted by `key` in the directions `dirs`. */
  function Query<V>(m: map<Id, V>, keep: V -> bool, key: V -> seq<Field>, dirs: seq<Dir>): (r: seq<Keyed<Id>>)
    requires forall x :: x in m ==> |key(m[x])| == |dirs|
    ensures forall x :: x in Items(r) <==> x in m && keep(m[x])
    ensures forall i :: 0 <= i < |r| ==> r[i].item in m && r[i].key == key(m[r[i].item])
    ensures Distinct(r)
  {
    var ids := SortedIds(m.Keys);
    assert Distinct(ids);
    SortedItems(m, ids, keep, key, dirs);
    SortedKeys(m, ids, keep, key, dirs);
    SortedDistinct(m, ids, keep, key, dirs);
    SortBy(Select(m, ids, keep, key), dirs)
  }

  /** Sorting the rows selected from a list of every id of `m` keeps exactly the rows
      that pass `keep`. */
  lemma SortedItems<V>(m: map<Id, V>, ids: seq<Id>, keep: V -> bool, key: V -> seq<Field>, dirs: seq<Dir>)
    requires forall x :: x in ids <==> x in m
    requires forall x :: x in m ==> |key(m[x])| == |dirs|
    ensures forall x :: x in Items(SortBy(Select(m, ids, keep, key), dirs)) <==> x in m && keep(m[x])
  {
    var rows := Select(m, ids, keep, key);
    PermutationItems(rows, SortBy(rows, dirs));
  }

  /** Each row of the sorted selection carries its own key. */
  lemma SortedKeys<V>(m: map<Id, V>, ids: seq<Id>, keep: V -> bool, key: V -> seq<Field>, dirs: seq<Dir>)
    requires forall x :: x in ids ==> x in m
    requires forall x :: x in m ==> |key(m[x])| == |dirs|
    ensures forall i :: 0 <= i < |SortBy(Select(m, ids, keep, key), dirs)| ==>
      SortBy(Select(m, ids, keep, key), dirs)[i].item in m &&
      SortBy(Select(m, ids, keep, key), dirs)[i].key == key(m[SortBy(Select(m, ids, keep, key), dirs)[i].item])
  {
    var rows := Select(m, ids, keep, key);
    var r := SortBy(rows, dirs);
    forall i | 0 <= i < |r| ensures r[i].item in m && r[i].key == key(m[r[i].item]) {
      assert r[i] in multiset(rows);
      var j :| 0 <= j < |rows| && rows[j] == r[i];
    }
  }

  /** The sorted selection from a list without repeats has no repeats. */
  lemma SortedDistinct<V>(m: map<Id, V>, ids: seq<Id>, keep: V -> bool, key: V -> seq<Field>, dirs: seq<Dir>)
    requires forall x :: x in ids ==> x in m
    requires Distinct(ids)
    requires forall x :: x in m ==> |key(m[x])| == |dirs|
    ensures Distinct(SortBy(Select(m, ids, keep, key), dirs))
  {
    var rows := Select(m, ids, keep, key);
    SelectDistinct(m, ids, keep, key);
    DistinctPermutation(rows, SortBy(rows, dirs));
  }

  /** The rows of a query are sorted by their keys. */
  lemma QuerySorted<V>(m: map<Id, V>, keep: V -> bool, key: V -> seq<Field>, dirs: seq<Dir>)
    requires forall x :: x in m ==> |key(m[x])| == |dirs|
    ensures Sorted(Query(m, keep, key, dirs), dirs)
  {
  }

  /** The first `n` rows of a sorted list without repeats: a row that was cut orders no
      earlier than any row that was kept. */
  lemma TopRows<T>(r: seq<Keyed<T>>, dirs: seq<Dir>, n: nat)
    requires Distinct(r) && Sorted(r, dirs)
    ensures var top := Take(r, n);
      Sorted(top, dirs) && |top| == (if n < |r| then n else |r|) &&
      forall x, y :: x in top && y in r && y !in top ==> Cmp(x.key, y.key, dirs) <= 0
  {
    var top := Take(r, n);
    forall x, y | x in top && y in r && y !in top
      ensures Cmp(x.key, y.key, dirs) <= 0
    {
      var i :| 0 <= i < |top| && top[i] == x;
      var j :| 0 <= j < |r| && r[j] == y;
      assert r[i] == x;
      forall k | 0 <= k < |top|
        ensures r[k] != y
      {
        assert top[k] == r[k];
      }
    }
  }

  /** The same cut told by the items: a row whose item was cut orders no earlier than
      any row kept. */
  lemma CutItems<T>(all: seq<Keyed<T>>, dirs: seq<Dir>, n: nat)
    requires Distinct(all) && Sorted(all, dirs)
    ensures var r := Take(all, n);
      forall j, y :: 0 <= j < |all| && all[j].item !in Items(r) && y in r ==> Cmp(y.key, all[j].key, dirs) <= 0
  {
    var r := Take(all, n);
    TopRows(all, dirs, n);
    forall j, y | 0 <= j < |all| && all[j].item !in Items(r) && y in r
      ensures Cmp(y.key, all[j].key, dirs) <= 0
    {
      assert all[j] !in r by {
        forall i | 0 <= i < |r| ensures r[i] != all[j] {
          assert Items(r)[i] == r[i].item;
        }
      }
    }
  }

  /** A head of a list keeps its rows in place. */
  lemma TakeHead<T>(all: seq<Keyed<T>>, n: nat)
    ensures var r := Take(all, n);
      (forall i :: 0 <= i < |r| ==> r[i] == all[i]) &&
      (forall x :: x in Items(r) ==> x in Items(all)) &&
      (|r| < n ==> r == all)
  {
    var r := Take(all, n);
    forall x | x in Items(r) ensures x in Items(all) {
      var i :| 0 <= i < |r| && Items(r)[i] == x;
      assert Items(all)[i] == x;
    }
  }

  /** The first `n` rows of a query are rows the query selects, each with its own key,
      and there are fewer than `n` only when the query selects no more. */
  lemma QueryTopItems<V>(m: map<Id, V>, keep: V -> bool, key: V -> seq<Field>, dirs: seq<Dir>, n: nat)
    requires forall x :: x in m ==> |key(m[x])| == |dirs|
    ensures var r := Take(Query(m, keep, key, dirs), n);
      (forall x :: x in Items(r) ==> x in m && keep(m[x])) &&
      (forall i :: 0 <= i < |r| ==> r[i].item in m && r[i].key == key(m[r[i].item])) &&
      (|r| < n ==> forall x :: x in m && keep(m[x]) ==> x in Items(r))
  {
    TakeHead(Query(m, keep, key, dirs), n);
  }

  /** Every row a query selects but its first `n` rows leave out orders no earlier than
      each row kept. */
  lemma QueryTopRank<V>(m: map<Id, V>, keep: V -> bool, key: V -> seq<Field>, dirs: seq<Dir>, n: nat)
    requires forall x :: x in m ==> |key(m[x])| == |dirs|
    ensures var r := Take(Query(m, keep, key, dirs), n);
      forall x, y :: x in m && keep(m[x]) && x !in Items(r) && y in r ==> Cmp(y.key, key(m[x]), dirs) <= 0
  {
    var all := Query(m, keep, key, dirs);
    QuerySorted(m, keep, key, dirs);
    CutItems(all, dirs, n);
    forall x, y | x in m && keep(m[x]) && x !in Items(Take(all, n)) && y in Take(all, n)
      ensures Cmp(y.key, key(m[x]), dirs) <= 0
    {
      var j :| 0 <= j < |all| && Items(all)[j] == x;
    }
  }

  /** The rows of a query name distinct items, in the order of their keys. */
  lemma QueryOrder<V>(m: map<Id, V>, keep: V -> bool, key: V -> seq<Field>, dirs: seq<Dir>)
    requires forall x :: x in m ==> |key(m[x])| == |dirs|
    ensures var r := Query(m, keep, key, dirs);
      forall i, j :: 0 <= i < j < |r| ==> r[i].item != r[j].item && Cmp(key(m[r[i].item]), key(m[r[j].item]), dirs) <= 0
  {
    var r := Query(m, keep, key, dirs);
    QuerySorted(m, keep, key, dirs);
    forall i, j | 0 <= i < j < |r|
      ensures r[i].item != r[j].item && Cmp(key(m[r[i].item]), key(m[r[j].item]), dirs) <= 0
    {
      assert r[i] != r[j];
      assert Cmp(r[i].key, r[j].key, dirs) <= 0;
    }
  }

  /** What a comparison of one-number keys says about the two numbers. */
  lemma NumCmp(x: real, y: real, d: Dir)
    requires Cmp([Num(x)], [Num(y)], [d]) <= 0
    ensures d == Asc ==> x <= y
    ensures d == Desc ==> x >= y
  {
  }

  /** The key of a query ordered by one number. */
  function NumKey<V>(f: V -> real): V -> seq<Field> {
    (v: V) => [Num(f(v))]
  }

  /** The first `n` rows of a query keep the query's order. */
  lemma QueryTopSorted<V>(m: map<Id, V>, keep: V -> bool, key: V -> seq<Field>, dirs: seq<Dir>, n: nat)
    requires forall x :: x in m ==> |key(m[x])| == |dirs|
    ensures Sorted(Take(Query(m, keep, key, dirs), n), dirs)
  {
    QuerySorted(m, keep, key, dirs);
    TakeHead(Query(m, keep, key, dirs), n);
  }

  /** The rows of a query ordered by one number name distinct items, in the order of
      that number. */
  lemma QueryByNumber<V>(m: map<Id, V>, keep: V -> bool, f: V -> real, d: Dir)
    ensures var r := Query(m, keep, NumKey(f), [d]);
      forall i, j :: 0 <= i < j < |r| ==>
        r[i].item in m && r[j].item in m && r[i].item != r[j].item &&
        (d == Asc ==> f(m[r[i].item]) <= f(m[r[j].item])) && (d == Desc ==> f(m[r[i].item]) >= f(m[r[j].item]))
  {
    var r := Query(m, keep, NumKey(f), [d]);
    QueryOrder(m, keep, NumKey(f), [d]);
    forall i, j | 0 <= i < j < |r|
      ensures (d == Asc ==> f(m[r[i].item]) <= f(m[r[j].item])) && (d == Desc ==> f(m[r[i].item]) >= f(m[r[j].item]))
    {
      var a, b := r[i].item, r[j].item;
      assert Cmp(NumKey(f)(m[a]), NumKey(f)(m[b]), [d]) <= 0;
      assert NumKey(f)(m[a]) == [Num(f(m[a]))] && NumKey(f)(m[b]) == [Num(f(m[b]))];
      NumCmp(f(m[a]), f(m[b]), d);
    }
  }

  /** The key of a query ordered by one text column. */
  function TextKey<V>(f: V -> string): V -> seq<Field> {
    (v: V) => [Txt(f(v))]
  }

  /** What a comparison of one-text keys says about the two texts. */
  lemma TextCmp(x: string, y: string, d: Dir)
    requires Cmp([Txt(x)], [Txt(y)], [d]) <= 0
    ensures d == Asc ==> StrCmp(x, y) <= 0
    ensures d == Desc ==> StrCmp(x, y) >= 0
  {
  }

  /** The rows of a query ordered by one text column name distinct items, in the order of
      that text. */
  lemma QueryByText<V>(m: map<Id, V>, keep: V -> bool, f: V -> string, d: Dir)
    ensures var r := Query(m, keep, TextKey(f), [d]);
      forall i, j :: 0 <= i < j < |r| ==>
        r[i].item in m && r[j].item in m && r[i].item != r[j].item &&
        (d == Asc ==> StrCmp(f(m[r[i].item]), f(m[r[j].item])) <= 0) && (d == Desc ==> StrCmp(f(m[r[i].item]), f(m[r[j].item])) >= 0)
  {
    var r := Query(m, keep, TextKey(f), [d]);
    QueryOrder(m, keep, TextKey(f), [d]);
    forall i, j | 0 <= i < j < |r|
      ensures (d == Asc ==> StrCmp(f(m[r[i].item]), f(m[r[j].item])) <= 0) && (d == Desc ==> StrCmp(f(m[r[i].item]), f(m[r[j].item])) >= 0)
    {
      var a, b := r[i].item, r[j].item;
      assert Cmp(TextKey(f)(m[a]), TextKey(f)(m[b]), [d]) <= 0;
      assert TextKey(f)(m[a]) == [Txt(f(m[a]))] && TextKey(f)(m[b]) == [Txt(f(m[b]))];
      TextCmp(f(m[a]), f(m[b]), d);
    }
  }

  /** The ids a query ordered by one text column lists: every selected row once, the
      texts in character-code order (reversed when descending). */
  lemma ItemsByText<V>(m: map<Id, V>, keep: V -> bool, f: V -> string, d: Dir, ids: seq<Id>)
    requires ids == Items(Query(m, keep, TextKey(f), [d]))
    ensures forall k :: k in ids <==> k in m && keep(m[k])
    ensures forall i, j :: 0 <= i < j < |ids| ==>
      ids[i] in m && ids[j] in m && ids[i] != ids[j] &&
      (d == Asc ==> StrCmp(f(m[ids[i]]), f(m[ids[j]])) <= 0) && (d == Desc ==> StrCmp(f(m[ids[i]]), f(m[ids[j]])) >= 0)
  {
    var r := Query(m, keep, TextKey(f), [d]);
    QueryByText(m, keep, f, d);
    forall i, j | 0 <= i < j < |ids|
      ensures ids[i] in m && ids[j] in m && ids[i] != ids[j] &&
        (d == Asc ==> StrCmp(f(m[ids[i]]), f(m[ids[j]])) <= 0) && (d == Desc ==> StrCmp(f(m[ids[i]]), f(m[ids[j]])) >= 0)
    {
      assert ids[i] == r[i].item && ids[j] == r[j].item;
    }
  }

  /** A key made of numbers only. */
  function Nums(xs: seq<real>): (k: seq<Field>)
    ensures |k| == |xs| && forall i :: 0 <= i < |xs| ==> k[i] == Num(xs[i])
  {
    if xs == [] then [] else [Num(xs[0])] + Nums(xs[1..])
  }

  /** Numbers compared column by column: at the first column where they differ, `a`'s
      comes first in that column's direction; equal throughout is allowed. */
  predicate NotAfter(a: seq<real>, b: seq<real>, dirs: seq<Dir>) {
    if a == [] || b == [] || dirs == [] then true
    else if a[0] == b[0] then NotAfter(a[1..], b[1..], dirs[1..])
    else if dirs[0] == Asc then a[0] < b[0]
    else a[0] > b[0]
  }

  /** On keys made of numbers, the comparison is the column-by-column order of the numbers. */
  lemma {:induction false} CmpNums(a: seq<real>, b: seq<real>, dirs: seq<Dir>)
    ensures Cmp(Nums(a), Nums(b), dirs) <= 0 <==> NotAfter(a, b, dirs)
  {
    if a != [] && b != [] && dirs != [] {
      assert Nums(a)[1..] == Nums(a[1..]) && Nums(b)[1..] == Nums(b[1..]);
      CmpNums(a[1..], b[1..], dirs[1..]);
    }
  }

  /** The key of a query ordered by several numbers. */
  function NumsKey<V>(f: V -> seq<real>): V -> seq<Field> {
    (v: V) => Nums(f(v))
  }

  /** Keys made of `dirs`-many numbers fit the directions. */
  lemma NumsKeyFits<V>(m: map<Id, V>, f: V -> seq<real>, dirs: seq<Dir>)
    requires forall x :: x in m ==> |f(m[x])| == |dirs|
    ensures forall x :: x in m ==> |NumsKey(f)(m[x])| == |dirs|
  {
  }

  /** The rows of a query ordered by the numbers `f` picks name distinct items, in the
      column-by-column order of those numbers. */
  lemma QueryByNumbers<V>(m: map<Id, V>, keep: V -> bool, f: V -> seq<real>, dirs: seq<Dir>)
    requires forall x :: x in m ==> |f(m[x])| == |dirs|
    ensures var r := Query(m, keep, NumsKey(f), dirs);
      forall i, j :: 0 <= i < j < |r| ==>
        r[i].item in m && r[j].item in m && r[i].item != r[j].item && NotAfter(f(m[r[i].item]), f(m[r[j].item]), dirs)
  {
    var r := Query(m, keep, NumsKey(f), dirs);
    QueryOrder(m, keep, NumsKey(f), dirs);
    forall i, j | 0 <= i < j < |r|
      ensures NotAfter(f(m[r[i].item]), f(m[r[j].item]), dirs)
    {
      var a, b := r[i].item, r[j].item;
      assert Cmp(NumsKey(f)(m[a]), NumsKey(f)(m[b]), dirs) <= 0;
      CmpNums(f(m[a]), f(m[b]), dirs);
    }
  }

  /** The ids a query ordered by numbers lists: every selected row once, in the
      column-by-column order of its numbers. */
  lemma ItemsByNumbers<V>(m: map<Id, V>, keep: V -> bool, f: V -> seq<real>, dirs: seq<Dir>, ids: seq<Id>)
    requires forall x :: x in m ==> |f(m[x])| == |dirs|
    requires forall x :: x in m ==> |NumsKey(f)(m[x])| == |dirs|
    requires ids == Items(Query(m, keep, NumsKey(f), dirs))
    ensures forall k :: k in ids <==> k in m && keep(m[k])
    ensures forall i, j :: 0 <= i < j < |ids| ==>
      ids[i] in m && ids[j] in m && ids[i] != ids[j] && NotAfter(f(m[ids[i]]), f(m[ids[j]]), dirs)
  {
    var r := Query(m, keep, NumsKey(f), dirs);
    QueryByNumbers(m, keep, f, dirs);
    forall i, j | 0 <= i < j < |ids|
      ensures ids[i] in m && ids[j] in m && ids[i] != ids[j] && NotAfter(f(m[ids[i]]), f(m[ids[j]]), dirs)
    {
      assert ids[i] == r[i].item && ids[j] == r[j].item;
    }
  }

  /** The ids a query ordered by one number lists: every selected row once, in the order
      of that number. */
  lemma ItemsByNumber<V>(m: map<Id, V>, keep: V -> bool, f: V -> real, d: Dir, ids: seq<Id>)
    requires ids == Items(Query(m, keep, NumKey(f), [d]))
    ensures forall k :: k in ids <==> k in m && keep(m[k])
    ensures forall i, j :: 0 <= i < j < |ids| ==>
      ids[i] in m && ids[j] in m && ids[i] != ids[j] &&
      (d == Asc ==> f(m[ids[i]]) <= f(m[ids[j]])) && (d == Desc ==> f(m[ids[i]]) >= f(m[ids[j]]))
  {
    var r := Query(m, keep, NumKey(f), [d]);
    QueryByNumber(m, keep, f, d);
    forall i, j | 0 <= i < j < |ids|
      ensures ids[i] in m && ids[j] in m && ids[i] != ids[j] &&
        (d == Asc ==> f(m[ids[i]]) <= f(m[ids[j]])) && (d == Desc ==> f(m[ids[i]]) >= f(m[ids[j]]))
    {
      assert ids[i] == r[i].item && ids[j] == r[j].item;
    }
  }

  /** The first `n` ids of a query ordered by the numbers `f` picks. */
  function Top<V>(m: map<Id, V>, keep: V -> bool, f: V -> seq<real>, dirs: seq<Dir>, n: nat): (ids: seq<Id>)
    requires forall x :: x in m ==> |f(m[x])| == |dirs|
    ensures |ids| <= n
  {
    NumsKeyFits(m, f, dirs);
    Items(Take(Query(m, keep, NumsKey(f), dirs), n))
  }

  /** The top `n` are selected rows, and fewer than `n` only when no more are selected. */
  lemma TopMembers<V>(m: map<Id, V>, keep: V -> bool, f: V -> seq<real>, dirs: seq<Dir>, n: nat)
    requires forall x :: x in m ==> |f(m[x])| == |dirs|
    ensures var ids := Top(m, keep, f, dirs, n);
      (forall k :: k in ids ==> k in m && keep(m[k])) &&
      (|ids| < n ==> forall k :: k in m && keep(m[k]) ==> k in ids)
  {
    NumsKeyFits(m, f, dirs);
    QueryTopItems(m, keep, NumsKey(f), dirs, n);
  }

  /** The top `n` are listed once each, in the column-by-column order of their numbers. */
  lemma TopOrder<V>(m: map<Id, V>, keep: V -> bool, f: V -> seq<real>, dirs: seq<Dir>, n: nat)
    requires forall x :: x in m ==> |f(m[x])| == |dirs|
    ensures var ids := Top(m, keep, f, dirs, n);
      forall i, j :: 0 <= i < j < |ids| ==>
        ids[i] in m && ids[j] in m && ids[i] != ids[j] && NotAfter(f(m[ids[i]]), f(m[ids[j]]), dirs)
  {
    NumsKeyFits(m, f, dirs);
    var q := Query(m, keep, NumsKey(f), dirs);
    var ids := Top(m, keep, f, dirs, n);
    ItemsByNumbers(m, keep, f, dirs, Items(q));
    TakeHead(q, n);
    assert ids == Items(Take(q, n));
    forall i, j | 0 <= i < j < |ids|
      ensures ids[i] in m && ids[j] in m && ids[i] != ids[j] && NotAfter(f(m[ids[i]]), f(m[ids[j]]), dirs)
    {
      assert ids[i] == Items(q)[i] && ids[j] == Items(q)[j];
    }
  }

  /** A selected row left out of the top `n` comes after every row in it. */
  lemma TopRank<V>(m: map<Id, V>, keep: V -> bool, f: V -> seq<real>, dirs: seq<Dir>, n: nat)
    requires forall x :: x in m ==> |f(m[x])| == |dirs|
    ensures var ids := Top(m, keep, f, dirs, n);
      forall k, x :: k in m && keep(m[k]) && k !in ids && x in ids ==> NotAfter(f(m[x]), f(m[k]), dirs)
  {
    NumsKeyFits(m, f, dirs);
    var r := Take(Query(m, keep, NumsKey(f), dirs), n);
    QueryTopItems(m, keep, NumsKey(f), dirs, n);
    QueryTopRank(m, keep, NumsKey(f), dirs, n);
    CutByNumbers(m, keep, f, dirs, r);
  }

  lemma CutByNumbers<V>(m: map<Id, V>, keep: V -> bool, f: V -> seq<real>, dirs: seq<Dir>, r: seq<Keyed<Id>>)
    requires forall i :: 0 <= i < |r| ==> r[i].item in m && r[i].key == NumsKey(f)(m[r[i].item])
    requires forall x, y :: x in m && keep(m[x]) && x !in Items(r) && y in r ==> Cmp(y.key, NumsKey(f)(m[x]), dirs) <= 0
    ensures forall k, x :: k in m && keep(m[k]) && k !in Items(r) && x in Items(r) ==> NotAfter(f(m[x]), f(m[k]), dirs)
  {
    forall k, x | k in m && keep(m[k]) && k !in Items(r) && x in Items(r)
      ensures NotAfter(f(m[x]), f(m[k]), dirs)
    {
      var i :| 0 <= i < |r| && Items(r)[i] == x;
      assert Cmp(r[i].key, NumsKey(f)(m[k]), dirs) <= 0;
      CmpNums(f(m[x]), f(m[k]), dirs);
    }
  }

  /** Two columns: the first decides unless equal, then the second. */
  lemma NotAfterTwo(a: seq<real>, b: seq<real>, d1: Dir, d2: Dir)
    requires |a| == |b| == 2
    ensures NotAfter(a, b, [d1, d2]) <==>
      if a[0] != b[0] then (if d1 == Asc then a[0] < b[0] else a[0] > b[0])
      else (if d2 == Asc then a[1] <= b[1] else a[1] >= b[1])
  {
    var a', b' := a[1..], b[1..];
    assert a'[0] == a[1] && b'[0] == b[1] && [d1, d2][1..] == [d2];
    assert NotAfter(a'[1..], b'[1..], [d2][1..]);
    assert NotAfter(a', b', [d2]) <==> (if d2 == Asc then a[1] <= b[1] else a[1] >= b[1]);
  }

  /** Three columns: the first decides unless equal, then the second, then the third. */
  lemma NotAfterThree(a: seq<real>, b: seq<real>, d1: Dir, d2: Dir, d3: Dir)
    requires |a| == |b| == 3
    ensures NotAfter(a, b, [d1, d2, d3]) <==>
      if a[0] != b[0] then (if d1 == Asc then a[0] < b[0] else a[0] > b[0])
      else if a[1] != b[1] then (if d2 == Asc then a[1] < b[1] else a[1] > b[1])
      else (if d3 == Asc then a[2] <= b[2] else a[2] >= b[2])
  {
    assert [d1, d2, d3][1..] == [d2, d3];
    NotAfterTwo(a[1..], b[1..], d2, d3);
  }
}
