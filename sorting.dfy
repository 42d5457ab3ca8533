/** The relational pieces the SQL queries and the list endpoints rely on:
    `ORDER BY <key>` as a stable insertion sort, `GROUP BY ... COUNT(*)` as a
    grouping of a sequence of keys, `SUM` as a fold, and `OFFSET`/`LIMIT` paging. */
module Sorting {
  import opened Common

  ghost predicate SortedBy<T>(s: seq<T>, key: T -> int)
  {
    forall i, j :: 0 <= i < j < |s| ==> key(s[i]) <= key(s[j])
  }

  function Insert<T>(x: T, s: seq<T>, key: T -> int): (r: seq<T>)
    requires SortedBy(s, key)
    ensures SortedBy(r, key)
    ensures multiset(r) == multiset(s) + multiset{x}
    ensures |r| == |s| + 1
    ensures r[0] == x || (s != [] && r[0] == s[0])
  {
    if s == [] then [x]
    else if key(x) <= key(s[0]) then
      SortedCons(x, s, key);
      [x] + s
    else
      SortedTail(s, key);
      var rest := Insert(x, s[1..], key);
      SortedCons(s[0], rest, key);
      ConsMultiset(s);
      [s[0]] + rest
  }

  lemma ConsMultiset<T>(s: seq<T>)
    requires s != []
    ensures multiset(s) == multiset{s[0]} + multiset(s[1..])
  {
    assert s == [s[0]] + s[1..];
  }

  lemma SortedTail<T>(s: seq<T>, key: T -> int)
    requires SortedBy(s, key) && s != []
    ensures SortedBy(s[1..], key)
  {
    forall i, j | 0 <= i < j < |s[1..]| ensures key(s[1..][i]) <= key(s[1..][j]) {
      assert s[1..][i] == s[i + 1] && s[1..][j] == s[j + 1];
    }
  }

  lemma SortedCons<T>(x: T, s: seq<T>, key: T -> int)
    requires SortedBy(s, key) && (s == [] || key(x) <= key(s[0]))
    ensures SortedBy([x] + s, key)
  {
    var r := [x] + s;
    forall i, j | 0 <= i < j < |r| ensures key(r[i]) <= key(r[j]) {
      assert r[j] == s[j - 1];
      if i > 0 {
        assert r[i] == s[i - 1];
      } else if j > 1 {
        assert key(s[0]) <= key(s[j - 1]);
      }
    }
  }

  /** `ORDER BY key ASC` (stable: equal keys keep their input order). */
  function SortBy<T>(s: seq<T>, key: T -> int): (r: seq<T>)
    ensures SortedBy(r, key)
    ensures multiset(r) == multiset(s)
    ensures |r| == |s|
  {
    if s == [] then []
    else
      assert s == [s[0]] + s[1..];
      Insert(s[0], SortBy(s[1..], key), key)
  }

  /** `ORDER BY key DESC` */
  function SortDesc<T>(s: seq<T>, key: T -> int): (r: seq<T>)
    ensures forall i, j :: 0 <= i < j < |r| ==> key(r[i]) >= key(r[j])
    ensures multiset(r) == multiset(s)
    ensures |r| == |s|
  {
    var r := SortBy(s, x => -key(x));
    assert forall i, j :: 0 <= i < j < |r| ==> -key(r[i]) <= -key(r[j]);
    r
  }

  /** `LIMIT n` */
  function Take<T>(s: seq<T>, n: int): (r: seq<T>)
    ensures |r| <= |s| && (n >= 0 ==> |r| <= n)
    ensures n >= |s| ==> r == s
    ensures r == s[..|r|]
    ensures |r| == if n <= 0 then 0 else Min(n, |s|)
  {
    if n <= 0 then [] else if n >= |s| then s else s[..n]
  }

  function SumBy<T>(s: seq<T>, f: T -> int): int
  {
    if s == [] then 0 else f(s[0]) + SumBy(s[1..], f)
  }

  lemma {:induction false} SumByAppend<T>(a: seq<T>, b: seq<T>, f: T -> int)
    ensures SumBy(a + b, f) == SumBy(a, f) + SumBy(b, f)
  {
    if a != [] {
      assert (a + b)[0] == a[0];
      assert (a + b)[1..] == a[1..] + b;
      SumByAppend(a[1..], b, f);
    } else {
      assert a + b == b;
    }
  }

  lemma SumByAt<T>(s: seq<T>, i: int, f: T -> int)
    requires 0 <= i < |s|
    ensures SumBy(s, f) == SumBy(s[..i], f) + f(s[i]) + SumBy(s[i + 1..], f)
  {
    assert s == s[..i] + [s[i]] + s[i + 1..];
    SumByAppend(s[..i] + [s[i]], s[i + 1..], f);
    SumByAppend(s[..i], [s[i]], f);
  }

  lemma {:induction false} SumByInsert<T>(x: T, s: seq<T>, key: T -> int, f: T -> int)
    requires SortedBy(s, key)
    ensures SumBy(Insert(x, s, key), f) == f(x) + SumBy(s, f)
  {
    if s != [] && key(x) > key(s[0]) {
      SumByInsert(x, s[1..], key, f);
    }
  }

  /** Reordering rows never changes a sum over them. */
  lemma {:induction false} SumBySort<T>(s: seq<T>, key: T -> int, f: T -> int)
    ensures SumBy(SortBy(s, key), f) == SumBy(s, f)
  {
    if s != [] {
      SumBySort(s[1..], key, f);
      SumByInsert(s[0], SortBy(s[1..], key), key, f);
    }
  }

  lemma SumBySortDesc<T>(s: seq<T>, key: T -> int, f: T -> int)
    ensures SumBy(SortDesc(s, key), f) == SumBy(s, f)
  {
    SumBySort(s, x => -key(x), f);
  }

  lemma {:induction false} SumByNonNegative<T>(s: seq<T>, f: T -> int)
    requires forall i :: 0 <= i < |s| ==> f(s[i]) >= 0
    ensures SumBy(s, f) >= 0
  {
    if s != [] {
      SumByNonNegative(s[1..], f);
    }
  }

  /** One row of `SELECT k, COUNT(*) ... GROUP BY k`. */
  datatype Group<K> = Group(key: K, count: nat)

  function GroupCount<K>(g: Group<K>): int { g.count }

  ghost predicate DistinctKeys<K>(gs: seq<Group<K>>)
  {
    forall i, j :: 0 <= i < j < |gs| ==> gs[i].key != gs[j].key
  }

  /** Adds one occurrence of `k` to a grouping. */
  function AddKey<K(==)>(gs: seq<Group<K>>, k: K): (r: seq<Group<K>>)
    requires DistinctKeys(gs)
    ensures DistinctKeys(r)
    ensures |r| == |gs| || r == gs + [Group(k, 1)]
    ensures forall i :: 0 <= i < |gs| ==> r[i].key == gs[i].key
    ensures forall i :: 0 <= i < |gs| ==> r[i].count == gs[i].count + (if gs[i].key == k then 1 else 0)
    ensures (exists i :: 0 <= i < |gs| && gs[i].key == k) <==> |r| == |gs|
  {
    var i := KeyIndex(gs, k);
    if i == |gs| then gs + [Group(k, 1)] else gs[i := Group(k, gs[i].count + 1)]
  }

  /** The position of the group of `k`, or `|gs|` when there is none. */
  function KeyIndex<K(==)>(gs: seq<Group<K>>, k: K): (i: nat)
    ensures i <= |gs|
    ensures i < |gs| ==> gs[i].key == k
    ensures i == |gs| ==> forall j :: 0 <= j < |gs| ==> gs[j].key != k
  {
    if gs == [] then 0 else if gs[0].key == k then 0 else 1 + KeyIndex(gs[1..], k)
  }

  /** `GROUP BY k` with `COUNT(*)`, groups in order of first appearance. */
  function GroupBy<K(==)>(keys: seq<K>): (r: seq<Group<K>>)
    ensures DistinctKeys(r)
  {
    if keys == [] then [] else AddKey(GroupBy(keys[..|keys| - 1]), keys[|keys| - 1])
  }

  /** Each group counts exactly the rows carrying its key. */
  lemma {:induction false} GroupByCounts<K>(keys: seq<K>)
    ensures forall i :: 0 <= i < |GroupBy(keys)| ==> GroupBy(keys)[i].count == multiset(keys)[GroupBy(keys)[i].key]
  {
    if keys != [] {
      var init, last := keys[..|keys| - 1], keys[|keys| - 1];
      assert keys == init + [last];
      assert multiset(keys) == multiset(init) + multiset{last};
      GroupByCounts(init);
      var g := GroupBy(init);
      var r := GroupBy(keys);
      forall i | 0 <= i < |r| ensures r[i].count == multiset(keys)[r[i].key] {
        if i < |g| {
          assert r[i].key == g[i].key;
        } else {
          assert r == g + [Group(last, 1)];
          GroupByCovers(init);
          assert last !in init;
        }
      }
    }
  }

  /** Every key of the input has a group, and every group is non-empty. */
  lemma {:induction false} GroupByCovers<K>(keys: seq<K>)
    ensures forall k :: k in keys ==> exists i :: 0 <= i < |GroupBy(keys)| && GroupBy(keys)[i].key == k
    ensures forall i :: 0 <= i < |GroupBy(keys)| ==> GroupBy(keys)[i].count > 0
  {
    if keys != [] {
      var init, last := keys[..|keys| - 1], keys[|keys| - 1];
      assert keys == init + [last];
      GroupByCovers(init);
      var g := GroupBy(init);
      var r := GroupBy(keys);
      forall k | k in keys ensures exists i :: 0 <= i < |r| && r[i].key == k {
        if k == last {
          if !(exists i :: 0 <= i < |g| && g[i].key == last) {
            assert r[|g|].key == k;
          }
        } else {
          assert k in init;
          var i :| 0 <= i < |g| && g[i].key == k;
          assert r[i].key == k;
        }
      }
    }
  }

  lemma SumByAddKey<K>(gs: seq<Group<K>>, k: K)
    requires DistinctKeys(gs)
    ensures SumBy(AddKey(gs, k), GroupCount) == SumBy(gs, GroupCount) + 1
  {
    var i := KeyIndex(gs, k);
    var r := AddKey(gs, k);
    if i == |gs| {
      SumByAppend(gs, [Group(k, 1)], GroupCount);
      assert [Group(k, 1)][1..] == [];
    } else {
      SumByAt(gs, i, GroupCount);
      SumByAt(r, i, GroupCount);
      assert r[..i] == gs[..i] && r[i + 1..] == gs[i + 1..];
    }
  }

  /** The group counts add up to the number of rows. */
  lemma {:induction false} GroupBySum<K>(keys: seq<K>)
    ensures SumBy(GroupBy(keys), GroupCount) == |keys|
  {
    if keys != [] {
      GroupBySum(keys[..|keys| - 1]);
      SumByAddKey(GroupBy(keys[..|keys| - 1]), keys[|keys| - 1]);
    }
  }

  /** A grouping holds each row at most once. */
  lemma {:induction false} DistinctKeysAtMostOnce<K>(gs: seq<Group<K>>, x: Group<K>)
    requires DistinctKeys(gs)
    ensures multiset(gs)[x] <= 1
  {
    if gs != [] {
      var rest := gs[1..];
      ConsMultiset(gs);
      assert forall i :: 0 <= i < |rest| ==> rest[i] == gs[i + 1];
      DistinctKeysAtMostOnce(rest, x);
      if gs[0] == x {
        assert forall i :: 0 <= i < |rest| ==> rest[i].key != x.key;
        assert x !in rest;
      }
    }
  }

  /** Reordering a grouping (`ORDER BY`) keeps its keys distinct. */
  lemma DistinctKeysPermutation<K>(a: seq<Group<K>>, b: seq<Group<K>>)
    requires DistinctKeys(a) && multiset(a) == multiset(b)
    ensures DistinctKeys(b)
  {
    forall i, j | 0 <= i < j < |b| ensures b[i].key != b[j].key {
      if b[i].key == b[j].key {
        assert b[i] in multiset(a) && b[j] in multiset(a);
        var p :| 0 <= p < |a| && a[p] == b[i];
        var q :| 0 <= q < |a| && a[q] == b[j];
        assert p == q;
        assert b == b[..j] + b[j..];
        assert b[i] in b[..j] && b[j] in b[j..];
        assert multiset(b)[b[i]] >= 2;
        DistinctKeysAtMostOnce(a, b[i]);
      }
    }
  }

  /** `skip (page - 1) * limit`, `take limit` on an ordered list: the rows from position
      `(page - 1) * limit` on, `limit` of them or as many as remain. */
  function Paginate<T>(s: seq<T>, page: int, limit: int): (r: seq<T>)
    requires page >= 1 && limit >= 1
    ensures |r| <= limit
    ensures var skip := SkipCount(page, limit);
      r == s[Min(skip, |s|)..Min(skip + limit, |s|)]
    ensures var skip := SkipCount(page, limit);
      (skip <= |s| ==> |r| <= |s| - skip && r == s[skip..][..|r|])
      && (skip >= |s| ==> r == [])
      && (forall i :: 0 <= i < |r| ==> skip + i < |s| && r[i] == s[skip + i])
    ensures forall x :: x in r ==> x in s
  {
    var skip := SkipCount(page, limit);
    s[Min(skip, |s|)..Min(skip + limit, |s|)]
  }

  /** The number of items before page `page`. */
  function SkipCount(page: int, limit: int): (r: nat)
    requires page >= 1 && limit >= 1
    ensures r == (page - 1) * limit
  {
    (page - 1) * limit
  }

  /** A page of a list in descending order is in descending order. */
  lemma PaginateDesc<T>(s: seq<T>, page: int, limit: int, key: T -> int)
    requires page >= 1 && limit >= 1
    requires forall i, j :: 0 <= i < j < |s| ==> key(s[i]) >= key(s[j])
    ensures forall i, j :: 0 <= i < j < |Paginate(s, page, limit)| ==>
      key(Paginate(s, page, limit)[i]) >= key(Paginate(s, page, limit)[j])
  {
  }

  /** The page holding position `k` of a list: `k / limit + 1`, which is at most
      `ceil(n / limit)` when `k < n`. */
  lemma PageOfPosition(k: nat, n: nat, limit: int)
    requires limit >= 1 && k < n
    ensures (k / limit) * limit <= k < (k / limit) * limit + limit
    ensures 1 <= k / limit + 1 <= CeilDiv(n, limit)
  {
  }

  /** Position `k` of a list is on page `k / limit + 1`. */
  lemma PositionOnPage<T>(s: seq<T>, limit: int, k: nat)
    requires limit >= 1 && k < |s|
    ensures s[k] in Paginate(s, k / limit + 1, limit)
  {
    PageOfPosition(k, |s|, limit);
    var skip := (k / limit) * limit;
    assert (k / limit + 1 - 1) * limit == skip;
    var rest := s[skip..];
    assert rest[k - skip] == s[k];
    assert Paginate(s, k / limit + 1, limit) == Take(rest, limit);
  }
}
