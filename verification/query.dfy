/** The fragment of the query builder the handlers use, over tables held as
    sequences: `filter` + `first`, `filter` + `load`, `count`, `limit`/`offset`,
    `update ... set` and `delete` by filter, and primary-key assignment.
    Row order is sequence order; `first()` is the first matching row in it. */
module Query {

  datatype Option<+T> = None | Some(value: T) {

    /** The `unwrap_or` of the source: the value, or the default when absent. */
    function GetOr(default: T): T {
      match this
      case Some(v) => v
      case None => default
    }
  }

  /** Index of the first row satisfying `p`, or None when no row does. */
  function First<T>(s: seq<T>, p: T -> bool): (r: Option<nat>)
    ensures r.Some? ==> r.value < |s| && p(s[r.value])
    ensures r.Some? ==> forall j :: 0 <= j < r.value ==> !p(s[j])
    ensures r.None? ==> forall j :: 0 <= j < |s| ==> !p(s[j])
  {
    if |s| == 0 then None
    else if p(s[0]) then Some(0)
    else match First(s[1..], p)
      case None => None
      case Some(k) => Some(k + 1)
  }

  /** `filter(p).first()`: the first row satisfying `p`, if any. */
  function Find<T(!new)>(s: seq<T>, p: T -> bool): (r: Option<T>)
    ensures r.Some? ==> r.value in s && p(r.value)
    ensures r.None? <==> forall x :: x in s ==> !p(x)
  {
    match First(s, p)
    case Some(k) => Some(s[k])
    case None => None
  }

  /** The rows satisfying `p`, in table order. */
  function Filter<T(!new)>(s: seq<T>, p: T -> bool): (r: seq<T>)
    ensures |r| <= |s|
    ensures forall x :: x in r <==> x in s && p(x)
  {
    if |s| == 0 then []
    else (if p(s[0]) then [s[0]] else []) + Filter(s[1..], p)
  }

  /** `limit(limit).offset(offset)` for non-negative arguments: skip `offset`
      rows, then keep at most `limit`. */
  function Window<T>(s: seq<T>, limit: nat, offset: nat): (r: seq<T>)
    ensures offset >= |s| ==> r == []
    ensures offset < |s| ==> |r| == if limit < |s| - offset then limit else |s| - offset
    ensures forall i :: 0 <= i < |r| ==> offset + i < |s| && r[i] == s[offset + i]
  {
    if offset >= |s| then []
    else if limit < |s| - offset then s[offset..offset + limit]
    else s[offset..]
  }

  /** `update(table).filter(p).set(f)`: every row satisfying `p` is replaced by
      `f` of it, every other row is kept, and no row moves. */
  function UpdateWhere<T>(s: seq<T>, p: T -> bool, f: T -> T): (r: seq<T>)
    ensures |r| == |s|
    ensures forall i :: 0 <= i < |s| ==> r[i] == if p(s[i]) then f(s[i]) else s[i]
  {
    if |s| == 0 then []
    else [if p(s[0]) then f(s[0]) else s[0]] + UpdateWhere(s[1..], p, f)
  }

  /** The rows `p` rejects. */
  function Excluding<T>(p: T -> bool): T -> bool {
    x => !p(x)
  }

  /** `delete(table.filter(p))`: every copy of a row satisfying `p` is
      dropped, every other row is kept as often as it was stored, and nothing
      is added. */
  function DeleteWhere<T(!new)>(s: seq<T>, p: T -> bool): (r: seq<T>)
    ensures |r| <= |s|
    ensures forall x :: x in r <==> x in s && !p(x)
    ensures forall x :: multiset(r)[x] == if p(x) then 0 else multiset(s)[x]
  {
    FilterMultiset(s, Excluding(p));
    Filter(s, Excluding(p))
  }

  /** The predicate "this row's key is `k`", as `.find(k)` and `.filter(id.eq(k))` use it. */
  function KeyIs<T>(key: T -> int, k: int): T -> bool {
    x => key(x) == k
  }

  /** The set of keys present in a table. */
  function Keys<T>(s: seq<T>, key: T -> int): set<int> {
    if |s| == 0 then {} else {key(s[0])} + Keys(s[1..], key)
  }

  /** No two rows share a key: what a primary key guarantees. */
  predicate UniqueKeys<T>(s: seq<T>, key: T -> int) {
    |s| == 0 || (key(s[0]) !in Keys(s[1..], key) && UniqueKeys(s[1..], key))
  }

  /** The key the store assigns to an inserted row: larger than every key in use. */
  function NextId<T>(s: seq<T>, key: T -> int): (r: int)
    ensures r >= 1
    ensures forall k :: k in Keys(s, key) ==> k < r
    ensures r !in Keys(s, key)
  {
    if |s| == 0 then 1
    else
      var rest := NextId(s[1..], key);
      if key(s[0]) < rest then rest else key(s[0]) + 1
  }

  lemma {:induction false} KeysMember<T>(s: seq<T>, key: T -> int, k: int)
    ensures k in Keys(s, key) <==> exists i :: 0 <= i < |s| && key(s[i]) == k
  {
    if |s| > 0 {
      KeysMember(s[1..], key, k);
      if k in Keys(s[1..], key) {
        var i :| 0 <= i < |s[1..]| && key(s[1..][i]) == k;
        assert key(s[i + 1]) == k;
      }
      if exists i :: 0 <= i < |s| && key(s[i]) == k {
        var i :| 0 <= i < |s| && key(s[i]) == k;
        if i > 0 {
          assert key(s[1..][i - 1]) == k;
        }
      }
    }
  }

  /** A lookup by key succeeds exactly when the key is present. */
  lemma FirstKey<T>(s: seq<T>, key: T -> int, k: int)
    ensures First(s, KeyIs(key, k)).Some? <==> k in Keys(s, key)
  {
    KeysMember(s, key, k);
    var r := First(s, KeyIs(key, k));
    if r.None? {
      forall i | 0 <= i < |s| ensures key(s[i]) != k {
        assert !KeyIs(key, k)(s[i]);
      }
    }
  }

  /** A load by key returns something exactly when the key is present. */
  lemma FilterByKey<T(!new)>(s: seq<T>, key: T -> int, k: int)
    ensures Filter(s, KeyIs(key, k)) != [] <==> k in Keys(s, key)
  {
    FirstKey(s, key, k);
    if k in Keys(s, key) {
      var i := First(s, KeyIs(key, k)).value;
      assert s[i] in s;
    }
    if Filter(s, KeyIs(key, k)) != [] {
      FilterHead(s, KeyIs(key, k));
    }
  }

  /** A load by key returns only stored rows carrying that key. */
  lemma KeyFilterMembers<T(!new)>(s: seq<T>, key: T -> int, k: int)
    ensures forall x :: x in Filter(s, KeyIs(key, k)) ==> x in s && key(x) == k
  {
    forall x | x in Filter(s, KeyIs(key, k)) ensures x in s && key(x) == k {
      assert KeyIs(key, k)(x);
    }
  }

  lemma {:induction false} KeysOfMembers<T>(s: seq<T>, key: T -> int, x: T)
    requires x in s
    ensures key(x) in Keys(s, key)
  {
    if s[0] != x {
      KeysOfMembers(s[1..], key, x);
    }
  }

  lemma {:induction false} FilterAppend<T(!new)>(a: seq<T>, b: seq<T>, p: T -> bool)
    ensures Filter(a + b, p) == Filter(a, p) + Filter(b, p)
  {
    if |a| == 0 {
      assert a + b == b;
    } else {
      assert (a + b)[1..] == a[1..] + b;
      FilterAppend(a[1..], b, p);
    }
  }

  /** One step of a filter: the head row, if it passes, before the filtered rest. */
  lemma FilterCons<T(!new)>(s: seq<T>, p: T -> bool)
    requires |s| > 0
    ensures Filter(s, p) == (if p(s[0]) then [s[0]] + Filter(s[1..], p) else Filter(s[1..], p))
  {
  }

  /** A filter keeps every copy of a row that passes and no copy of one that fails. */
  lemma {:induction false} FilterMultiset<T(!new)>(s: seq<T>, p: T -> bool)
    ensures forall x :: multiset(Filter(s, p))[x] == if p(x) then multiset(s)[x] else 0
  {
    if |s| > 0 {
      FilterMultiset(s[1..], p);
      var head := if p(s[0]) then [s[0]] else [];
      var rest := Filter(s[1..], p);
      assert Filter(s, p) == head + rest;
      assert multiset(Filter(s, p)) == multiset(head) + multiset(rest);
      assert s == [s[0]] + s[1..];
      assert multiset(s) == multiset([s[0]]) + multiset(s[1..]);
    }
  }

  /** Filtering by `p` first changes nothing for a later filter `q` that only
      keeps rows `p` keeps. */
  lemma {:induction false} FilterFilter<T(!new)>(s: seq<T>, p: T -> bool, q: T -> bool)
    requires forall x :: q(x) ==> p(x)
    ensures Filter(Filter(s, p), q) == Filter(s, q)
  {
    if |s| > 0 {
      FilterFilter(s[1..], p, q);
      FilterCons(s, p);
      FilterCons(s, q);
      if p(s[0]) {
        FilterCons(Filter(s, p), q);
        assert Filter(s, p)[1..] == Filter(s[1..], p);
      }
    }
  }

  /** A filter that loads no row is satisfied by no row. */
  lemma FilterEmpty<T(!new)>(s: seq<T>, p: T -> bool)
    requires Filter(s, p) == []
    ensures forall x :: x in s ==> !p(x)
  {
  }

  /** A filter nothing satisfies loads no row. */
  lemma {:induction false} FilterNone<T(!new)>(s: seq<T>, p: T -> bool)
    requires forall x :: x in s ==> !p(x)
    ensures Filter(s, p) == []
  {
    if |s| > 0 {
      FilterNone(s[1..], p);
    }
  }

  /** What a query loads first is the row `first()` would return. */
  lemma {:induction false} FilterHead<T(!new)>(s: seq<T>, p: T -> bool)
    requires Filter(s, p) != []
    ensures First(s, p).Some? && Filter(s, p)[0] == s[First(s, p).value]
  {
    if !p(s[0]) {
      FilterHead(s[1..], p);
    }
  }

  lemma {:induction false} KeysAppend<T>(s: seq<T>, x: T, key: T -> int)
    ensures Keys(s + [x], key) == Keys(s, key) + {key(x)}
  {
    if |s| > 0 {
      assert (s + [x])[1..] == s[1..] + [x];
      KeysAppend(s[1..], x, key);
    } else {
      assert (s + [x])[1..] == [];
    }
  }

  lemma {:induction false} UniqueAppend<T>(s: seq<T>, x: T, key: T -> int)
    requires UniqueKeys(s, key)
    requires key(x) !in Keys(s, key)
    ensures UniqueKeys(s + [x], key)
  {
    if |s| > 0 {
      assert (s + [x])[1..] == s[1..] + [x];
      KeysAppend(s[1..], x, key);
      UniqueAppend(s[1..], x, key);
    } else {
      assert (s + [x])[1..] == [];
    }
  }

  lemma {:induction false} FilterKeys<T(!new)>(s: seq<T>, p: T -> bool, key: T -> int)
    ensures Keys(Filter(s, p), key) <= Keys(s, key)
    ensures UniqueKeys(s, key) ==> UniqueKeys(Filter(s, p), key)
  {
    if |s| > 0 {
      FilterKeys(s[1..], p, key);
      var rest := Filter(s[1..], p);
      if p(s[0]) {
        assert Filter(s, p) == [s[0]] + rest;
        assert ([s[0]] + rest)[1..] == rest;
      } else {
        assert Filter(s, p) == rest;
      }
    }
  }

  /** An update whose change keeps every row's key keeps the key set and its uniqueness. */
  lemma {:induction false} UpdateWhereKeys<T>(s: seq<T>, p: T -> bool, f: T -> T, key: T -> int)
    requires forall x :: key(f(x)) == key(x)
    ensures Keys(UpdateWhere(s, p, f), key) == Keys(s, key)
    ensures UniqueKeys(s, key) ==> UniqueKeys(UpdateWhere(s, p, f), key)
  {
    if |s| > 0 {
      UpdateWhereKeys(s[1..], p, f, key);
      var r := UpdateWhere(s, p, f);
      assert r[1..] == UpdateWhere(s[1..], p, f);
      assert key(r[0]) == key(s[0]);
    }
  }

  /** Under a primary key no later row repeats the first row's key. */
  lemma HeadKeyDistinct<T>(s: seq<T>, key: T -> int)
    requires |s| > 0 && UniqueKeys(s, key)
    ensures forall t :: 0 < t < |s| ==> key(s[t]) != key(s[0])
  {
    forall t | 0 < t < |s| ensures key(s[t]) != key(s[0]) {
      assert s[t] == s[1..][t - 1];
      KeysOfMembers(s[1..], key, s[t]);
    }
  }

  /** Under a primary key two rows with the same key are the same row. */
  lemma {:induction false} UniqueIndices<T>(s: seq<T>, key: T -> int, i: int, j: int)
    requires UniqueKeys(s, key)
    requires 0 <= i < |s| && 0 <= j < |s|
    requires key(s[i]) == key(s[j])
    ensures i == j
  {
    HeadKeyDistinct(s, key);
    if i != 0 && j != 0 {
      UniqueIndices(s[1..], key, i - 1, j - 1);
    }
  }

  /** Under a primary key, filtering by one key value yields at most one row. */
  lemma {:induction false} UniqueKeyFilter<T(!new)>(s: seq<T>, key: T -> int, k: int)
    requires UniqueKeys(s, key)
    ensures |Filter(s, KeyIs(key, k))| == if k in Keys(s, key) then 1 else 0
  {
    if |s| > 0 {
      UniqueKeyFilter(s[1..], key, k);
    }
  }
}
