/** The part of a relational query API the CRM backend relies on, over tables
    held as sequences of rows: filtering, ordering by a key, projecting a
    column, fetching the single matching row, and allocating a new key. */
module Querysets {
  import opened Results

  /** Rows are ordered by `key`, ties allowed. */
  ghost predicate SortedBy<T>(s: seq<T>, key: T -> int) {
    forall i, j :: 0 <= i < j < |s| ==> key(s[i]) <= key(s[j])
  }

  /** Rows are ordered by `key` with no two rows sharing a key. */
  ghost predicate StrictlyAscending<T>(s: seq<T>, key: T -> int) {
    forall i, j :: 0 <= i < j < |s| ==> key(s[i]) < key(s[j])
  }

  /** No two rows share a key: what a primary key guarantees of a table. */
  ghost predicate DistinctKeys<T, U>(s: seq<T>, key: T -> U) {
    forall i, j :: 0 <= i < |s| && 0 <= j < |s| && key(s[i]) == key(s[j]) ==> i == j
  }

  /** `filter(p)`: the rows satisfying `p`, each as often as in `s`, in their order. */
  function Where<T(==,!new)>(s: seq<T>, p: T -> bool): (r: seq<T>)
    ensures forall x :: multiset(r)[x] == if p(x) then multiset(s)[x] else 0
    ensures forall x :: x in r <==> x in s && p(x)
  {
    if s == [] then []
    else
      var rest := Where(s[1..], p);
      assert s == [s[0]] + s[1..];
      if p(s[0]) then [s[0]] + rest else rest
  }

  /** Taking a sub-sequence keeps keys distinct. */
  lemma {:induction false} WhereKeepsDistinct<T(!new)>(s: seq<T>, p: T -> bool, key: T -> int)
    requires DistinctKeys(s, key)
    ensures DistinctKeys(Where(s, p), key)
  {
    if s != [] {
      WhereKeepsDistinct(s[1..], p, key);
      var rest := Where(s[1..], p);
      if p(s[0]) {
        forall y | y in rest ensures key(y) != key(s[0]) {
          var j :| 0 <= j < |s[1..]| && s[1..][j] == y;
          assert s[j + 1] == y;
        }
        var r := [s[0]] + rest;
        forall i, j | 0 <= i < j < |r| ensures key(r[i]) != key(r[j]) {
          if i == 0 { assert r[j] in rest; } else { assert r[i] == rest[i - 1] && r[j] == rest[j - 1]; }
        }
      }
    }
  }

  /** Inserts `x` into a sequence already ordered by `key`, before the first row
      whose key is not smaller. */
  function Insert<T(==,!new)>(x: T, s: seq<T>, key: T -> int): (r: seq<T>)
    requires SortedBy(s, key)
    ensures SortedBy(r, key)
    ensures multiset(r) == multiset(s) + multiset{x}
    ensures StrictlyAscending(s, key) && (forall y :: y in s ==> key(y) != key(x)) ==> StrictlyAscending(r, key)
  {
    if s == [] then [x]
    else if key(x) <= key(s[0]) then [x] + s
    else
      var rest := Insert(x, s[1..], key);
      assert s == [s[0]] + s[1..];
      InsertedAfterHead(x, s, rest, key);
      [s[0]] + rest
  }

  /** The recursive step of Insert: every row of `rest` (the tail with `x` put
      in) has a key at least the head's, so the head may go first. */
  lemma InsertedAfterHead<T(!new)>(x: T, s: seq<T>, rest: seq<T>, key: T -> int)
    requires s != [] && SortedBy(s, key) && key(s[0]) < key(x)
    requires multiset(rest) == multiset(s[1..]) + multiset{x}
    requires SortedBy(rest, key)
    requires StrictlyAscending(s[1..], key) && (forall y :: y in s[1..] ==> key(y) != key(x)) ==> StrictlyAscending(rest, key)
    ensures SortedBy([s[0]] + rest, key)
    ensures StrictlyAscending(s, key) && (forall y :: y in s ==> key(y) != key(x)) ==> StrictlyAscending([s[0]] + rest, key)
  {
    forall y | y in rest ensures key(s[0]) <= key(y) && (StrictlyAscending(s, key) ==> key(s[0]) < key(y)) {
      assert y in multiset(rest);
      if y != x {
        assert y in multiset(s[1..]);
        var j :| 0 <= j < |s[1..]| && s[1..][j] == y;
        assert s[j + 1] == y;
      }
    }
    if StrictlyAscending(s, key) && (forall y :: y in s ==> key(y) != key(x)) {
      assert StrictlyAscending(s[1..], key) by {
        forall i, j | 0 <= i < j < |s[1..]| ensures key(s[1..][i]) < key(s[1..][j]) {
          assert s[1..][i] == s[i + 1] && s[1..][j] == s[j + 1];
        }
      }
      assert forall y :: y in s[1..] ==> y in s;
    }
    var r := [s[0]] + rest;
    forall i, j | 0 <= i < j < |r| ensures key(r[i]) <= key(r[j]) {
      if i > 0 { assert r[i] == rest[i - 1] && r[j] == rest[j - 1]; } else { assert r[j] in rest; }
    }
    if StrictlyAscending(s, key) && (forall y :: y in s ==> key(y) != key(x)) {
      forall i, j | 0 <= i < j < |r| ensures key(r[i]) < key(r[j]) {
        if i > 0 { assert r[i] == rest[i - 1] && r[j] == rest[j - 1]; } else { assert r[j] in rest; }
      }
    }
  }

  /** When `s` has distinct keys, so has its tail, and no row that is a
      rearrangement of the tail shares the head's key. */
  lemma HeadKeyDiffers<T(!new)>(s: seq<T>, rest: seq<T>, key: T -> int)
    requires s != [] && multiset(rest) == multiset(s[1..])
    ensures DistinctKeys(s, key) ==> DistinctKeys(s[1..], key)
    ensures DistinctKeys(s, key) ==> forall y :: y in rest ==> key(y) != key(s[0])
  {
    if DistinctKeys(s, key) {
      forall i, j | 0 <= i < j < |s[1..]| ensures key(s[1..][i]) != key(s[1..][j]) {
        assert s[1..][i] == s[i + 1] && s[1..][j] == s[j + 1];
      }
      forall y | y in rest ensures key(y) != key(s[0]) {
        assert y in multiset(s[1..]);
        var j :| 0 <= j < |s[1..]| && s[1..][j] == y;
        assert s[j + 1] == y;
      }
    }
  }

  /** `order_by(key)`: the same rows, rearranged into ascending key order. */
  function OrderBy<T(==,!new)>(s: seq<T>, key: T -> int): (r: seq<T>)
    ensures multiset(r) == multiset(s)
    ensures SortedBy(r, key)
    ensures DistinctKeys(s, key) ==> StrictlyAscending(r, key)
  {
    if s == [] then []
    else
      var rest := OrderBy(s[1..], key);
      assert s == [s[0]] + s[1..];
      HeadKeyDiffers(s, rest, key);
      Insert(s[0], rest, key)
  }

  /** `filter(p).order_by(key)`: the rows satisfying `p`, each as often as in
      `s`, ordered by `key`; strictly ascending when `key` is a primary key. */
  function FilterOrdered<T(==,!new)>(s: seq<T>, p: T -> bool, key: T -> int): (r: seq<T>)
    ensures forall x :: multiset(r)[x] == if p(x) then multiset(s)[x] else 0
    ensures SortedBy(r, key)
    ensures DistinctKeys(s, key) ==> StrictlyAscending(r, key)
  {
    WhereKeepsDistinctWhen(s, p, key);
    OrderBy(Where(s, p), key)
  }

  lemma WhereKeepsDistinctWhen<T(!new)>(s: seq<T>, p: T -> bool, key: T -> int)
    ensures DistinctKeys(s, key) ==> DistinctKeys(Where(s, p), key)
  {
    if DistinctKeys(s, key) {
      WhereKeepsDistinct(s, p, key);
    }
  }

  /** `values(column)` flattened: the column `f` of every row, in order. */
  function Column<T, U>(s: seq<T>, f: T -> U): (r: seq<U>)
    ensures |r| == |s|
    ensures forall i :: 0 <= i < |s| ==> r[i] == f(s[i])
  {
    seq(|s|, i requires 0 <= i < |s| => f(s[i]))
  }

  /** `objects.get(...)`: the one row satisfying `p`, DoesNotExist when there is
      none, MultipleObjectsReturned when there are several. */
  function Get<T(==,!new)>(s: seq<T>, p: T -> bool): (r: Result<T>)
    ensures r.Ok? ==> r.value in s && p(r.value) && forall y :: y in s && p(y) ==> y == r.value
    ensures r == Err(DoesNotExist) <==> forall y :: y in s ==> !p(y)
    ensures r.Ok? || r == Err(DoesNotExist) || r == Err(MultipleObjectsReturned)
  {
    var m := Where(s, p);
    if |m| == 0 then Err(DoesNotExist)
    else if |m| == 1 then
      assert forall y :: y in s && p(y) ==> y in m;
      Ok(m[0])
    else
      assert m[0] in s && p(m[0]);
      Err(MultipleObjectsReturned)
  }

  /** At most one row satisfies `p` when no two positions both do. */
  lemma {:induction false} WhereAtMostOne<T(!new)>(s: seq<T>, p: T -> bool)
    requires forall i, j :: 0 <= i < j < |s| ==> !(p(s[i]) && p(s[j]))
    ensures |Where(s, p)| <= 1
  {
    if s != [] {
      WhereAtMostOne(s[1..], p);
      if p(s[0]) {
        forall y | y in s[1..] ensures !p(y) {
          var j :| 0 <= j < |s[1..]| && s[1..][j] == y;
          assert s[j + 1] == y;
        }
        assert forall x :: x !in Where(s[1..], p);
      }
    }
  }

  /** `objects.get(<column>=k)` for a column `key`. */
  function GetByKey<T(==,!new), U(==,!new)>(s: seq<T>, key: T -> U, k: U): (r: Result<T>)
    ensures r.Ok? ==> r.value in s && key(r.value) == k
    ensures r == Err(DoesNotExist) <==> k !in Keys(s, key)
    ensures DistinctKeys(s, key) && k in Keys(s, key) ==> r.Ok?
    ensures r.Ok? || r == Err(DoesNotExist) || r == Err(MultipleObjectsReturned)
  {
    var p := (x: T) => key(x) == k;
    KeyMatchesAtMostOnce(s, key, k, p);
    Get(s, p)
  }

  lemma KeyMatchesAtMostOnce<T(!new), U(!new)>(s: seq<T>, key: T -> U, k: U, p: T -> bool)
    requires forall x :: p(x) == (key(x) == k)
    ensures DistinctKeys(s, key) ==> |Where(s, p)| <= 1
  {
    if DistinctKeys(s, key) {
      WhereAtMostOne(s, p);
    }
  }

  /** The key one more than the largest in use (1 for an empty table), as an
      auto-increment primary key allocates it. */
  function FreshKey<T>(s: seq<T>, key: T -> int): (k: int)
    ensures k >= 1
    ensures forall i :: 0 <= i < |s| ==> key(s[i]) < k
  {
    if s == [] then 1
    else
      var rest := FreshKey(s[1..], key);
      assert forall i :: 1 <= i < |s| ==> s[i] == s[1..][i - 1];
      if key(s[0]) + 1 > rest then key(s[0]) + 1 else rest
  }

  /** Saving a row whose key is already in use: every row with that key is
      replaced by `x`, the others are untouched. */
  function Replace<T, U(==)>(s: seq<T>, key: T -> U, x: T): (r: seq<T>)
    ensures |r| == |s|
    ensures forall i :: 0 <= i < |s| ==> r[i] == if key(s[i]) == key(x) then x else s[i]
  {
    seq(|s|, i requires 0 <= i < |s| => if key(s[i]) == key(x) then x else s[i])
  }

  /** The keys in use in a table. */
  function Keys<T, U(==)>(s: seq<T>, key: T -> U): (ks: set<U>)
    ensures forall i :: 0 <= i < |s| ==> key(s[i]) in ks
  {
    set i | 0 <= i < |s| :: key(s[i])
  }

  /** `save()` of a row: an update when its key is in use, an insert at the end
      otherwise. */
  function Upsert<T, U(==)>(s: seq<T>, key: T -> U, x: T): (r: seq<T>)
    ensures key(x) in Keys(s, key) ==> r == Replace(s, key, x)
    ensures key(x) !in Keys(s, key) ==> r == s + [x]
  {
    if key(x) in Keys(s, key) then Replace(s, key, x) else s + [x]
  }

  /** After saving `x`, the rows are `x` and rows that were there before. */
  lemma UpsertRows<T(!new), U(!new)>(s: seq<T>, key: T -> U, x: T)
    ensures key(x) in Keys(Upsert(s, key, x), key)
    ensures forall y :: y in Upsert(s, key, x) ==> y == x || y in s
    ensures forall k :: k in Keys(s, key) ==> k in Keys(Upsert(s, key, x), key)
  {
    var r := Upsert(s, key, x);
    if key(x) in Keys(s, key) {
      var i :| 0 <= i < |s| && key(s[i]) == key(x);
      assert r[i] == x;
      forall k | k in Keys(s, key) ensures k in Keys(r, key) {
        var j :| 0 <= j < |s| && key(s[j]) == k;
        assert key(r[j]) == k;
      }
    } else {
      assert r[|s|] == x;
      forall k | k in Keys(s, key) ensures k in Keys(r, key) {
        var j :| 0 <= j < |s| && key(s[j]) == k;
        assert r[j] == s[j];
      }
    }
  }

  /** Saving `x` adds its key to those in use and no other. */
  lemma UpsertKeys<T(!new), U(!new)>(s: seq<T>, key: T -> U, x: T)
    ensures Keys(Upsert(s, key, x), key) == Keys(s, key) + {key(x)}
  {
    var r := Upsert(s, key, x);
    UpsertRows(s, key, x);
    forall k | k in Keys(r, key) ensures k in Keys(s, key) + {key(x)} {
      var i :| 0 <= i < |r| && key(r[i]) == k;
      assert r[i] in r;
    }
  }

  /** After saving `x` it is stored, and so is every row under another key. */
  lemma UpsertKeepsOthers<T(!new), U(!new)>(s: seq<T>, key: T -> U, x: T)
    ensures x in Upsert(s, key, x)
    ensures forall y :: y in s && key(y) != key(x) ==> y in Upsert(s, key, x)
  {
    var r := Upsert(s, key, x);
    if key(x) in Keys(s, key) {
      var i :| 0 <= i < |s| && key(s[i]) == key(x);
      assert r[i] == x;
      forall y | y in s && key(y) != key(x) ensures y in r {
        var j :| 0 <= j < |s| && s[j] == y;
        assert r[j] == y;
      }
    } else {
      assert r[|s|] == x;
      forall y | y in s && key(y) != key(x) ensures y in r {
        var j :| 0 <= j < |s| && s[j] == y;
        assert r[j] == y;
      }
    }
  }

  /** `after` is `before` with `x` saved: `x` is stored, every row under
      another key is kept, and no other row appears. */
  ghost predicate SavedOver<T, U>(before: seq<T>, after: seq<T>, key: T -> U, x: T) {
    && x in after
    && (forall y :: y in before && key(y) != key(x) ==> y in after)
    && (forall y :: y in after ==> y == x || y in before)
  }

  lemma UpsertSavesOver<T(!new), U(!new)>(s: seq<T>, key: T -> U, x: T)
    ensures SavedOver(s, Upsert(s, key, x), key, x)
  {
    UpsertKeepsOthers(s, key, x);
    UpsertRows(s, key, x);
  }

  /** Saving `x` keeps a secondary attribute unique when no row under another
      key already carries `x`'s value of it. */
  lemma UpsertKeepsUnique<T(!new), U(!new), V(!new)>(s: seq<T>, key: T -> U, other: T -> V, x: T)
    requires DistinctKeys(s, key) && DistinctKeys(s, other)
    requires forall y :: y in s && key(y) != key(x) ==> other(y) != other(x)
    ensures DistinctKeys(Upsert(s, key, x), other)
  {
    var r := Upsert(s, key, x);
    if key(x) in Keys(s, key) {
      forall i, j | 0 <= i < j < |r| ensures other(r[i]) != other(r[j]) {
        if key(s[i]) == key(x) {
          assert key(s[j]) != key(x);
        } else if key(s[j]) == key(x) {
          assert key(s[i]) != key(x);
        }
      }
    } else {
      forall i, j | 0 <= i < j < |r| ensures other(r[i]) != other(r[j]) {
        if j == |s| { assert r[i] == s[i]; } else { assert r[i] == s[i] && r[j] == s[j]; }
      }
    }
  }

  /** Two tables whose rows agree position by position on a column have the
      same values in it, and one has them distinct when the other has. */
  lemma SameColumn<T, U>(s: seq<T>, t: seq<T>, key: T -> U)
    requires |s| == |t| && forall i :: 0 <= i < |s| ==> key(s[i]) == key(t[i])
    ensures Keys(s, key) == Keys(t, key)
    ensures DistinctKeys(s, key) ==> DistinctKeys(t, key)
  {
    assert forall k :: k in Keys(s, key) ==> k in Keys(t, key);
    assert forall k :: k in Keys(t, key) ==> k in Keys(s, key);
  }

  /** A value is in the column of the rows satisfying `p` exactly when some
      row satisfying `p` carries it. */
  lemma ColumnOfWhere<T(!new), U(!new)>(s: seq<T>, p: T -> bool, f: T -> U)
    ensures forall x :: x in Column(Where(s, p), f) <==> exists y :: y in s && p(y) && f(y) == x
  {
    var w := Where(s, p);
    var col := Column(w, f);
    forall x | x in col ensures exists y :: y in s && p(y) && f(y) == x {
      var i :| 0 <= i < |col| && col[i] == x;
      assert w[i] in w;
    }
    forall x | exists y :: y in s && p(y) && f(y) == x ensures x in col {
      var y :| y in s && p(y) && f(y) == x;
      assert y in w;
      var i :| 0 <= i < |w| && w[i] == y;
      assert col[i] == x;
    }
  }
}
