/** Small helpers shared by every service: an optional value, a result that
    carries either a value or an error, and the row filter that every mapper
    query (`select ... where ...`) and batch delete (`delete ... where ...`)
    of the services comes down to. */
module Common {

  datatype Option<T> = None | Some(value: T)

  datatype Result<T, E> = Success(value: T) | Failure(error: E)

  /** The rows of `s` that satisfy `p`, in table order. */
  function Filter<T(!new)>(s: seq<T>, p: T -> bool): (r: seq<T>)
    ensures |r| <= |s|
    ensures forall x :: x in r <==> x in s && p(x)
  {
    if s == [] then []
    else if p(s[0]) then [s[0]] + Filter(s[1..], p)
    else Filter(s[1..], p)
  }

  /** Filtering distributes over the concatenation of two tables. */
  lemma {:induction false} FilterConcat<T(!new)>(a: seq<T>, b: seq<T>, p: T -> bool)
    ensures Filter(a + b, p) == Filter(a, p) + Filter(b, p)
  {
    if a == [] {
      assert a + b == b;
    } else {
      assert (a + b)[0] == a[0];
      assert (a + b)[1..] == a[1..] + b;
      FilterConcat(a[1..], b, p);
    }
  }

  /** A filter that every row passes keeps the whole table. */
  lemma {:induction false} FilterKeepsAll<T(!new)>(s: seq<T>, p: T -> bool)
    requires forall i :: 0 <= i < |s| ==> p(s[i])
    ensures Filter(s, p) == s
  {
    if s != [] {
      FilterKeepsAll(s[1..], p);
    }
  }

  /** A filter that no row passes keeps nothing. */
  lemma {:induction false} FilterKeepsNone<T(!new)>(s: seq<T>, p: T -> bool)
    requires forall x :: x in s ==> !p(x)
    ensures Filter(s, p) == []
  {
    if s != [] {
      assert s[0] in s;
      FilterKeepsNone(s[1..], p);
    }
  }

  /** Filtering by `q` after a weaker filter `p` is the same as filtering by `q`. */
  lemma {:induction false} FilterAfterWeaker<T(!new)>(s: seq<T>, p: T -> bool, q: T -> bool)
    requires forall x :: q(x) ==> p(x)
    ensures Filter(Filter(s, p), q) == Filter(s, q)
  {
    if s != [] {
      FilterAfterWeaker(s[1..], p, q);
    }
  }

  /** A stronger filter never keeps more rows than a weaker one: a count over a
      narrower condition is at most the count over the wider one. */
  lemma {:induction false} FilterLengthMonotone<T(!new)>(s: seq<T>, p: T -> bool, q: T -> bool)
    requires forall x :: p(x) ==> q(x)
    ensures |Filter(s, p)| <= |Filter(s, q)|
  {
    if s != [] {
      FilterLengthMonotone(s[1..], p, q);
    }
  }

  /** When `p` holds of exactly the rows that satisfy one of two exclusive
      conditions `q` and `r`, counting `p` is counting `q` and `r` apart. */
  lemma {:induction false} FilterLengthSplit<T(!new)>(s: seq<T>, p: T -> bool, q: T -> bool, r: T -> bool)
    requires forall x :: p(x) <==> q(x) || r(x)
    requires forall x :: !(q(x) && r(x))
    ensures |Filter(s, p)| == |Filter(s, q)| + |Filter(s, r)|
  {
    if s != [] {
      FilterLengthSplit(s[1..], p, q, r);
    }
  }

  /** `select ... where col = v`: the rows whose column `col` is `v`. */
  function SelectWhere<T(!new)>(rows: seq<T>, col: T -> int, v: int): (r: seq<T>)
    ensures forall x :: x in r <==> x in rows && col(x) == v
  {
    Filter(rows, x => col(x) == v)
  }

  /** `delete ... where col in (vs)`: the rows that survive the delete. */
  function DeleteWhereIn<T(!new)>(rows: seq<T>, col: T -> int, vs: seq<int>): (r: seq<T>)
    ensures forall x :: x in r <==> x in rows && col(x) !in vs
  {
    Filter(rows, x => col(x) !in vs)
  }

  /** `update ... set ... where col = v`: every row whose column is `v` is
      rewritten by `f`, and every other row stays where and as it was. */
  function UpdateWhere<T>(rows: seq<T>, col: T -> int, v: int, f: T -> T): (r: seq<T>)
    ensures |r| == |rows|
    ensures forall i :: 0 <= i < |r| ==> r[i] == if col(rows[i]) == v then f(rows[i]) else rows[i]
  {
    seq(|rows|, i requires 0 <= i < |rows| => if col(rows[i]) == v then f(rows[i]) else rows[i])
  }

  /** An update that leaves the column value of the rows it rewrites as it was
      changes no row's value in that column, keeps the column a key when it
      was one, and leaves the rows under every other value as they were. */
  lemma {:induction false} UpdateWhereKeepsOthers<T(!new)>(rows: seq<T>, col: T -> int, v: int, f: T -> T)
    requires forall x :: col(x) == v ==> col(f(x)) == v
    ensures forall i :: 0 <= i < |rows| ==> col(UpdateWhere(rows, col, v, f)[i]) == col(rows[i])
    ensures KeysDistinct(rows, col) ==> KeysDistinct(UpdateWhere(rows, col, v, f), col)
    ensures forall w :: w != v ==> SelectWhere(UpdateWhere(rows, col, v, f), col, w) == SelectWhere(rows, col, w)
  {
    if rows != [] {
      var r := UpdateWhere(rows, col, v, f);
      assert r[1..] == UpdateWhere(rows[1..], col, v, f);
      UpdateWhereKeepsOthers(rows[1..], col, v, f);
      forall w | w != v
        ensures SelectWhere(r, col, w) == SelectWhere(rows, col, w)
      {
        assert SelectWhere(r[1..], col, w) == SelectWhere(rows[1..], col, w);
        if col(rows[0]) == v {
          assert col(r[0]) == v;
        } else {
          assert r[0] == rows[0];
        }
      }
    }
  }

  /** No two rows share a value in column `col`: the column is a key. */
  predicate KeysDistinct<T>(rows: seq<T>, col: T -> int)
  {
    forall i, j :: 0 <= i < j < |rows| ==> col(rows[i]) != col(rows[j])
  }

  /** Filtering keeps a key a key. */
  lemma {:induction false} FilterKeepsKeysDistinct<T(!new)>(s: seq<T>, p: T -> bool, col: T -> int)
    requires KeysDistinct(s, col)
    ensures KeysDistinct(Filter(s, p), col)
  {
    if s != [] {
      FilterKeepsKeysDistinct(s[1..], p, col);
      forall x | x in Filter(s[1..], p)
        ensures col(x) != col(s[0])
      {
        var k :| 0 <= k < |s[1..]| && s[1..][k] == x;
        assert s[k + 1] == x;
      }
    }
  }

  /** A rewrite row by row that keeps every row's value in column `col` keeps
      every value of the column below `bound` when they were below it. */
  lemma KeysBelowAfterRewrite<T>(before: seq<T>, after: seq<T>, col: T -> int, bound: int)
    requires |after| == |before|
    requires forall i :: 0 <= i < |after| ==> col(after[i]) == col(before[i])
    requires forall x :: x in before ==> col(x) < bound
    ensures forall x :: x in after ==> col(x) < bound
  {
    forall x | x in after
      ensures col(x) < bound
    {
      var i :| 0 <= i < |after| && after[i] == x;
      assert before[i] in before;
    }
  }

  /** A batch delete keeps a key a key. */
  lemma DeleteWhereInKeepsKeys<T(!new)>(rows: seq<T>, col: T -> int, vs: seq<int>)
    requires KeysDistinct(rows, col)
    ensures KeysDistinct(DeleteWhereIn(rows, col, vs), col)
  {
    FilterKeepsKeysDistinct(rows, x => col(x) !in vs, col);
  }

  /** Deleting the rows whose column is `v` and inserting `added`, all of which
      have `v` in that column, leaves exactly `added` under `v` and every other
      value of the column with the rows it had. */
  lemma ReplaceWhere<T(!new)>(rows: seq<T>, col: T -> int, v: int, added: seq<T>)
    requires forall x :: x in added ==> col(x) == v
    ensures SelectWhere(DeleteWhereIn(rows, col, [v]) + added, col, v) == added
    ensures forall w :: w != v ==>
      SelectWhere(DeleteWhereIn(rows, col, [v]) + added, col, w) == SelectWhere(rows, col, w)
  {
    var kept := DeleteWhereIn(rows, col, [v]);
    FilterConcat(kept, added, x => col(x) == v);
    FilterKeepsNone(kept, x => col(x) == v);
    FilterKeepsAll(added, x => col(x) == v);
    forall w | w != v
      ensures SelectWhere(kept + added, col, w) == SelectWhere(rows, col, w)
    {
      FilterConcat(kept, added, x => col(x) == w);
      FilterAfterWeaker(rows, x => col(x) !in [v], x => col(x) == w);
      FilterKeepsNone(added, x => col(x) == w);
    }
  }

  /** The sum of a list of counts (`stream().reduce(Integer::sum)` on a non-empty list). */
  function Sum(xs: seq<int>): int
  {
    if xs == [] then 0 else xs[0] + Sum(xs[1..])
  }

  /** `Stream.reduce(Integer::sum)`: empty on an empty list, otherwise the sum. */
  function ReduceSum(xs: seq<int>): (r: Option<int>)
    ensures r.None? <==> xs == []
  {
    if xs == [] then None else Some(Sum(xs))
  }
}
