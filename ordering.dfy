/** LINQ `OrderBy`: a stable sort by a total preorder, modelled as insertion sort. */
module Ordering {
  import opened Seqs

  /** `le` is total and transitive, as a key comparer of `OrderBy` must be. */
  ghost predicate TotalPreorder<T(!new)>(le: (T, T) -> bool) {
    (forall a, b :: le(a, b) || le(b, a))
    && (forall a, b, c :: le(a, b) && le(b, c) ==> le(a, c))
  }

  /** Every element sorts at or before every later one. */
  ghost predicate SortedBy<T>(s: seq<T>, le: (T, T) -> bool) {
    forall i, j :: 0 <= i < j < |s| ==> le(s[i], s[j])
  }

  /** Elements that compare equal to `v` (the ties of `v`). */
  function TiesOf<T>(le: (T, T) -> bool, v: T): T -> bool {
    (x: T) => le(x, v) && le(v, x)
  }

  /** Insert `x` before the first element it sorts at or before. */
  function InsertBy<T>(x: T, t: seq<T>, le: (T, T) -> bool): seq<T> {
    if t == [] || le(x, t[0]) then [x] + t else [t[0]] + InsertBy(x, t[1..], le)
  }

  /** `s.OrderBy(...)` with the key comparison folded into `le`. */
  function SortBy<T>(s: seq<T>, le: (T, T) -> bool): seq<T> {
    if s == [] then [] else InsertBy(s[0], SortBy(s[1..], le), le)
  }

  lemma {:induction false} InsertBySorted<T(!new)>(x: T, t: seq<T>, le: (T, T) -> bool)
    requires TotalPreorder(le) && SortedBy(t, le)
    ensures multiset(InsertBy(x, t, le)) == multiset(t) + multiset{x}
    ensures SortedBy(InsertBy(x, t, le), le)
  {
    if t == [] {
    } else if le(x, t[0]) {
      var r := [x] + t;
      forall i, j | 0 <= i < j < |r| ensures le(r[i], r[j]) {
        if i == 0 && j > 1 {
          assert le(t[0], t[j - 1]);
        }
      }
    } else {
      var rest := InsertBy(x, t[1..], le);
      assert SortedBy(t[1..], le) by {
        forall i, j | 0 <= i < j < |t[1..]| ensures le(t[1..][i], t[1..][j]) {
          assert t[1..][i] == t[i + 1] && t[1..][j] == t[j + 1];
        }
      }
      InsertBySorted(x, t[1..], le);
      assert t == [t[0]] + t[1..];
      var r := [t[0]] + rest;
      forall i, j | 0 <= i < j < |r| ensures le(r[i], r[j]) {
        if i == 0 {
          assert r[j] in multiset(rest);
          assert r[j] == x || r[j] in t[1..];
          if r[j] != x {
            var k :| 0 <= k < |t[1..]| && t[1..][k] == r[j];
            assert le(t[0], t[k + 1]);
          }
        }
      }
    }
  }

  /** The sort is a permutation and leaves its output sorted. */
  lemma {:induction false} SortBySorted<T(!new)>(s: seq<T>, le: (T, T) -> bool)
    requires TotalPreorder(le)
    ensures multiset(SortBy(s, le)) == multiset(s)
    ensures SortedBy(SortBy(s, le), le)
  {
    if s != [] {
      SortBySorted(s[1..], le);
      InsertBySorted(s[0], SortBy(s[1..], le), le);
      assert s == [s[0]] + s[1..];
    }
  }

  lemma {:induction false} InsertByTies<T(!new)>(x: T, t: seq<T>, le: (T, T) -> bool, v: T)
    requires TotalPreorder(le)
    ensures Where(InsertBy(x, t, le), TiesOf(le, v)) == Where([x], TiesOf(le, v)) + Where(t, TiesOf(le, v))
  {
    var p := TiesOf(le, v);
    assert [x][1..] == [];
    if t == [] || le(x, t[0]) {
      WhereAppend([x], t, p);
    } else {
      InsertByTies(x, t[1..], le, v);
      assert [t[0]][1..] == [];
      WhereAppend([t[0]], InsertBy(x, t[1..], le), p);
      assert !(p(x) && p(t[0]));
    }
  }

  /** Stability: the elements tied with any `v` come out in their input order. */
  lemma {:induction false} SortByStable<T(!new)>(s: seq<T>, le: (T, T) -> bool, v: T)
    requires TotalPreorder(le)
    ensures Where(SortBy(s, le), TiesOf(le, v)) == Where(s, TiesOf(le, v))
  {
    if s != [] {
      SortByStable(s[1..], le, v);
      InsertByTies(s[0], SortBy(s[1..], le), le, v);
      assert [s[0]][1..] == [];
    }
  }

  /** Stability by position: two tied elements of the output appear in that
      order in the input too. */
  lemma SortByTiesInInputOrder<T(!new)>(s: seq<T>, le: (T, T) -> bool, i: int, j: int)
    requires TotalPreorder(le)
    requires 0 <= i < j < |SortBy(s, le)|
    requires le(SortBy(s, le)[i], SortBy(s, le)[j]) && le(SortBy(s, le)[j], SortBy(s, le)[i])
    ensures exists i', j' :: 0 <= i' < j' < |s| && s[i'] == SortBy(s, le)[i] && s[j'] == SortBy(s, le)[j]
  {
    var r := SortBy(s, le);
    var p := TiesOf(le, r[i]);
    SortByStable(s, le, r[i]);
    WhereKeepsOrder(r, p, i, j);
    var a, b :| 0 <= a < b < |Where(r, p)| && Where(r, p)[a] == r[i] && Where(r, p)[b] == r[j];
    WhereFromOrder(s, p, a, b);
  }
}
