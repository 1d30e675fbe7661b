/** Order-preserving filtering of sequences (LINQ `Where`) and facts about it. */
module Seqs {

  /** The entries of `s` that satisfy `p`, in order (`Where`). */
  function Where<T>(s: seq<T>, p: T -> bool): (r: seq<T>)
    ensures |r| <= |s|
  {
    if s == [] then [] else (if p(s[0]) then [s[0]] else []) + Where(s[1..], p)
  }

  /** The concatenation of a sequence of sequences, in order (`SelectMany`). */
  function Flatten<T>(ss: seq<seq<T>>): seq<T> {
    if ss == [] then [] else ss[0] + Flatten(ss[1..])
  }

  /** Nothing is kept exactly when no element satisfies `p`. */
  lemma {:induction false} WhereEmpty<T>(s: seq<T>, p: T -> bool)
    ensures Where(s, p) == [] <==> forall i :: 0 <= i < |s| ==> !p(s[i])
  {
    if s != [] {
      WhereEmpty(s[1..], p);
      assert forall i :: 0 < i < |s| ==> s[i] == s[1..][i - 1];
    }
  }

  /** Index `i` is the one and only position whose element satisfies `p`. */
  predicate OnlyAt<T>(s: seq<T>, p: T -> bool, i: int) {
    0 <= i < |s| && p(s[i]) && forall j :: 0 <= j < |s| && p(s[j]) ==> j == i
  }

  lemma {:induction false} WhereOfOnly<T>(s: seq<T>, p: T -> bool, i: int)
    requires OnlyAt(s, p, i)
    ensures Where(s, p) == [s[i]]
  {
    var rest := s[1..];
    assert forall j :: 0 <= j < |rest| ==> rest[j] == s[j + 1];
    if i == 0 {
      WhereEmpty(rest, p);
    } else {
      assert !p(s[0]);
      WhereOfOnly(rest, p, i - 1);
    }
  }

  lemma {:induction false} OnlyOfWhere<T>(s: seq<T>, p: T -> bool) returns (i: int)
    requires |Where(s, p)| == 1
    ensures OnlyAt(s, p, i) && Where(s, p) == [s[i]]
  {
    var rest := s[1..];
    assert forall j :: 0 < j < |s| ==> s[j] == rest[j - 1];
    if p(s[0]) {
      WhereEmpty(rest, p);
      i := 0;
    } else {
      var k := OnlyOfWhere(rest, p);
      i := k + 1;
    }
  }

  /** `Where` keeps exactly the entries that satisfy `p`. */
  lemma WhereExactly<T>(s: seq<T>, p: T -> bool)
    ensures forall x :: x in Where(s, p) <==> x in s && p(x)
  {
    forall x ensures x in Where(s, p) <==> x in s && p(x) {
      WhereMembers(s, p, x);
    }
  }

  lemma {:induction false} WhereMembers<T>(s: seq<T>, p: T -> bool, x: T)
    ensures x in Where(s, p) <==> x in s && p(x)
  {
    if s != [] {
      WhereMembers(s[1..], p, x);
      assert s == [s[0]] + s[1..];
    }
  }

  lemma {:induction false} WhereAppend<T>(a: seq<T>, b: seq<T>, p: T -> bool)
    ensures Where(a + b, p) == Where(a, p) + Where(b, p)
  {
    if a != [] {
      assert (a + b)[0] == a[0] && (a + b)[1..] == a[1..] + b;
      WhereAppend(a[1..], b, p);
    } else {
      assert a + b == b;
    }
  }

  /** Two kept elements keep their relative order in the filtered sequence. */
  lemma {:induction false} WhereKeepsOrder<T>(s: seq<T>, p: T -> bool, i: int, j: int)
    requires 0 <= i < j < |s| && p(s[i]) && p(s[j])
    ensures exists a, b :: 0 <= a < b < |Where(s, p)| && Where(s, p)[a] == s[i] && Where(s, p)[b] == s[j]
  {
    var rest := s[1..];
    var w := Where(rest, p);
    assert s[j] == rest[j - 1];
    if i == 0 {
      WhereMembers(rest, p, s[j]);
      var b :| 0 <= b < |w| && w[b] == s[j];
      assert Where(s, p) == [s[0]] + w;
      assert Where(s, p)[0] == s[i] && Where(s, p)[b + 1] == s[j];
    } else {
      assert s[i] == rest[i - 1];
      WhereKeepsOrder(rest, p, i - 1, j - 1);
      var a, b :| 0 <= a < b < |w| && w[a] == s[i] && w[b] == s[j];
      var h := if p(s[0]) then [s[0]] else [];
      assert Where(s, p) == h + w;
      assert Where(s, p)[|h| + a] == s[i] && Where(s, p)[|h| + b] == s[j];
    }
  }

  /** Two positions of the filtered sequence come from positions of the input in the same order. */
  lemma {:induction false} WhereFromOrder<T>(s: seq<T>, p: T -> bool, a: int, b: int)
    requires 0 <= a < b < |Where(s, p)|
    ensures exists i, j :: 0 <= i < j < |s| && s[i] == Where(s, p)[a] && s[j] == Where(s, p)[b]
  {
    var rest := s[1..];
    var w := Where(rest, p);
    var h := if p(s[0]) then [s[0]] else [];
    assert Where(s, p) == h + w;
    if p(s[0]) && a == 0 {
      WhereMembers(rest, p, w[b - 1]);
      var j :| 0 <= j < |rest| && rest[j] == w[b - 1];
      assert s[0] == Where(s, p)[a] && s[j + 1] == Where(s, p)[b];
    } else {
      WhereFromOrder(rest, p, a - |h|, b - |h|);
      var i, j :| 0 <= i < j < |rest| && rest[i] == w[a - |h|] && rest[j] == w[b - |h|];
      assert s[i + 1] == Where(s, p)[a] && s[j + 1] == Where(s, p)[b];
    }
  }
}
