/** String helpers the analyzer relies on: ordinal comparison, suffix tests,
    file names of archive paths, and comma-separated fields. */
module Text {

  /** Ordinal (character-code) three-way comparison of two strings, the
      shape of `String.CompareTo`: -1, 0 or 1. */
  function Ordinal(a: string, b: string): (r: int)
    ensures -1 <= r <= 1
    ensures r == 0 ==> |a| == |b|
  {
    if a == [] && b == [] then 0
    else if a == [] then -1
    else if b == [] then 1
    else if a[0] < b[0] then -1
    else if b[0] < a[0] then 1
    else Ordinal(a[1..], b[1..])
  }

  /** `a` sorts at or before `b` in ordinal order. */
  predicate OrdinalLe(a: string, b: string) {
    Ordinal(a, b) <= 0
  }

  lemma {:induction false} OrdinalAntisymmetric(a: string, b: string)
    ensures Ordinal(a, b) == -Ordinal(b, a)
  {
    if a != [] && b != [] && a[0] == b[0] {
      OrdinalAntisymmetric(a[1..], b[1..]);
    }
  }

  lemma {:induction false} OrdinalZeroIff(a: string, b: string)
    ensures Ordinal(a, b) == 0 <==> a == b
  {
    if a != [] && b != [] && a[0] == b[0] {
      OrdinalZeroIff(a[1..], b[1..]);
      assert a == [a[0]] + a[1..] && b == [b[0]] + b[1..];
    }
  }

  lemma {:induction false} OrdinalTransitive(a: string, b: string, c: string)
    requires OrdinalLe(a, b) && OrdinalLe(b, c)
    ensures OrdinalLe(a, c)
  {
    if a != [] && b != [] && c != [] && a[0] == b[0] && b[0] == c[0] {
      OrdinalTransitive(a[1..], b[1..], c[1..]);
    }
  }

  /** Any two strings are comparable. */
  lemma OrdinalTotal(a: string, b: string)
    ensures OrdinalLe(a, b) || OrdinalLe(b, a)
  {
    OrdinalAntisymmetric(a, b);
  }

  /** `String.EndsWith` with an ordinal comparison. */
  predicate EndsWith(s: string, suffix: string) {
    |suffix| <= |s| && s[|s| - |suffix|..] == suffix
  }

  /** Directory separators recognised in archive paths. */
  predicate IsSeparator(c: char) {
    c == '\\' || c == '/'
  }

  /** `Path.GetFileName`: the part of `path` after its last separator. */
  function FileName(path: string): (r: string)
    ensures |r| <= |path| && r == path[|path| - |r|..]
    ensures forall i :: 0 <= i < |r| ==> !IsSeparator(r[i])
    ensures |r| < |path| ==> IsSeparator(path[|path| - |r| - 1])
  {
    if path == [] then []
    else if IsSeparator(path[|path| - 1]) then []
    else FileName(path[..|path| - 1]) + [path[|path| - 1]]
  }

  /** `String.Join(sep, fields)`. */
  function Join(fields: seq<string>, sep: char): string
  {
    if |fields| == 0 then []
    else if |fields| == 1 then fields[0]
    else fields[0] + [sep] + Join(fields[1..], sep)
  }

  /** `String.Split(sep)`: the maximal runs between separators, empty ones included. */
  function Split(s: string, sep: char): (r: seq<string>)
    ensures |r| >= 1
  {
    if s == [] then [[]]
    else
      var rest := Split(s[1..], sep);
      if s[0] == sep then [[]] + rest
      else [[s[0]] + rest[0]] + rest[1..]
  }

  /** Splitting a separator-free run glued to the front of `t`. */
  lemma {:induction false} SplitAfterRun(a: string, t: string, sep: char)
    requires sep !in a
    ensures Split(a + t, sep) == [a + Split(t, sep)[0]] + Split(t, sep)[1..]
  {
    if a != [] {
      assert (a + t)[1..] == a[1..] + t;
      SplitAfterRun(a[1..], t, sep);
      assert [a[0]] + (a[1..] + Split(t, sep)[0]) == a + Split(t, sep)[0];
    } else {
      var r := Split(t, sep);
      assert a + t == t && a + r[0] == r[0];
      assert r == [r[0]] + r[1..];
    }
  }

  /** Splitting undoes joining when no field contains the separator. */
  lemma {:induction false} SplitJoin(fields: seq<string>, sep: char)
    requires |fields| >= 1
    requires forall i :: 0 <= i < |fields| ==> sep !in fields[i]
    ensures Split(Join(fields, sep), sep) == fields
  {
    if |fields| == 1 {
      SplitAfterRun(fields[0], [], sep);
      assert fields[0] + [] == fields[0];
    } else {
      var rest := Join(fields[1..], sep);
      SplitJoin(fields[1..], sep);
      assert fields[0] + [sep] + rest == fields[0] + ([sep] + rest);
      SplitAfterRun(fields[0], [sep] + rest, sep);
      assert ([sep] + rest)[1..] == rest;
      assert fields[0] + [] == fields[0];
      assert fields == [fields[0]] + fields[1..];
    }
  }

  /** Two trailing fields joined by the separator read as one field of the join. */
  lemma {:induction false} JoinMergeLast(fields: seq<string>, x: string, y: string, sep: char)
    ensures Join(fields + [x, y], sep) == Join(fields + [x + [sep] + y], sep)
  {
    if |fields| == 0 {
      assert fields + [x, y] == [x, y];
      assert fields + [x + [sep] + y] == [x + [sep] + y];
      assert [x, y][1..] == [y];
    } else {
      assert (fields + [x, y])[1..] == fields[1..] + [x, y];
      assert (fields + [x + [sep] + y])[1..] == fields[1..] + [x + [sep] + y];
      JoinMergeLast(fields[1..], x, y, sep);
    }
  }
}
