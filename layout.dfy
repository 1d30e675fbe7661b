/** The lines written to `out.csv`, and the nested loops that write them
    (Program.cs, the end of `Main`). Numbers are rendered by a caller-supplied
    `num`, standing for .NET's float formatting. */
module Layout {
  import opened Text
  import opened Events
  import opened Pipeline
  import opened Report

  /** `Attacks.Aggregate("", (s, w) => s + start + "," + end + ",")`. */
  function WindowsText(ws: seq<Window>, num: real -> string): string {
    if ws == [] then []
    else
      var w := ws[|ws| - 1];
      WindowsText(ws[..|ws| - 1], num) + num(w.attackStart) + "," + num(w.attackEnd) + ","
  }

  /** The line of one record: two empty columns, the animation file name, the
      windows, then the recovery start. */
  function EntryLine(r: Record, num: real -> string): string {
    ",," + r.source.animFileName + "," + WindowsText(r.summary.attacks, num) + num(r.summary.recoveryStart)
  }

  /** The line that opens a weapon group. */
  function WeaponLine(weaponLabel: string): string {
    "," + weaponLabel
  }

  /** Reference layout: the window columns, start then end per window, in `Attacks` order. */
  function WindowFields(ws: seq<Window>, num: real -> string): seq<string> {
    if ws == [] then []
    else
      var w := ws[|ws| - 1];
      WindowFields(ws[..|ws| - 1], num) + [num(w.attackStart), num(w.attackEnd)]
  }

  /** Reference layout: every column of a record's line. */
  function EntryFields(r: Record, num: real -> string): seq<string> {
    ["", "", r.source.animFileName] + WindowFields(r.summary.attacks, num) + [num(r.summary.recoveryStart)]
  }

  lemma {:induction false} WindowFieldsAt(ws: seq<Window>, num: real -> string)
    ensures |WindowFields(ws, num)| == 2 * |ws|
    ensures forall k :: 0 <= k < |ws| ==>
      WindowFields(ws, num)[2 * k] == num(ws[k].attackStart) && WindowFields(ws, num)[2 * k + 1] == num(ws[k].attackEnd)
  {
    if ws != [] {
      var p := ws[..|ws| - 1];
      WindowFieldsAt(p, num);
      assert forall k :: 0 <= k < |p| ==> ws[k] == p[k];
    }
  }

  /** The columns of a record's line: two empty ones, the file name, then for
      each window in `Attacks` order (not sorted) its start and its end, then
      the recovery start. */
  lemma EntryFieldsLayout(r: Record, num: real -> string)
    ensures |EntryFields(r, num)| == 4 + 2 * |r.summary.attacks|
    ensures EntryFields(r, num)[0] == "" && EntryFields(r, num)[1] == ""
    ensures EntryFields(r, num)[2] == r.source.animFileName
    ensures forall k :: 0 <= k < |r.summary.attacks| ==>
      EntryFields(r, num)[3 + 2 * k] == num(r.summary.attacks[k].attackStart)
      && EntryFields(r, num)[4 + 2 * k] == num(r.summary.attacks[k].attackEnd)
    ensures EntryFields(r, num)[|EntryFields(r, num)| - 1] == num(r.summary.recoveryStart)
  {
    WindowFieldsAt(r.summary.attacks, num);
  }

  lemma {:induction false} JoinWindows(ws: seq<Window>, num: real -> string, x: string)
    ensures Join(WindowFields(ws, num) + [x], ',') == WindowsText(ws, num) + x
  {
    if ws == [] {
      assert WindowFields(ws, num) + [x] == [x];
    } else {
      var p := ws[..|ws| - 1];
      var w := ws[|ws| - 1];
      var s, e := num(w.attackStart), num(w.attackEnd);
      var f := WindowFields(p, num);
      assert WindowFields(ws, num) + [x] == (f + [s]) + [e, x];
      JoinMergeLast(f + [s], e, x, ',');
      assert (f + [s]) + [e + [','] + x] == f + [s, e + [','] + x];
      JoinMergeLast(f, s, e + [','] + x, ',');
      JoinWindows(p, num, s + [','] + (e + [','] + x));
      assert WindowsText(ws, num) + x == WindowsText(p, num) + (s + [','] + (e + [','] + x));
    }
  }

  /** The record's line is its columns joined by commas. */
  lemma EntryLineJoins(r: Record, num: real -> string)
    ensures Join(EntryFields(r, num), ',') == EntryLine(r, num)
  {
    var name := r.source.animFileName;
    var n := num(r.summary.recoveryStart);
    var t := WindowFields(r.summary.attacks, num) + [n];
    var fs := EntryFields(r, num);
    assert fs == ["", "", name] + t;
    assert fs[1..] == ["", name] + t && fs[1..][1..] == [name] + t && fs[1..][1..][1..] == t;
    JoinWindows(r.summary.attacks, num, n);
    assert Join(fs, ',') == fs[0] + [','] + Join(fs[1..], ',');
    assert Join(fs[1..], ',') == "" + [','] + Join(fs[1..][1..], ',');
    assert Join(fs[1..][1..], ',') == name + [','] + Join(t, ',');
  }

  /** When neither the file name nor any rendered number contains a comma,
      splitting a record's line on commas gives back exactly its columns. */
  lemma EntryLineSplits(r: Record, num: real -> string)
    requires ',' !in r.source.animFileName
    requires forall x :: ',' !in num(x)
    ensures Split(EntryLine(r, num), ',') == EntryFields(r, num)
  {
    var fs := EntryFields(r, num);
    EntryFieldsLayout(r, num);
    var ws := r.summary.attacks;
    forall i | 0 <= i < |fs| ensures ',' !in fs[i] {
      if i == |fs| - 1 {
        assert fs[i] == num(r.summary.recoveryStart);
      } else if 3 <= i {
        var k := (i - 3) / 2;
        if i == 3 + 2 * k {
          assert fs[i] == num(ws[k].attackStart);
        } else {
          assert fs[i] == num(ws[k].attackEnd);
        }
      }
    }
    EntryLineJoins(r, num);
    SplitJoin(fs, ',');
  }

  /** The lines of a group's records, in group order. */
  function EntryLines(rs: seq<Record>, num: real -> string): (lines: seq<string>)
    ensures |lines| == |rs|
  {
    if rs == [] then [] else EntryLines(rs[..|rs| - 1], num) + [EntryLine(rs[|rs| - 1], num)]
  }

  /** The lines of one weapon group: its label, then one line per record. */
  function GroupLines(w: WeaponGroup, num: real -> string): seq<string> {
    [WeaponLine(w.weaponLabel)] + EntryLines(w.records, num)
  }

  function GroupsLines(ws: seq<WeaponGroup>, num: real -> string): seq<string> {
    if ws == [] then [] else GroupsLines(ws[..|ws| - 1], num) + GroupLines(ws[|ws| - 1], num)
  }

  /** The lines of one kind: its key, then its weapon groups. */
  function KindLines(g: KindGroup, num: real -> string): seq<string> {
    [g.key] + GroupsLines(g.weapons, num)
  }

  /** Every line of the report, outer group by outer group. */
  function ReportLines(rep: seq<KindGroup>, num: real -> string): seq<string> {
    if rep == [] then [] else ReportLines(rep[..|rep| - 1], num) + KindLines(rep[|rep| - 1], num)
  }

  /** Each record's line is the one at its position in a group's lines. */
  lemma {:induction false} EntryLinesAt(rs: seq<Record>, num: real -> string)
    ensures forall i :: 0 <= i < |rs| ==> EntryLines(rs, num)[i] == EntryLine(rs[i], num)
  {
    if rs != [] {
      var p := rs[..|rs| - 1];
      EntryLinesAt(p, num);
      assert forall i :: 0 <= i < |p| ==> rs[i] == p[i];
    }
  }

  /** The lines of the `a`-th weapon group sit, unbroken, at some offset of
      the lines of a kind's groups. */
  lemma {:induction false} GroupLinesIn(ws: seq<WeaponGroup>, num: real -> string, a: int) returns (off: nat)
    requires 0 <= a < |ws|
    ensures off + |GroupLines(ws[a], num)| <= |GroupsLines(ws, num)|
    ensures GroupsLines(ws, num)[off..off + |GroupLines(ws[a], num)|] == GroupLines(ws[a], num)
  {
    var p := ws[..|ws| - 1];
    if a == |ws| - 1 {
      off := |GroupsLines(p, num)|;
    } else {
      assert ws[a] == p[a];
      off := GroupLinesIn(p, num, a);
      var lines := GroupsLines(ws, num);
      assert lines == GroupsLines(p, num) + GroupLines(ws[|ws| - 1], num);
      assert lines[off..off + |GroupLines(ws[a], num)|] == GroupsLines(p, num)[off..off + |GroupLines(ws[a], num)|];
    }
  }

  /** The lines of the `i`-th kind sit, unbroken, at some offset of the report. */
  lemma {:induction false} KindLinesIn(rep: seq<KindGroup>, num: real -> string, i: int) returns (off: nat)
    requires 0 <= i < |rep|
    ensures off + |KindLines(rep[i], num)| <= |ReportLines(rep, num)|
    ensures ReportLines(rep, num)[off..off + |KindLines(rep[i], num)|] == KindLines(rep[i], num)
  {
    var p := rep[..|rep| - 1];
    if i == |rep| - 1 {
      off := |ReportLines(p, num)|;
    } else {
      assert rep[i] == p[i];
      off := KindLinesIn(p, num, i);
      var lines := ReportLines(rep, num);
      assert lines == ReportLines(p, num) + KindLines(rep[|rep| - 1], num);
      assert lines[off..off + |KindLines(rep[i], num)|] == ReportLines(p, num)[off..off + |KindLines(rep[i], num)|];
    }
  }

  /** The line of the `m`-th record of the `a`-th weapon group of the `i`-th
      kind comes after that kind's key line and after that group's label line. */
  lemma EntryLineFollowsHeaders(rep: seq<KindGroup>, num: real -> string, i: int, a: int, m: int)
    returns (p: nat, q: nat, t: nat)
    requires 0 <= i < |rep| && 0 <= a < |rep[i].weapons| && 0 <= m < |rep[i].weapons[a].records|
    ensures p < q < t < |ReportLines(rep, num)|
    ensures ReportLines(rep, num)[p] == rep[i].key
    ensures ReportLines(rep, num)[q] == WeaponLine(rep[i].weapons[a].weaponLabel)
    ensures ReportLines(rep, num)[t] == EntryLine(rep[i].weapons[a].records[m], num)
  {
    var g := rep[i];
    var w := g.weapons[a];
    var lines := ReportLines(rep, num);
    p := KindLinesIn(rep, num, i);
    var kl := KindLines(g, num);
    assert lines[p..p + |kl|] == kl;
    var wo := GroupLinesIn(g.weapons, num, a);
    var gl := GroupLines(w, num);
    assert kl[1 + wo..1 + wo + |gl|] == gl;
    EntryLinesAt(w.records, num);
    q := p + 1 + wo;
    t := q + 1 + m;
    assert kl[1 + wo] == gl[0] && kl[1 + wo + 1 + m] == gl[1 + m];
    assert lines[p] == kl[0] && lines[q] == kl[1 + wo] && lines[t] == kl[1 + wo + 1 + m];
  }

  /** Every result record gets its line in the report, below the line of its
      kind key and below the line of its weapon label. */
  lemma ReportPlacesLine(rs: seq<Record>, num: real -> string, r: Record) returns (p: nat, q: nat, t: nat)
    requires r in rs
    ensures p < q < t < |ReportLines(BuildReport(rs), num)|
    ensures ReportLines(BuildReport(rs), num)[p] == KindOf(r)
    ensures ReportLines(BuildReport(rs), num)[q] == WeaponLine(WeaponOf(r))
    ensures ReportLines(BuildReport(rs), num)[t] == EntryLine(r, num)
  {
    var i, a := ReportPlacesRecord(rs, r);
    var recs := BuildReport(rs)[i].weapons[a].records;
    var m :| 0 <= m < |recs| && recs[m] == r;
    p, q, t := EntryLineFollowsHeaders(BuildReport(rs), num, i, a, m);
  }

  /** The innermost loop: one line per record of a weapon group. */
  method WriteGroup(group: WeaponGroup, num: real -> string) returns (lines: seq<string>)
    ensures lines == GroupLines(group, num)
  {
    lines := [WeaponLine(group.weaponLabel)];
    var m := 0;
    while m < |group.records|
      invariant 0 <= m <= |group.records|
      invariant lines == [WeaponLine(group.weaponLabel)] + EntryLines(group.records[..m], num)
    {
      assert group.records[..m + 1][..m] == group.records[..m];
      lines := lines + [EntryLine(group.records[m], num)];
      m := m + 1;
    }
    assert group.records[..m] == group.records;
  }

  /** The middle loop: the kind key, then each weapon group. */
  method WriteKind(kind: KindGroup, num: real -> string) returns (lines: seq<string>)
    ensures lines == KindLines(kind, num)
  {
    lines := [kind.key];
    var j := 0;
    while j < |kind.weapons|
      invariant 0 <= j <= |kind.weapons|
      invariant lines == [kind.key] + GroupsLines(kind.weapons[..j], num)
    {
      var more := WriteGroup(kind.weapons[j], num);
      assert kind.weapons[..j + 1][..j] == kind.weapons[..j];
      lines := lines + more;
      j := j + 1;
    }
    assert kind.weapons[..j] == kind.weapons;
  }

  /** The outer loop over the report built from the results. */
  method WriteReport(rs: seq<Record>, num: real -> string) returns (lines: seq<string>)
    ensures lines == ReportLines(BuildReport(rs), num)
  {
    var report := BuildReport(rs);
    lines := [];
    var i := 0;
    while i < |report|
      invariant 0 <= i <= |report|
      invariant lines == ReportLines(report[..i], num)
    {
      var more := WriteKind(report[i], num);
      assert report[..i + 1][..i] == report[..i];
      lines := lines + more;
      i := i + 1;
    }
    assert report[..i] == report;
  }
}
