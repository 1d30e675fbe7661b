/** Grouping, ordering and layout of the report written to `out.csv`
    (Program.cs, the nested `foreach` loops at the end of `Main`). */
module Report {
  import opened Text
  import opened Seqs
  import opened Ordering
  import opened Events
  import opened Pipeline

  /** The outer lookup key: the kind key of the `animKind` pair. */
  function KindOf(r: Record): string { r.kind.key }

  /** The inner lookup key: the weapon label of the `weapons` pair. */
  function WeaponOf(r: Record): string { r.weapon.value }

  /** Records whose key is `k`. */
  function HasKey(key: Record -> string, k: string): Record -> bool {
    (r: Record) => key(r) == k
  }

  /** The records of `rs` with key `k`, in production order (one lookup group). */
  function Group(rs: seq<Record>, key: Record -> string, k: string): seq<Record> {
    Where(rs, HasKey(key, k))
  }

  /** The keys of `ToLookup`, in order of first occurrence. */
  function LookupKeys(rs: seq<Record>, key: Record -> string): seq<string> {
    if rs == [] then []
    else
      var ks := LookupKeys(rs[..|rs| - 1], key);
      if key(rs[|rs| - 1]) in ks then ks else ks + [key(rs[|rs| - 1])]
  }

  /** The position of the first record with key `k`, or `|rs|` if there is none. */
  function FirstIndex(rs: seq<Record>, key: Record -> string, k: string): (n: nat)
    ensures n <= |rs|
  {
    if rs == [] then 0 else if key(rs[0]) == k then 0 else 1 + FirstIndex(rs[1..], key, k)
  }

  /** No key occurs twice. */
  predicate Distinct<T(==)>(ks: seq<T>) {
    forall i, j :: 0 <= i < j < |ks| ==> ks[i] != ks[j]
  }

  /** The sort key of `OrderBy(g => g.FirstOrDefault().attackInfo?.RecoveryStart)`:
      a nullable float, where null sorts before every number. */
  datatype SortKey = NoKey | Key(value: real)

  predicate KeyLe(a: SortKey, b: SortKey) {
    match (a, b)
    case (NoKey, _) => true
    case (Key(_), NoKey) => false
    case (Key(x), Key(y)) => x <= y
  }

  /** One weapon label's records within a kind. */
  datatype WeaponGroup = WeaponGroup(weaponLabel: string, records: seq<Record>)

  /** One kind's weapon groups, in output order. */
  datatype KindGroup = KindGroup(key: string, weapons: seq<WeaponGroup>)

  /** The recovery start of the group's first record. */
  function FirstRecovery(g: WeaponGroup): SortKey {
    if g.records == [] then NoKey else Key(g.records[0].summary.recoveryStart)
  }

  predicate GroupLe(g: WeaponGroup, h: WeaponGroup) {
    KeyLe(FirstRecovery(g), FirstRecovery(h))
  }

  /** `ToLookup` by weapon label: one group per label, labels in first-occurrence order. */
  function WeaponGroups(rs: seq<Record>): seq<WeaponGroup> {
    var ls := LookupKeys(rs, WeaponOf);
    seq(|ls|, i requires 0 <= i < |ls| => WeaponGroup(ls[i], Group(rs, WeaponOf, ls[i])))
  }

  /** One outer group: its weapon groups ordered by their first recovery start. */
  function KindGroupOf(rs: seq<Record>, k: string): KindGroup {
    KindGroup(k, SortBy(WeaponGroups(Group(rs, KindOf, k)), GroupLe))
  }

  /** The report: outer groups by kind key, ordered by that key. */
  function BuildReport(rs: seq<Record>): seq<KindGroup> {
    var ks := SortBy(LookupKeys(rs, KindOf), OrdinalLe);
    seq(|ks|, i requires 0 <= i < |ks| => KindGroupOf(rs, ks[i]))
  }

  lemma {:induction false} LookupKeysSpec(rs: seq<Record>, key: Record -> string)
    ensures Distinct(LookupKeys(rs, key))
    ensures forall k :: k in LookupKeys(rs, key) <==> exists i :: 0 <= i < |rs| && key(rs[i]) == k
  {
    if rs != [] {
      var init := rs[..|rs| - 1];
      LookupKeysSpec(init, key);
      assert forall i :: 0 <= i < |init| ==> init[i] == rs[i];
    }
  }

  lemma {:induction false} FirstIndexSpec(rs: seq<Record>, key: Record -> string, k: string)
    ensures FirstIndex(rs, key, k) < |rs| <==> exists i :: 0 <= i < |rs| && key(rs[i]) == k
    ensures FirstIndex(rs, key, k) < |rs| ==> key(rs[FirstIndex(rs, key, k)]) == k
    ensures forall i :: 0 <= i < FirstIndex(rs, key, k) ==> key(rs[i]) != k
  {
    if rs != [] {
      FirstIndexSpec(rs[1..], key, k);
      assert forall i :: 0 < i < |rs| ==> rs[i] == rs[1..][i - 1];
    }
  }

  /** Appending a record does not move the first occurrence of a key already present. */
  lemma {:induction false} FirstIndexSnoc(rs: seq<Record>, x: Record, key: Record -> string, k: string)
    ensures FirstIndex(rs, key, k) < |rs| ==> FirstIndex(rs + [x], key, k) == FirstIndex(rs, key, k)
    ensures FirstIndex(rs, key, k) == |rs| && key(x) == k ==> FirstIndex(rs + [x], key, k) == |rs|
  {
    if rs != [] {
      assert (rs + [x])[1..] == rs[1..] + [x];
      FirstIndexSnoc(rs[1..], x, key, k);
    } else {
      assert (rs + [x])[0] == x;
    }
  }

  /** `ToLookup` lists its keys in order of their first occurrence. */
  lemma {:induction false} LookupKeysOrder(rs: seq<Record>, key: Record -> string)
    ensures forall k :: k in LookupKeys(rs, key) ==> FirstIndex(rs, key, k) < |rs|
    ensures forall i, j :: 0 <= i < j < |LookupKeys(rs, key)| ==>
      FirstIndex(rs, key, LookupKeys(rs, key)[i]) < FirstIndex(rs, key, LookupKeys(rs, key)[j])
  {
    if rs != [] {
      var init := rs[..|rs| - 1];
      var x := rs[|rs| - 1];
      assert rs == init + [x];
      LookupKeysOrder(init, key);
      var ks := LookupKeys(rs, key);
      var old_ks := LookupKeys(init, key);
      forall k | k in old_ks ensures FirstIndex(rs, key, k) == FirstIndex(init, key, k) {
        FirstIndexSnoc(init, x, key, k);
      }
      if key(x) !in old_ks {
        LookupKeysSpec(init, key);
        FirstIndexSpec(init, key, key(x));
        FirstIndexSnoc(init, x, key, key(x));
        assert FirstIndex(rs, key, key(x)) == |init|;
      }
    }
  }

  /** A group holds exactly the records with its key; a group of a lookup key
      is non-empty and starts with the key's first occurrence. */
  lemma GroupSpec(rs: seq<Record>, key: Record -> string, k: string)
    ensures forall r :: r in Group(rs, key, k) <==> r in rs && key(r) == k
    ensures k in LookupKeys(rs, key) ==> FirstIndex(rs, key, k) < |rs| && Group(rs, key, k) != [] && Group(rs, key, k)[0] == rs[FirstIndex(rs, key, k)]
  {
    forall r ensures r in Group(rs, key, k) <==> r in rs && key(r) == k {
      WhereMembers(rs, HasKey(key, k), r);
    }
    if k in LookupKeys(rs, key) {
      LookupKeysSpec(rs, key);
      GroupHead(rs, key, k);
    }
  }

  lemma {:induction false} GroupHead(rs: seq<Record>, key: Record -> string, k: string)
    requires exists i :: 0 <= i < |rs| && key(rs[i]) == k
    ensures FirstIndex(rs, key, k) < |rs|
    ensures Group(rs, key, k) != [] && Group(rs, key, k)[0] == rs[FirstIndex(rs, key, k)]
  {
    FirstIndexSpec(rs, key, k);
    if key(rs[0]) != k {
      assert exists i :: 0 <= i < |rs[1..]| && key(rs[1..][i]) == k by {
        var i :| 0 <= i < |rs| && key(rs[i]) == k;
        assert i > 0 && rs[1..][i - 1] == rs[i];
      }
      GroupHead(rs[1..], key, k);
    }
  }

  lemma OrdinalLePreorder()
    ensures TotalPreorder(OrdinalLe)
  {
    forall a, b ensures OrdinalLe(a, b) || OrdinalLe(b, a) {
      OrdinalTotal(a, b);
    }
    forall a, b, c | OrdinalLe(a, b) && OrdinalLe(b, c) ensures OrdinalLe(a, c) {
      OrdinalTransitive(a, b, c);
    }
  }

  lemma GroupLePreorder()
    ensures TotalPreorder(GroupLe)
  {
  }

  /** Outer groups: one per kind key that occurs, each once, in ordinal key order. */
  lemma ReportKinds(rs: seq<Record>)
    ensures forall i, j :: 0 <= i < j < |BuildReport(rs)| ==> Ordinal(BuildReport(rs)[i].key, BuildReport(rs)[j].key) < 0
    ensures forall k :: k in KindKeys(BuildReport(rs)) <==> exists r :: r in rs && KindOf(r) == k
  {
    var keys := LookupKeys(rs, KindOf);
    var ks := SortBy(keys, OrdinalLe);
    var rep := BuildReport(rs);
    OrdinalLePreorder();
    SortBySorted(keys, OrdinalLe);
    LookupKeysSpec(rs, KindOf);
    forall i, j | 0 <= i < j < |rep| ensures Ordinal(rep[i].key, rep[j].key) < 0 {
      assert rep[i].key == ks[i] && rep[j].key == ks[j];
      assert OrdinalLe(ks[i], ks[j]);
      if ks[i] == ks[j] {
        MultisetDistinct(keys, ks, i, j);
      }
      OrdinalZeroIff(ks[i], ks[j]);
    }
    assert KindKeys(rep) == ks;
    forall k ensures k in KindKeys(rep) <==> exists r :: r in rs && KindOf(r) == k {
      assert k in ks <==> k in keys by {
        assert k in multiset(ks) <==> k in multiset(keys);
      }
      if exists r :: r in rs && KindOf(r) == k {
        var r :| r in rs && KindOf(r) == k;
        var i :| 0 <= i < |rs| && rs[i] == r;
      }
    }
  }

  lemma {:induction false} DistinctCount<T>(s: seq<T>, x: T)
    requires Distinct(s)
    ensures multiset(s)[x] <= 1
  {
    if s != [] {
      assert s == [s[0]] + s[1..];
      assert Distinct(s[1..]) by {
        forall i, j | 0 <= i < j < |s[1..]| ensures s[1..][i] != s[1..][j] {
          assert s[1..][i] == s[i + 1] && s[1..][j] == s[j + 1];
        }
      }
      DistinctCount(s[1..], x);
      if x == s[0] {
        assert x !in s[1..] by {
          forall m | 0 <= m < |s[1..]| ensures s[1..][m] != x {
            assert s[1..][m] == s[m + 1];
          }
        }
      }
    }
  }

  /** A permutation of a sequence without duplicates has none either. */
  lemma MultisetDistinct<T>(s: seq<T>, t: seq<T>, i: int, j: int)
    requires Distinct(s) && multiset(s) == multiset(t)
    requires 0 <= i < j < |t|
    ensures t[i] != t[j]
  {
    DistinctCount(s, t[i]);
    assert t == t[..i] + [t[i]] + t[i + 1..j] + [t[j]] + t[j + 1..];
  }

  /** The kind keys of a report, in output order. */
  function KindKeys(rep: seq<KindGroup>): seq<string> {
    seq(|rep|, i requires 0 <= i < |rep| => rep[i].key)
  }

  /** The weapon labels of a kind group, in output order. */
  function WeaponLabels(ws: seq<WeaponGroup>): seq<string> {
    seq(|ws|, i requires 0 <= i < |ws| => ws[i].weaponLabel)
  }

  /** Each group of the (still unsorted) weapon lookup has a label that occurs,
      holds exactly that label's records in production order, and starts with
      the label's first occurrence. */
  predicate IsLookupGroup(kr: seq<Record>, w: WeaponGroup) {
    w.weaponLabel in LookupKeys(kr, WeaponOf)
      && w.records == Group(kr, WeaponOf, w.weaponLabel)
      && w.records != []
      && FirstIndex(kr, WeaponOf, w.weaponLabel) < |kr|
      && w.records[0] == kr[FirstIndex(kr, WeaponOf, w.weaponLabel)]
  }

  lemma WeaponGroupsSpec(kr: seq<Record>)
    ensures forall w :: w in WeaponGroups(kr) ==> IsLookupGroup(kr, w)
    ensures WeaponLabels(WeaponGroups(kr)) == LookupKeys(kr, WeaponOf)
  {
    var ls := LookupKeys(kr, WeaponOf);
    forall w | w in WeaponGroups(kr) ensures IsLookupGroup(kr, w) {
      var i :| 0 <= i < |ls| && WeaponGroups(kr)[i] == w;
      GroupSpec(kr, WeaponOf, ls[i]);
    }
  }

  /** Within a kind, the weapon groups ascend by their first record's recovery start. */
  lemma KindGroupSorted(rs: seq<Record>, k: string)
    ensures forall a, b :: 0 <= a < b < |KindGroupOf(rs, k).weapons| ==>
      KeyLe(FirstRecovery(KindGroupOf(rs, k).weapons[a]), FirstRecovery(KindGroupOf(rs, k).weapons[b]))
  {
    GroupLePreorder();
    SortBySorted(WeaponGroups(Group(rs, KindOf, k)), GroupLe);
  }

  /** Within a kind, every weapon group is a lookup group of that kind's records. */
  lemma KindGroupMembers(rs: seq<Record>, k: string)
    ensures forall w :: w in KindGroupOf(rs, k).weapons ==> IsLookupGroup(Group(rs, KindOf, k), w)
    ensures multiset(KindGroupOf(rs, k).weapons) == multiset(WeaponGroups(Group(rs, KindOf, k)))
  {
    var kr := Group(rs, KindOf, k);
    var sorted := KindGroupOf(rs, k).weapons;
    GroupLePreorder();
    SortBySorted(WeaponGroups(kr), GroupLe);
    WeaponGroupsSpec(kr);
    forall w | w in sorted ensures IsLookupGroup(kr, w) {
      assert w in multiset(sorted);
    }
  }

  /** Within a kind, no weapon label has two groups. */
  lemma KindGroupLabelsDistinct(rs: seq<Record>, k: string)
    ensures Distinct(WeaponLabels(KindGroupOf(rs, k).weapons))
  {
    var kr := Group(rs, KindOf, k);
    var ws := WeaponGroups(kr);
    var sorted := KindGroupOf(rs, k).weapons;
    var ls := WeaponLabels(sorted);
    KindGroupMembers(rs, k);
    assert Distinct(ws) by {
      forall a, b | 0 <= a < b < |ws| ensures ws[a] != ws[b] {
        LookupKeysSpec(kr, WeaponOf);
        assert ws[a].weaponLabel == LookupKeys(kr, WeaponOf)[a];
        assert ws[b].weaponLabel == LookupKeys(kr, WeaponOf)[b];
      }
    }
    forall a, b | 0 <= a < b < |ls| ensures ls[a] != ls[b] {
      MultisetDistinct(ws, sorted, a, b);
      assert sorted[a] in sorted && sorted[b] in sorted;
    }
  }

  /** Within a kind, the labels with a group are exactly the lookup keys. */
  lemma KindGroupLabelsAreKeys(rs: seq<Record>, k: string, l: string)
    ensures l in WeaponLabels(KindGroupOf(rs, k).weapons) <==> l in LookupKeys(Group(rs, KindOf, k), WeaponOf)
  {
    var kr := Group(rs, KindOf, k);
    var ws := WeaponGroups(kr);
    var sorted := KindGroupOf(rs, k).weapons;
    var ls := WeaponLabels(sorted);
    KindGroupMembers(rs, k);
    if l in ls {
      var a :| 0 <= a < |ls| && ls[a] == l;
      assert sorted[a] in sorted;
    }
    if l in LookupKeys(kr, WeaponOf) {
      WeaponGroupsSpec(kr);
      assert l in WeaponLabels(ws);
      var i :| 0 <= i < |ws| && WeaponLabels(ws)[i] == l;
      assert ws[i] in multiset(sorted);
      var a :| 0 <= a < |sorted| && sorted[a] == ws[i];
      assert ls[a] == l;
    }
  }

  /** Within a kind, each weapon label that occurs among its records has a
      group, and no other label has one. */
  lemma KindGroupLabels(rs: seq<Record>, k: string)
    ensures forall l :: l in WeaponLabels(KindGroupOf(rs, k).weapons) <==>
      exists r :: r in rs && KindOf(r) == k && WeaponOf(r) == l
  {
    var kr := Group(rs, KindOf, k);
    LookupKeysSpec(kr, WeaponOf);
    GroupSpec(rs, KindOf, k);
    forall l ensures l in WeaponLabels(KindGroupOf(rs, k).weapons) <==>
      exists r :: r in rs && KindOf(r) == k && WeaponOf(r) == l
    {
      KindGroupLabelsAreKeys(rs, k, l);
      if exists r :: r in rs && KindOf(r) == k && WeaponOf(r) == l {
        var r :| r in rs && KindOf(r) == k && WeaponOf(r) == l;
        assert r in kr;
        var i :| 0 <= i < |kr| && kr[i] == r;
      }
      if l in LookupKeys(kr, WeaponOf) {
        var i :| 0 <= i < |kr| && WeaponOf(kr[i]) == l;
        assert kr[i] in kr;
      }
    }
  }

  /** Within a kind, weapon groups whose first recovery starts tie keep the
      order in which their labels first occur among the kind's records. */
  lemma KindGroupTies(rs: seq<Record>, k: string, a: int, b: int)
    requires 0 <= a < b < |KindGroupOf(rs, k).weapons|
    requires FirstRecovery(KindGroupOf(rs, k).weapons[a]) == FirstRecovery(KindGroupOf(rs, k).weapons[b])
    ensures FirstIndex(Group(rs, KindOf, k), WeaponOf, KindGroupOf(rs, k).weapons[a].weaponLabel)
      < FirstIndex(Group(rs, KindOf, k), WeaponOf, KindGroupOf(rs, k).weapons[b].weaponLabel)
  {
    var kr := Group(rs, KindOf, k);
    var ws := WeaponGroups(kr);
    var ls := LookupKeys(kr, WeaponOf);
    GroupLePreorder();
    SortByTiesInInputOrder(ws, GroupLe, a, b);
    var i, j :| 0 <= i < j < |ws| && ws[i] == SortBy(ws, GroupLe)[a] && ws[j] == SortBy(ws, GroupLe)[b];
    assert ws[i].weaponLabel == ls[i] && ws[j].weaponLabel == ls[j];
    LookupKeysOrder(kr, WeaponOf);
  }

  /** Each weapon group of the report holds exactly the results with its kind
      key and weapon label. */
  lemma ReportGroupContents(rs: seq<Record>, i: int, a: int)
    requires 0 <= i < |BuildReport(rs)| && 0 <= a < |BuildReport(rs)[i].weapons|
    ensures forall r :: r in BuildReport(rs)[i].weapons[a].records <==>
      r in rs && KindOf(r) == BuildReport(rs)[i].key && WeaponOf(r) == BuildReport(rs)[i].weapons[a].weaponLabel
  {
    var g := BuildReport(rs)[i];
    var w := g.weapons[a];
    assert g == KindGroupOf(rs, g.key);
    KindGroupMembers(rs, g.key);
    assert w in g.weapons;
    GroupSpec(rs, KindOf, g.key);
    GroupSpec(Group(rs, KindOf, g.key), WeaponOf, w.weaponLabel);
  }

  /** Every result is placed in the report, under its kind key and weapon label. */
  lemma ReportPlacesRecord(rs: seq<Record>, r: Record) returns (i: int, a: int)
    requires r in rs
    ensures 0 <= i < |BuildReport(rs)| && 0 <= a < |BuildReport(rs)[i].weapons|
    ensures BuildReport(rs)[i].key == KindOf(r) && BuildReport(rs)[i].weapons[a].weaponLabel == WeaponOf(r)
    ensures r in BuildReport(rs)[i].weapons[a].records
  {
    var rep := BuildReport(rs);
    ReportKinds(rs);
    assert KindOf(r) in KindKeys(rep);
    i :| 0 <= i < |rep| && KindKeys(rep)[i] == KindOf(r);
    var g := rep[i];
    assert g == KindGroupOf(rs, KindOf(r));
    KindGroupLabels(rs, KindOf(r));
    var ls := WeaponLabels(g.weapons);
    assert WeaponOf(r) in ls;
    a :| 0 <= a < |ls| && ls[a] == WeaponOf(r);
    ReportGroupContents(rs, i, a);
  }
}
