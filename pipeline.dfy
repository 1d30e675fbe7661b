/** The `analyzedWeapons` query of Program.cs: for every configured weapon,
    in configuration order, look up its timeline file; for every configured
    animation kind, keep the weapon's animations whose file name matches the
    kind pattern and that have type-0 or type-1 events, and summarise each. */
module Pipeline {
  import opened Wrappers
  import opened Events
  import opened Selection
  import opened Seqs

  /** One key/value pair of a configuration dictionary: for `weapons`, the
      weapon id and its weapon label; for `animKind`, the kind key and the
      pattern fragment. Dictionary order is kept as sequence order. */
  datatype Setting = Setting(key: string, value: string)

  /** One element of `analyzedWeapons`: the weapon and kind pairs it was
      produced under, the animation it summarises, and that summary. */
  datatype Record = Record(weapon: Setting, kind: Setting, source: Animation, summary: Summary)

  /** A kind keeps an animation whose file name matches the kind pattern and
      which has a type-0 or type-1 event. */
  predicate Keeps(kind: Setting, a: Animation) {
    KindMatches(a.animFileName, kind.value) && Summarize(a).Some?
  }

  function KeptBy(kind: Setting): Animation -> bool {
    (a: Animation) => Keeps(kind, a)
  }

  /** The records of one weapon under one kind, in animation order. */
  function KindRecords(weapon: Setting, kind: Setting, anims: seq<Animation>): seq<Record> {
    if anims == [] then []
    else
      var a := anims[0];
      var here := if Keeps(kind, a) then [Record(weapon, kind, a, Summarize(a).value)] else [];
      here + KindRecords(weapon, kind, anims[1..])
  }

  /** The records of one weapon, kind by kind in configuration order. */
  function WeaponRecords(weapon: Setting, kinds: seq<Setting>, anims: seq<Animation>): seq<Record> {
    if kinds == [] then []
    else KindRecords(weapon, kinds[0], anims) + WeaponRecords(weapon, kinds[1..], anims)
  }

  /** The whole query. The first weapon whose lookup throws aborts it; a weapon
      whose entry is not a timeline file contributes nothing. */
  function Analyze(weapons: seq<Setting>, kinds: seq<Setting>, files: seq<ArchiveEntry>): Result<seq<Record>, LookupError> {
    if weapons == [] then Success([])
    else
      match FindWeaponEntry(files, weapons[0].key)
      case Failure(e) => Failure(e)
      case Success(entry) =>
        match Analyze(weapons[1..], kinds, files)
        case Failure(e) => Failure(e)
        case Success(rest) =>
          Success(Contribution(weapons[0], kinds, entry) + rest)
  }

  /** What a weapon whose entry was found contributes: the records of its
      animations when the entry is a timeline file, nothing otherwise. */
  function Contribution(weapon: Setting, kinds: seq<Setting>, entry: ArchiveEntry): seq<Record> {
    if entry.contents.Tae? then WeaponRecords(weapon, kinds, entry.contents.animations) else []
  }

  /** Reference order of a query: each configured weapon's contribution, in
      configuration order. */
  function Contributions(weapons: seq<Setting>, kinds: seq<Setting>, files: seq<ArchiveEntry>): seq<seq<Record>> {
    seq(|weapons|, i requires 0 <= i < |weapons| =>
      match FindWeaponEntry(files, weapons[i].key)
      case Success(entry) => Contribution(weapons[i], kinds, entry)
      case Failure(_) => [])
  }

  /** Record `r` comes from weapon `w`: its lookup found a timeline file, `r`
      is labelled with `w` and a configured kind, and it summarises one of
      that file's animations. */
  predicate FromWeapon(files: seq<ArchiveEntry>, kinds: seq<Setting>, w: Setting, r: Record) {
    FindWeaponEntry(files, w.key).Success?
      && FindWeaponEntry(files, w.key).value.contents.Tae?
      && r.weapon == w && r.kind in kinds
      && r.source in FindWeaponEntry(files, w.key).value.contents.animations
      && Faithful(r)
  }

  /** A record is faithful to the animation it came from: the animation has a
      type-0 or type-1 event, its name matches the record's kind, and the
      summary is the fold of its whole timeline. */
  predicate Faithful(r: Record) {
    KindMatches(r.source.animFileName, r.kind.value) && Summarize(r.source) == Some(r.summary)
  }

  /** A record stands for one animation under a kind exactly when that animation
      matches the kind and has a type-0 or type-1 event; non-matching and
      event-less animations yield nothing. */
  lemma {:induction false} KindRecordsSpec(weapon: Setting, kind: Setting, anims: seq<Animation>, r: Record)
    ensures r in KindRecords(weapon, kind, anims) <==>
      r.weapon == weapon && r.kind == kind && r.source in anims && Faithful(r)
  {
    if anims != [] {
      KindRecordsSpec(weapon, kind, anims[1..], r);
      assert anims == [anims[0]] + anims[1..];
    }
  }

  /** The records of a kind are one per kept animation, in animation order:
      exactly as many records as animations that match and have events. */
  lemma {:induction false} KindRecordsInOrder(weapon: Setting, kind: Setting, anims: seq<Animation>)
    ensures |KindRecords(weapon, kind, anims)| == |Where(anims, KeptBy(kind))|
    ensures forall i :: 0 <= i < |Where(anims, KeptBy(kind))| ==>
      Keeps(kind, Where(anims, KeptBy(kind))[i])
      && KindRecords(weapon, kind, anims)[i]
        == Record(weapon, kind, Where(anims, KeptBy(kind))[i], Summarize(Where(anims, KeptBy(kind))[i]).value)
  {
    if anims != [] {
      var a := anims[0];
      var q := Where(anims, KeptBy(kind));
      var q' := Where(anims[1..], KeptBy(kind));
      KindRecordsInOrder(weapon, kind, anims[1..]);
      var rs := KindRecords(weapon, kind, anims);
      var rs' := KindRecords(weapon, kind, anims[1..]);
      if Keeps(kind, a) {
        assert q == [a] + q';
        assert rs == [Record(weapon, kind, a, Summarize(a).value)] + rs';
        forall i | 0 < i < |q| ensures Keeps(kind, q[i]) && rs[i] == Record(weapon, kind, q[i], Summarize(q[i]).value) {
          assert q[i] == q'[i - 1] && rs[i] == rs'[i - 1];
        }
      } else {
        assert q == q' && rs == rs';
      }
    }
  }

  /** The weapon's records cover every configured kind and nothing else. */
  lemma {:induction false} WeaponRecordsSpec(weapon: Setting, kinds: seq<Setting>, anims: seq<Animation>, r: Record)
    ensures r in WeaponRecords(weapon, kinds, anims) <==>
      r.weapon == weapon && r.kind in kinds && r.source in anims && Faithful(r)
  {
    if kinds != [] {
      KindRecordsSpec(weapon, kinds[0], anims, r);
      WeaponRecordsSpec(weapon, kinds[1..], anims, r);
      assert kinds == [kinds[0]] + kinds[1..];
    }
  }

  /** The query fails exactly when some weapon's lookup fails, and then with
      the error of the first such weapon. */
  lemma {:induction false} AnalyzeFails(weapons: seq<Setting>, kinds: seq<Setting>, files: seq<ArchiveEntry>)
    ensures Analyze(weapons, kinds, files).Failure? <==>
      exists i :: 0 <= i < |weapons| && FindWeaponEntry(files, weapons[i].key).Failure?
    ensures Analyze(weapons, kinds, files).Failure? ==>
      exists i :: 0 <= i < |weapons| && Failure(Analyze(weapons, kinds, files).error) == FindWeaponEntry(files, weapons[i].key)
        && forall j :: 0 <= j < i ==> FindWeaponEntry(files, weapons[j].key).Success?
  {
    if weapons != [] {
      var rest := weapons[1..];
      AnalyzeFails(rest, kinds, files);
      assert forall j :: 0 < j < |weapons| ==> weapons[j] == rest[j - 1];
      if FindWeaponEntry(files, weapons[0].key).Success? && Analyze(weapons, kinds, files).Failure? {
        var i :| 0 <= i < |rest| && Failure(Analyze(rest, kinds, files).error) == FindWeaponEntry(files, rest[i].key)
          && forall j :: 0 <= j < i ==> FindWeaponEntry(files, rest[j].key).Success?;
        assert FindWeaponEntry(files, weapons[i + 1].key) == FindWeaponEntry(files, rest[i].key);
      }
    }
  }

  /** Every record of a successful query is faithful to its animation and was
      produced under a configured weapon and kind. */
  lemma {:induction false} AnalyzeRecordsFaithful(weapons: seq<Setting>, kinds: seq<Setting>, files: seq<ArchiveEntry>)
    requires Analyze(weapons, kinds, files).Success?
    ensures forall r :: r in Analyze(weapons, kinds, files).value ==>
      Faithful(r) && r.weapon in weapons && r.kind in kinds
  {
    if weapons != [] {
      var rest := weapons[1..];
      AnalyzeRecordsFaithful(rest, kinds, files);
      var entry := FindWeaponEntry(files, weapons[0].key).value;
      forall r | r in Analyze(weapons, kinds, files).value
        ensures Faithful(r) && r.weapon in weapons && r.kind in kinds
      {
        if entry.contents.Tae? && r in WeaponRecords(weapons[0], kinds, entry.contents.animations) {
          WeaponRecordsSpec(weapons[0], kinds, entry.contents.animations, r);
        } else {
          assert r in Analyze(rest, kinds, files).value;
        }
      }
    }
  }

  /** The members of a successful query are exactly the records that come from
      some configured weapon; a weapon whose entry is not a timeline file
      therefore contributes none. */
  lemma {:induction false} AnalyzeMembers(weapons: seq<Setting>, kinds: seq<Setting>, files: seq<ArchiveEntry>, r: Record)
    requires Analyze(weapons, kinds, files).Success?
    ensures r in Analyze(weapons, kinds, files).value <==>
      exists i :: 0 <= i < |weapons| && FromWeapon(files, kinds, weapons[i], r)
  {
    if weapons != [] {
      var rest := weapons[1..];
      var entry := FindWeaponEntry(files, weapons[0].key).value;
      AnalyzeMembers(rest, kinds, files, r);
      assert forall j :: 0 < j < |weapons| ==> weapons[j] == rest[j - 1];
      if entry.contents.Tae? {
        WeaponRecordsSpec(weapons[0], kinds, entry.contents.animations, r);
      }
      if exists i :: 0 <= i < |weapons| && FromWeapon(files, kinds, weapons[i], r) {
        var i :| 0 <= i < |weapons| && FromWeapon(files, kinds, weapons[i], r);
        if i > 0 {
          assert FromWeapon(files, kinds, rest[i - 1], r);
        }
      }
    }
  }

  /** A weapon whose archive entry is not a timeline file is skipped: no result
      carries it, and the query does not fail because of it. */
  lemma AnalyzeSkipsNonTae(weapons: seq<Setting>, kinds: seq<Setting>, files: seq<ArchiveEntry>, w: Setting)
    requires Analyze(weapons, kinds, files).Success?
    requires FindWeaponEntry(files, w.key).Success? && FindWeaponEntry(files, w.key).value.contents.NotTae?
    ensures forall r :: r in Analyze(weapons, kinds, files).value ==> r.weapon != w
  {
    forall r | r in Analyze(weapons, kinds, files).value ensures r.weapon != w {
      AnalyzeMembers(weapons, kinds, files, r);
    }
  }

  /** A successful query lists its records weapon by weapon, in configuration order. */
  lemma {:induction false} AnalyzeInOrder(weapons: seq<Setting>, kinds: seq<Setting>, files: seq<ArchiveEntry>)
    requires Analyze(weapons, kinds, files).Success?
    ensures Analyze(weapons, kinds, files).value == Flatten(Contributions(weapons, kinds, files))
  {
    if weapons != [] {
      var rest := weapons[1..];
      AnalyzeInOrder(rest, kinds, files);
      var cs := Contributions(weapons, kinds, files);
      assert cs[1..] == Contributions(rest, kinds, files);
      assert cs == [cs[0]] + cs[1..];
    } else {
      assert Contributions(weapons, kinds, files) == [];
    }
  }

  /** A weapon's records come kind by kind, in configuration order. */
  lemma {:induction false} WeaponRecordsInOrder(weapon: Setting, kinds: seq<Setting>, anims: seq<Animation>)
    ensures WeaponRecords(weapon, kinds, anims)
      == Flatten(seq(|kinds|, i requires 0 <= i < |kinds| => KindRecords(weapon, kinds[i], anims)))
  {
    var ks := seq(|kinds|, i requires 0 <= i < |kinds| => KindRecords(weapon, kinds[i], anims));
    if kinds != [] {
      WeaponRecordsInOrder(weapon, kinds[1..], anims);
      assert ks[1..] == seq(|kinds[1..]|, i requires 0 <= i < |kinds[1..]| => KindRecords(weapon, kinds[1..][i], anims));
      assert ks == [ks[0]] + ks[1..];
    } else {
      assert ks == [];
    }
  }
}
