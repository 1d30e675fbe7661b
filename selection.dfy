/** Which archive entry holds a weapon's timeline file, and which animations a
    kind pattern `a..._{kind}\.hkt` accepts (Program.cs, `Main`). */
module Selection {
  import opened Wrappers
  import opened Text
  import opened Events
  import opened Seqs

  /** The decoded content of an archive entry: not a timeline file (`TAE.Is`
      fails), or the animations `TAE.Read` returns. */
  datatype Contents = NotTae | Tae(animations: seq<Animation>)

  /** A file of the animation archive. */
  datatype ArchiveEntry = ArchiveEntry(name: string, contents: Contents)

  /** What `Single` throws during the weapon lookup. */
  datatype LookupError = NoEntry(weaponId: string) | SeveralEntries(weaponId: string)

  /** The file name the lookup expects for weapon id `id`. */
  function ExpectedName(id: string): string {
    "a" + id + ".tae"
  }

  /** An entry name passes both the "ends with tae" filter and `Single`'s predicate. */
  predicate Selects(name: string, id: string) {
    EndsWith(name, "tae") && FileName(name) == ExpectedName(id)
  }

  /** The entries `Single` chooses among, in archive order. */
  function Candidates(files: seq<ArchiveEntry>, id: string): seq<ArchiveEntry> {
    Where(files, (e: ArchiveEntry) => Selects(e.name, id))
  }

  /** `reader.Files.Where(...).Single(...)` for one weapon id. */
  function FindWeaponEntry(files: seq<ArchiveEntry>, id: string): Result<ArchiveEntry, LookupError> {
    var c := Candidates(files, id);
    if |c| == 0 then Failure(NoEntry(id))
    else if |c| == 1 then Success(c[0])
    else Failure(SeveralEntries(id))
  }

  /** The `EndsWith("tae")` filter is implied by the file-name test. */
  lemma SelectsByFileName(name: string, id: string)
    ensures Selects(name, id) <==> FileName(name) == ExpectedName(id)
  {
  }

  /** Index `i` is the one and only archive entry whose name is selected for `id`. */
  predicate OnlySelected(files: seq<ArchiveEntry>, id: string, i: int) {
    0 <= i < |files| && Selects(files[i].name, id)
      && forall j :: 0 <= j < |files| && Selects(files[j].name, id) ==> j == i
  }

  /** The lookup succeeds exactly when one entry name is selected, and then
      yields that entry; it reports no entry when none is selected and several
      entries otherwise. */
  lemma FindWeaponEntrySpec(files: seq<ArchiveEntry>, id: string)
    ensures FindWeaponEntry(files, id).Success? <==> exists i :: OnlySelected(files, id, i)
    ensures forall i :: OnlySelected(files, id, i) ==> FindWeaponEntry(files, id) == Success(files[i])
    ensures FindWeaponEntry(files, id) == Failure(NoEntry(id)) <==>
      forall i :: 0 <= i < |files| ==> !Selects(files[i].name, id)
  {
    var p := (e: ArchiveEntry) => Selects(e.name, id);
    WhereEmpty(files, p);
    if |Candidates(files, id)| == 1 {
      var i := OnlyOfWhere(files, p);
      assert OnlySelected(files, id, i);
    }
    forall i | OnlySelected(files, id, i) ensures FindWeaponEntry(files, id) == Success(files[i]) {
      assert OnlyAt(files, p, i);
      WhereOfOnly(files, p, i);
    }
  }

  /** Length of the kind pattern `a..._{kind}\.hkt` for a literal kind. */
  function PatternLength(kind: string): nat {
    |kind| + 9
  }

  /** The pattern `a..._{kind}\.hkt` matches the whole of `w`; `.` is any
      character but a newline. */
  predicate PatternMatches(w: string, kind: string)
    requires |w| == PatternLength(kind)
  {
    var k := 5 + |kind|;
    w[0] == 'a' && w[1] != '\n' && w[2] != '\n' && w[3] != '\n' && w[4] == '_'
      && w[5..k] == kind && w[k..] == ".hkt"
  }

  /** The pattern matches `s` starting at position `i`. */
  predicate MatchesAt(s: string, i: nat, kind: string)
    requires i + PatternLength(kind) <= |s|
  {
    PatternMatches(s[i..i + PatternLength(kind)], kind)
  }

  /** Unanchored `Regex.IsMatch` of the kind pattern on an animation file name. */
  predicate KindMatches(s: string, kind: string) {
    exists i: nat :: i + PatternLength(kind) <= |s| && MatchesAt(s, i, kind)
  }

  /** The match is unanchored: any text may surround a matching name. */
  lemma KindMatchesUnanchored(s: string, kind: string, before: string, after: string)
    requires KindMatches(s, kind)
    ensures KindMatches(before + s + after, kind)
  {
    var t := before + s + after;
    var i: nat :| i + PatternLength(kind) <= |s| && MatchesAt(s, i, kind);
    var j := |before| + i;
    assert t[j..j + PatternLength(kind)] == s[i..i + PatternLength(kind)];
    assert MatchesAt(t, j, kind);
  }

  /** A name shorter than the pattern never matches. */
  lemma KindMatchesNeedsLength(s: string, kind: string)
    requires |s| < PatternLength(kind)
    ensures !KindMatches(s, kind)
  {
  }

  /** A typical animation file name of a kind matches that kind's pattern. */
  lemma KindMatchesExample()
    ensures KindMatches("a000_030000.hkt", "030000")
    ensures KindMatches("N:\\GR\\a123_003000.hkt.bak", "003000")
  {
    assert "a000_030000.hkt"[0..15] == "a000_030000.hkt";
    assert MatchesAt("a000_030000.hkt", 0, "030000");
    assert "N:\\GR\\a123_003000.hkt.bak" == "N:\\GR\\" + "a123_003000.hkt" + ".bak";
    assert "a123_003000.hkt"[0..15] == "a123_003000.hkt";
    assert MatchesAt("a123_003000.hkt", 0, "003000");
    KindMatchesUnanchored("a123_003000.hkt", "003000", "N:\\GR\\", ".bak");
  }
}
