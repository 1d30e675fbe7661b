# SoulsFrameDataAnalyzer — a Dafny model of the frame-data pipeline

SoulsFrameDataAnalyzer reads the weapon animation timelines (TAE files) of a
game's player character. For every configured weapon it finds the weapon's
timeline file. For every configured animation kind it keeps the animations
whose file name matches the kind pattern `a..._{kind}\.hkt`. It folds each
kept animation's attack events (type 1) and jump-table events (type 0) into an
`AttackInfo`: the attack windows and the recovery start. It then writes the
results grouped by kind and weapon label to `out.csv`.

The model follows `SoulsFrameDataAnalyzer/Program.cs`, module by module:

- `Wrappers` (wrappers.dfy): `Option` and `Result`. They stand for C# `null`
  and for thrown exceptions.
- `Text` (text.dfy): ordinal string comparison, `EndsWith`,
  `Path.GetFileName`, and comma split/join.
- `Seqs` (seqs.dfy) and `Ordering` (ordering.dfy): LINQ `Where`, and `OrderBy`
  as a stable insertion sort.
- `Events` (events.dfy): the event record and the fold, written as pure
  functions. `Fold` is the reference definition of the `Aggregate` in `Main`.
- `AttackInfos` (attack_info.dfy): the mutable `AttackInfo` class. `Apply`
  changes the accumulator in place, including the `foreach`/`break` scan over
  the combo ids. `Aggregate` runs the fold as a loop over a fresh object. Each
  is proved equal to the pure fold. Also holds the comparator `CompareTo`.
- `Selection` (selection.dfy): the weapon lookup (`Where(EndsWith("tae"))`
  then `Single`) and the kind pattern match.
- `Pipeline` (pipeline.dfy): the `analyzedWeapons` query. It goes weapon by
  weapon, then kind by kind, then animation by animation.
- `Report` (report.dfy): the two `ToLookup`/`OrderBy` levels.
- `Layout` (layout.dfy): the text of each line, and the nested `foreach` loops
  that write the lines.

I chose to model the accumulator twice: as a pure fold over a sequence of event
records (`Events.Fold`), and as a class whose methods update its fields
(`AttackInfos.AttackInfo`). The methods are proved against the fold, and the
pure pipeline uses the fold.

Facts about `Program.cs` that shape the model:
- Outer groups are ordered by their kind key with `OrderBy` (line 117).
- The inner groups cover every weapon label that occurs; none is excluded (line 121).
- Attack windows are written in the order of `Attacks`, which is event order (line 127).
- Entries inside a weapon group keep production order; `CompareTo` (lines 21-35) is never called.
- An output line holds the file name, the windows and the recovery start, and nothing else (line 127).
- Each kind gets exactly one regular expression, `a..._{kind}\.hkt` (line 79).

## Model

| member | source | states |
|---|---|---|
| `AttackInfos.AttackInfo.constructor` | SoulsFrameDataAnalyzer/Program.cs:13-19 | a new accumulator has no windows, recovery start -1, a null name and no animation |
| `AttackInfos.AttackInfo.Apply` | SoulsFrameDataAnalyzer/Program.cs:85-110 | one in-place fold step: the new windows and recovery start are `Step` of the old ones; the animation back-reference is set; the name is unchanged |
| `AttackInfos.Aggregate` | SoulsFrameDataAnalyzer/Program.cs:82-110 | returns no object exactly when the animation has no type-0 or type-1 event; otherwise a fresh object whose state is the pure fold of the kept events, which records its animation and has a null name |
| `AttackInfos.AttackInfo.CompareTo` | SoulsFrameDataAnalyzer/Program.cs:21-24 | throws exactly when the receiver's name is null; otherwise returns -1/0/1, and 0 exactly when the names are equal; a null other name sorts first |
| `AttackInfos.CompareToOnlyNames` | SoulsFrameDataAnalyzer/Program.cs:21-35 | the result depends only on the two `animName`s, so the time-based branches after line 24 cannot matter |
| `AttackInfos.CompareToAntisymmetric` | SoulsFrameDataAnalyzer/Program.cs:24 | with both names present, swapping the arguments negates the result |
| `AttackInfos.CompareToTransitive` | SoulsFrameDataAnalyzer/Program.cs:24 | with all names present, "at or before" is transitive |
| `Events.Relevant` | SoulsFrameDataAnalyzer/Program.cs:82 | keeps exactly the type-0 and type-1 events |
| `Events.StepAttacks` | SoulsFrameDataAnalyzer/Program.cs:87-93 | an event appends `(StartTime, EndTime)` iff it is type 1 with `Unk04 == 0`; otherwise the windows are unchanged |
| `Events.StepRecovery` | SoulsFrameDataAnalyzer/Program.cs:96-106 | `RecoveryStart` becomes the event's start iff it is type 0 with `JumpTableID` in {4, 116}; otherwise it keeps its value |
| `Events.FoldAttacks` | SoulsFrameDataAnalyzer/Program.cs:84-110 | the final windows are the qualifying type-1 windows, in event order |
| `Events.FoldRecovery` | SoulsFrameDataAnalyzer/Program.cs:84-110 | the final recovery start is the start of the last qualifying type-0 event, or the initial value when there is none |
| `Events.FoldIgnoresOtherTypes` | SoulsFrameDataAnalyzer/Program.cs:82-84 | dropping events of other types does not change the fold |
| `Events.NothingQualifies` | SoulsFrameDataAnalyzer/Program.cs:16-17 | when every event fails its check, the result is the fresh state: no windows, recovery start -1 |
| `Events.SummarizeSpec` | SoulsFrameDataAnalyzer/Program.cs:82-84 | an animation gives no result iff it has no type-0/1 event; otherwise its result is the fold of its whole timeline |
| `Events.Scenarios` | SoulsFrameDataAnalyzer/Program.cs:84-110 | worked cases: hit + id 4 gives `[(0.2,0.5)]`, 0.6; id 999 gives -1; `Unk04 = 1` gives no window; other types give no result |
| `Text.FileName` | SoulsFrameDataAnalyzer/Program.cs:72 | the result is the longest separator-free suffix of the path |
| `Selection.SelectsByFileName` | SoulsFrameDataAnalyzer/Program.cs:71-72 | the `EndsWith("tae")` filter is implied by the file name being `a{id}.tae` |
| `Selection.FindWeaponEntrySpec` | SoulsFrameDataAnalyzer/Program.cs:69-72 | the lookup succeeds iff exactly one entry is selected, and then yields that entry; it fails with "no entry" iff none is selected |
| `Selection.KindMatchesUnanchored` | SoulsFrameDataAnalyzer/Program.cs:79-81 | the match is unanchored: text around a matching name keeps it matching |
| `Selection.KindMatchesNeedsLength` | SoulsFrameDataAnalyzer/Program.cs:79 | a name shorter than the pattern never matches |
| `Selection.KindMatchesExample` | SoulsFrameDataAnalyzer/Program.cs:79-81 | typical file names match their kind, also inside a longer path |
| `Pipeline.KindRecordsSpec` | SoulsFrameDataAnalyzer/Program.cs:79-83 | a record is produced for an animation under a kind iff the name matches and the animation has a type-0/1 event; the record carries that animation's fold |
| `Pipeline.KindRecordsInOrder` | SoulsFrameDataAnalyzer/Program.cs:81-84 | the records of a kind are exactly one per kept animation (name matches and a type-0/1 event exists), in animation order, each carrying that animation's summary |
| `Pipeline.WeaponRecordsSpec` | SoulsFrameDataAnalyzer/Program.cs:76-77 | a weapon's records are those of every configured kind, and only those |
| `Pipeline.AnalyzeFails` | SoulsFrameDataAnalyzer/Program.cs:69-75 | the run fails iff some weapon's lookup fails, with the error of the first such weapon |
| `Pipeline.WeaponRecordsInOrder` | SoulsFrameDataAnalyzer/Program.cs:76-77 | a weapon's records are the records of each configured kind concatenated in configuration order |
| `Pipeline.AnalyzeMembers` | SoulsFrameDataAnalyzer/Program.cs:69-113 | a record is in a successful run's result iff some configured weapon's lookup found a timeline file containing the record's animation, and the record has that weapon, a configured kind and the animation's own summary |
| `Pipeline.AnalyzeSkipsNonTae` | SoulsFrameDataAnalyzer/Program.cs:74 | a weapon whose entry is not a timeline file contributes no record |
| `Pipeline.AnalyzeInOrder` | SoulsFrameDataAnalyzer/Program.cs:69-77 | a successful run's records are each weapon's contribution concatenated in configuration order |
| `Pipeline.AnalyzeRecordsFaithful` | SoulsFrameDataAnalyzer/Program.cs:69-113 | every result of a successful run belongs to a configured weapon and kind, and summarises its own animation |
| `Ordering.SortBySorted` | SoulsFrameDataAnalyzer/Program.cs:117 | `OrderBy` returns a sorted permutation of its input |
| `Ordering.SortByStable` | SoulsFrameDataAnalyzer/Program.cs:121 | `OrderBy` is stable: the elements tied with any value keep their input order |
| `Ordering.SortByTiesInInputOrder` | SoulsFrameDataAnalyzer/Program.cs:121 | two tied output elements appear in the same order in the input |
| `Report.LookupKeysSpec` | SoulsFrameDataAnalyzer/Program.cs:117 | the lookup keys are distinct and are exactly the keys that occur |
| `Report.LookupKeysOrder` | SoulsFrameDataAnalyzer/Program.cs:121 | lookup keys come in order of first occurrence |
| `Report.GroupSpec` | SoulsFrameDataAnalyzer/Program.cs:121 | a group holds exactly the records with its key; a key's group is non-empty and starts with the key's first occurrence |
| `Report.ReportKinds` | SoulsFrameDataAnalyzer/Program.cs:117 | outer groups come in strictly increasing key order, one for each kind key that occurs |
| `Report.WeaponGroupsSpec` | SoulsFrameDataAnalyzer/Program.cs:121 | each inner lookup group holds its label's records in production order, led by the label's first occurrence |
| `Report.KindGroupSorted` | SoulsFrameDataAnalyzer/Program.cs:121 | within a kind, weapon groups ascend by the `RecoveryStart` of their first element |
| `Report.KindGroupMembers` | SoulsFrameDataAnalyzer/Program.cs:121 | a kind's weapon groups are a permutation of that kind's lookup groups |
| `Report.KindGroupLabelsDistinct` | SoulsFrameDataAnalyzer/Program.cs:121 | no weapon label has two groups within a kind |
| `Report.KindGroupLabels` | SoulsFrameDataAnalyzer/Program.cs:121 | a weapon label has a group within a kind iff some result has that kind and label; no label is excluded |
| `Report.KindGroupTies` | SoulsFrameDataAnalyzer/Program.cs:121 | groups with equal first recovery start keep the first-occurrence order of their labels |
| `Report.ReportGroupContents` | SoulsFrameDataAnalyzer/Program.cs:117-125 | every weapon group of the report holds exactly the results with its kind key and weapon label |
| `Report.ReportPlacesRecord` | SoulsFrameDataAnalyzer/Program.cs:117-125 | every result appears in the report, under its own kind key and weapon label |
| `Layout.EntryFieldsLayout` | SoulsFrameDataAnalyzer/Program.cs:127 | a line's columns are two empty ones, the file name, start then end of each window in `Attacks` order (unsorted), then the recovery start |
| `Layout.EntryLineJoins` | SoulsFrameDataAnalyzer/Program.cs:127 | the line built by the `Aggregate` over windows is its columns joined by commas |
| `Layout.EntryLineSplits` | SoulsFrameDataAnalyzer/Program.cs:127 | when the name and numbers contain no comma, splitting the line on commas gives back its columns |
| `Layout.EntryLinesAt` | SoulsFrameDataAnalyzer/Program.cs:125-127 | the i-th entry line of a group is the line of its i-th record |
| `Layout.GroupLinesIn` | SoulsFrameDataAnalyzer/Program.cs:121-129 | each weapon group's lines appear as one unbroken block in its kind's lines |
| `Layout.KindLinesIn` | SoulsFrameDataAnalyzer/Program.cs:117-130 | each kind's lines appear as one unbroken block in the report |
| `Layout.EntryLineFollowsHeaders` | SoulsFrameDataAnalyzer/Program.cs:117-129 | in the output, a record's kind key line comes first, then its weapon group's label line, then the record's own line |
| `Layout.ReportPlacesLine` | SoulsFrameDataAnalyzer/Program.cs:117-129 | every result has its line in the output, below its kind key line and below its weapon label line |
| `Layout.WriteGroup` | SoulsFrameDataAnalyzer/Program.cs:123-128 | the inner loop writes the label line, then one line per record, in group order |
| `Layout.WriteKind` | SoulsFrameDataAnalyzer/Program.cs:119-129 | the middle loop writes the kind key, then each weapon group's lines in sorted order |
| `Layout.WriteReport` | SoulsFrameDataAnalyzer/Program.cs:117-130 | the outer loop writes exactly the lines of the report built from the results |

## Left out

- Reading the BND4/DCX archive, `TAE.Is` and `TAE.Read`: these are foreign library calls. An archive entry is given as a name plus already-decoded `Contents` (`NotTae` or the animations).
- `ApplyTemplate` and the XML template: foreign calls. The decoded `Unk04` and `JumpTableID` parameters are plain integer fields of the event record. The boxed `.Equals(...)` on them is treated as integer equality.
- YAML configuration loading: the `weapons` and `animKind` dictionaries are given as ordered sequences of key/value pairs. Dictionary order is assumed to be their iteration order.
- General .NET regular expressions: the configured kind value is treated as literal text. Metacharacters inside it are not interpreted. Case sensitivity and the newline rule for `.` follow .NET defaults.
- Times are `real`: single-precision rounding and NaN ordering are not modelled.
- Number formatting: rendering is an abstract `num: real -> string` parameter.
- Culture-sensitive string operations: `OrderBy`, `CompareTo` and `EndsWith` are all modelled as ordinal comparison. Characters are compared as Unicode scalar values, not as UTF-16 code units. The two orders differ only between a character above U+FFFF and one in U+E000..U+FFFF.
- `Path.GetFileName`: only handles `\` and `/` as separators. It does not treat a drive prefix specially.
- `AttackInfos.AttackInfo.CompareTo`: does not model the cast of `obj` to `AttackInfo`. The invalid-cast and null-argument cases are missing; `other` is always a non-null `AttackInfo`. `animName` is never assigned in the source, so every result has a null name, and `CompareTo` would throw if called. The source never calls it.
- `StreamWriter`: the file is modelled as a sequence of lines. The source never flushes or disposes the writer, and that is not modelled. Neither is creating (and truncating) `out.csv` before a lookup exception ends the run.
- The animation back-reference (`anim`): it is modelled as "the result records its source animation". The object field is set on every step and the `Record` carries the animation.
