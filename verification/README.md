# PipeExplorer change-detection core, in Dafny

PipeExplorer lists the named pipes of a Windows host and highlights the
ones that appear, change or disappear. This project models the part of the
program that decides what changed, and the value logic around it:

- **The native walker** (`Native`, `DirectoryBuffers`). It walks the chain of
  `FILE_DIRECTORY_INFORMATION` records that each directory query returns.
  The operating system is a finite list of `(status, buffer)` query results.
  A buffer is a `seq<byte>`.
- **Snapshot value types** (`PipeModels`, `AclModels`). These are immutable
  records with null-defaulting constructors, structural equality, the UNC
  path and the hint table.
- **The pipe watcher** (`PipeWatcher`, `WatcherProperties`):
  - the diff a timer tick computes between the retained map and the new
    enumeration;
  - the `Host`, `RefreshInterval` and `IsRunning` setters and `Dispose`,
    as a small state machine.

  A tick is a discrete event. Timers and threads are not modelled.
- **`ObservableSet<T>`** (`ObservableSets`). Each operation is modelled as
  written, next to set semantics.
- **The settings store** (`SettingsStore`). This covers what `Load` parses
  from, and `Save` writes to, a registry key reduced to a map of values:
  - durations and flags;
  - the window state and position;
  - the `Columns` text;
  - the pinned-name synchronisation.
- **The view models** (`PipeViews`, `ExplorerViewModel`):
  - the per-pipe highlight flags and display texts;
  - the explorer's cache keyed by path, with its event handlers, the
    expiry guard and the quick filter.
- **The two XAML converters** (`Converters`).

Shared helpers:

- `Wrappers` holds `Option` and `Result`. They stand in for C#'s `null` and
  thrown exceptions. `Exceptions` names the exception kinds.
- `FixedWidth` holds C#'s 32-bit integers and the unchecked casts between
  them.
- `Decimal` holds decimal text.
- `Text` holds the `string.Split`, `string.Join`, `Contains` and
  white-space operations the codecs use.

The clock, the registry, P/Invoke, resource strings and the rendering of an
ACL rule become parameters of the functions that need them.

One behaviour crosses modules. `Load` accepts any non-negative stored
refresh interval. The watcher's setter refuses 0, so the main view model
cannot be built from a stored 0, although the settings' own validation rule
demands a positive interval (`ExplorerViewModel.StoredZeroIntervalRejected`).
The timer refuses a period above 0xFFFFFFFE ms, which is any interval above
4294967 seconds. The stopped watcher accepts such an interval, but starting
it throws. So when `StartImmediately` is set, such a key also stops the view
model from being built (`ExplorerViewModel.StoredIntervalStartsWithinTimerRange`).

## Model

| member | source | states |
|---|---|---|
| FixedWidth.ToInt32 | Native.cs:145 | `(int)` of a `uint` keeps non-negative values and subtracts 2^32 from the rest: the same 32 bits read as two's complement |
| FixedWidth.ReinterpretRoundTrip | Native.cs:145 | reinterpreting unsigned as signed and back, or signed as unsigned and back, is the identity |
| FixedWidth.AllOnesIsMinusOne | Native.cs:145 | AllocationSize 0xFFFFFFFF is -1, the unlimited-instances sentinel; 0x7FFFFFFF stays positive |
| Decimal.NatToString | ViewModels/PipeViewModel.cs:136-137 | `ToString()` of a count is a non-empty run of digits without a leading zero |
| Decimal.IntToString | Services/Settings.cs:174 | `int.ToString()` starts with '-' exactly for negative values and is all digits otherwise |
| Decimal.ParseInt32Digits | Services/Settings.cs:119-122 | `int.TryParse` on a run of ASCII digits succeeds exactly when the value fits in an `int`, and then yields that value |
| Decimal.NatToStringRoundTrip | ViewModels/PipeViewModel.cs:136 | the digits written for a count read back as the count |
| Decimal.NatToStringInjective | ViewModels/PipeViewModel.cs:136-137 | distinct counts display differently |
| Decimal.Int32TextRoundTrip | Services/Settings.cs:174 | formatting a non-negative `int` and parsing it with `int.TryParse` gives it back |
| Text.Split | Services/Settings.cs:131 | `Split(..., RemoveEmptyEntries)` yields non-empty tokens free of separators, made only of characters of the input |
| Text.Join | Services/Settings.cs:179 | `string.Join` of nothing is empty, and otherwise starts with the first piece |
| Text.SplitJoin | Services/Settings.cs:131-179 | splitting on a separator set undoes joining with one of its characters, for non-empty separator-free pieces (lines 131, 179) |
| Text.SplitSeparator | Services/Settings.cs:131 | a leading separator adds no token |
| Text.JoinCons | Services/Settings.cs:179 | a join of two or more pieces is the first piece, the separator and the join of the rest |
| Text.JoinChars | ViewModels/PipeViewModel.cs:99 | every character of a join comes from a piece or from the separator |
| Text.Contains | ViewModels/PipeExplorerViewModel.cs:108 | ordinal `string.Contains` holds exactly when the needle occurs at some position |
| AclModels.NewRule | Models/AclModel.cs:16-21 | a null principal throws ArgumentNullException; otherwise the three fields are stored |
| AclModels.NewAcl | Models/AclModel.cs:68-73 | a null owner or group becomes "", null rules become the empty list, and other arguments are kept |
| AclModels.RuleEquals | Models/AclModel.cs:28-34 | rule equality is false against null and otherwise compares principal, allows and rights |
| AclModels.RuleOpEq | Models/AclModel.cs:45-48 | `==` on rules: null equals only null, and non-null rules compare structurally |
| AclModels.RuleOpNe | Models/AclModel.cs:50-53 | `!=` on rules is exactly the negation of `==` |
| AclModels.RulesSequenceEqual | Models/AclModel.cs:85 | `SequenceEqual` on rule lists holds exactly for the same rules in the same order |
| AclModels.AclEquals | Models/AclModel.cs:80-86 | ACL equality is false against null and otherwise compares owner, group and the rules in order |
| AclModels.AclOpEq | Models/AclModel.cs:97-100 | `==` on ACLs: null equals only null |
| AclModels.AclOpNe | Models/AclModel.cs:102-105 | `!=` on ACLs is the negation of `==` |
| AclModels.ReorderedRulesUnequal | Models/AclModel.cs:80-86 | the same two distinct rules in the other order give unequal ACLs |
| AclModels.EqualitiesAreEquivalences | Models/AclModel.cs:28-86 | both equalities are reflexive, symmetric and transitive on non-null values (lines 28-34, 80-86) |
| PipeModels.HintFor | Models/PipeModel.cs:45-93 | `GetHintFor`: an exact, case-sensitive lookup of well-known pipe names; every other name has the empty hint |
| PipeModels.New | Models/PipeModel.cs:35-43 | a null host or name throws ArgumentNullException; a null ACL becomes the empty ACL; the hint is the name's hint |
| PipeModels.Create | Models/PipeModel.cs:35-43 | the constructor for non-null names keeps host, name and counts, sets the hint of the name, and keeps a given ACL or takes the empty one for null |
| PipeModels.Path | Models/PipeModel.cs:33 | the path is two backslashes, the host, a backslash and the name |
| PipeModels.Equals | Models/PipeModel.cs:100-108 | equality holds exactly when host, name, both counts, ACL and hint are all equal |
| PipeModels.OpEq | Models/PipeModel.cs:122-125 | `==` is snapshot equality |
| PipeModels.OpNe | Models/PipeModel.cs:127-130 | `!=` is exactly the negation of `==` |
| PipeModels.HintDeterminedByName | Models/PipeModel.cs:41 | two constructed snapshots with equal names have equal hints |
| PipeModels.EqualsIsEquivalence | Models/PipeModel.cs:100-130 | snapshot equality is reflexive, symmetric and transitive |
| PipeModels.HintExamples | Models/PipeModel.cs:45-93 | "spoolss" and "lsarpc" get their hints from the table |
| PipeModels.HintUnknownExamples | Models/PipeModel.cs:45-93 | the lookup is exact and case-sensitive: "Spoolss" and unknown names get "" |
| PipeModels.PathDeterminesIdentity | Models/PipeModel.cs:33 | for hosts without a backslash, equal paths mean equal host and name, and conversely |
| Native.IsNtSuccess | Native.cs:105 | a status is a success exactly when it is at most 0x7FFFFFFF |
| Native.U32At | Native.cs:142 | a 32-bit field read little-endian: each of the four bytes is recovered from the value, least significant first |
| Native.ReadName | Native.cs:143-145 | `PtrToStringUni`: a name read starts inside the buffer and holds no NUL character |
| Native.ReadEntry | Native.cs:142-145 | an entry read starts inside the buffer and carries the low halves of EndOfFile and AllocationSize found at their offsets |
| Native.WalkBatch | Native.cs:139-150 | a walked batch holds at least one entry, and its first entry is the record at the start offset |
| Native.ToPipe | Native.cs:145 | each entry becomes a snapshot with the caller's host, the entry's name, no ACL, AllocationSize's low half reinterpreted as signed and EndOfFile's low half |
| Native.ToPipes | Native.cs:139-150 | one snapshot per chained entry, in chain order, duplicates kept |
| Native.FirstFailure | Native.cs:129-137 | the first query with a non-success status; every earlier one succeeded |
| Native.BatchPipesSnoc | Native.cs:129-153 | one more successful query appends exactly its batch's snapshots |
| Native.RestartFlagsStep | Native.cs:120-152 | after the first query, every further query is issued without RestartScan (lines 120, 133, 152) |
| Native.FailureIsFirst | Native.cs:129-137 | a failing query reached in order is the first failure |
| Native.GetPipes | Native.cs:117-160 | failing to open the namespace throws IOException; otherwise the queries run up to the first non-success status, only the first restarts the scan, and the snapshots are those of every successful batch in order |
| Native.QueryLoop | Native.cs:129-153 | the loop issues one query per success plus the failing one, only the first restarting the scan, and yields every successful batch's snapshots in order |
| DirectoryBuffers.U32Bytes | Native.cs:47-56 | a 32-bit field is four little-endian bytes |
| DirectoryBuffers.NameBytes | Native.cs:143 | a name is written as UTF-16 code units, two bytes each |
| DirectoryBuffers.EntrySize | Native.cs:59 | a record is the fixed header up to FileNameOffset, the name and a NUL unit |
| DirectoryBuffers.Header | Native.cs:45-59 | NextEntryOffset, EndOfFile and AllocationSize sit at their layout offsets |
| DirectoryBuffers.EntryBytes | Native.cs:45-59 | one record occupies exactly its size |
| DirectoryBuffers.U32RoundTrip | Native.cs:142 | a 32-bit read of written bytes gives back the value |
| DirectoryBuffers.U32Frame | Native.cs:149 | a 32-bit read at an offset depends only on the bytes from that offset on |
| DirectoryBuffers.U32Prefix | Native.cs:142 | a 32-bit read depends only on the bytes up to its end |
| DirectoryBuffers.ReadNameFrame | Native.cs:143 | the name read at an offset depends only on the bytes from there on |
| DirectoryBuffers.ReadEntryFrame | Native.cs:142-145 | the entry read at an offset depends only on the bytes from there on |
| DirectoryBuffers.WalkBatchShift | Native.cs:139-150 | the chain walked from an offset is the same with any bytes in front of the buffer |
| DirectoryBuffers.FirstEntryShift | Native.cs:140-145 | the record read after a prefix, and its NextEntryOffset, are those read without the prefix |
| DirectoryBuffers.WalkBatchSameStep | Native.cs:139-150 | two walks agree when their first records, their offsets and the walks from those offsets agree |
| DirectoryBuffers.WalkBatchPastEnd | Native.cs:149 | a walk starting past the end of the buffer is truncated |
| DirectoryBuffers.ReadNameRoundTrip | Native.cs:143 | a name followed by its NUL unit reads back as the name |
| DirectoryBuffers.ReadEntryRoundTrip | Native.cs:142-145 | a record reads back as its entry, and its first field as its NextEntryOffset |
| DirectoryBuffers.WalkRoundTrip | Native.cs:139-150 | records laid back to back, the last with offset 0, walk back to exactly the encoded entries in order |
| DirectoryBuffers.WalkRoundTripOne | Native.cs:139-148 | one record with offset 0 walks back to itself alone |
| DirectoryBuffers.WalkRoundTripCons | Native.cs:139-150 | a record in front of a batch that walks back adds its entry in front |
| DirectoryBuffers.LinkedRecord | Native.cs:142-149 | a record whose offset is its own size reads back as its entry and points just past itself |
| DirectoryBuffers.WalkBatchConcat | Native.cs:139-150 | a record pointing just past itself, in front of a buffer that walks to a tail, walks to its entry then the tail |
| DirectoryBuffers.WalkBatchLast | Native.cs:147-148 | a record with offset 0 ends the walk |
| DirectoryBuffers.WalkBatchLink | Native.cs:147-149 | a record with a non-zero offset is followed by the walk from that offset |
| DirectoryBuffers.FileNameLengthIgnored | Native.cs:56-143 | overwriting FileNameLength changes nothing that is read (lines 56, 143) |
| DirectoryBuffers.UnlimitedInstances | Native.cs:145 | an all-ones AllocationSize gives maxConnections -1; 10 gives 10 |
| PipeWatcher.Observe | Services/PipeWatcher.cs:149-171 | one loop step: the name leaves the previous map and is retained with this snapshot; at most one event is appended, and it is Created exactly when the name is in neither map |
| PipeWatcher.Scan | Services/PipeWatcher.cs:146-172 | the loop retains exactly the enumerated names, leaves only the unseen previous snapshots, and raises at most one event per enumerated pipe |
| PipeWatcher.TimerTick | Services/PipeWatcher.cs:143-177 | the next retained map holds exactly the enumerated names, each with its last snapshot; the removed map is the previous entries not enumerated; the ordered events are those of the per-position rule |
| PipeWatcher.NamesMembership | Services/PipeWatcher.cs:146 | a name is enumerated exactly when some position carries it |
| PipeWatcher.Last | Services/PipeWatcher.cs:151-169 | the snapshot retained under a name carries that name (lines 151, 163, 169) |
| PipeWatcher.LastIsLastOccurrence | Services/PipeWatcher.cs:151-163 | the retained snapshot is the one at the last position carrying the name (lines 151, 163) |
| PipeWatcher.Unseen | Services/PipeWatcher.cs:152-174 | what is left of the previous map is the previous names minus the enumerated ones (lines 152, 174) |
| PipeWatcher.LastSnoc | Services/PipeWatcher.cs:146-172 | one more enumerated snapshot adds its name and becomes its last occurrence |
| PipeWatcher.ObserveRetained | Services/PipeWatcher.cs:149-158 | a name from the previous map moves to the new map and raises Updated only when the snapshot differs |
| PipeWatcher.ObserveDuplicate | Services/PipeWatcher.cs:159-166 | a repeated name replaces the stored snapshot and raises Updated only when it differs |
| PipeWatcher.ObserveNew | Services/PipeWatcher.cs:167-171 | a new name is inserted and raises one Created |
| PipeWatcher.ScanInvariant | Services/PipeWatcher.cs:145-172 | after any prefix of the enumeration, the loop state is the remaining previous map, the last occurrences and the expected events |
| PipeWatcher.NewWatcher | Services/PipeWatcher.cs:53-58 | a new watcher is stopped, not disposed, on host ".", every 3 seconds, with nothing retained |
| PipeWatcher.Start | Services/PipeWatcher.cs:119-121 | the timer constructor throws ArgumentOutOfRangeException exactly for a period it refuses; otherwise starting arms one more timer at the current period and changes nothing else, and a stopped watcher with the invariant is running with it |
| PipeWatcher.TimerPeriodBounds | Services/PipeWatcher.cs:121 | a whole-second period is accepted by the timer, which takes -1 to 0xFFFFFFFE ms, exactly when it is 0 to 4294967 seconds |
| PipeWatcher.Stop | Services/PipeWatcher.cs:123-127 | stopping disposes of the timer and forgets the retained snapshots, and keeps the invariant |
| PipeWatcher.SetIsRunning | Services/PipeWatcher.cs:110-132 | starting a disposed watcher throws ObjectDisposedException; starting with a period the timer refuses throws ArgumentOutOfRangeException; the current value is a no-op; stopping drops the timer and clears the retained map; starting arms a timer at the current interval |
| PipeWatcher.NormalizeHost | Services/PipeWatcher.cs:71-72 | null or "" means the local host "."; any other host is kept |
| PipeWatcher.SetHost | Services/PipeWatcher.cs:64-87 | throws when disposed; the same host is a no-op; a change while running restarts, which throws ArgumentOutOfRangeException only for a period the timer refuses and never under the invariant; while stopped only the host changes |
| PipeWatcher.SetRefreshInterval | Services/PipeWatcher.cs:89-108 | throws ObjectDisposedException when disposed, and ArgumentOutOfRangeException for zero or, when a running watcher is re-armed, for a period the timer refuses; a stopped watcher accepts any other period; a change while running re-arms the timer and keeps the retained map |
| PipeWatcher.Dispose | Services/PipeWatcher.cs:179-192 | marks the watcher disposed; the first disposing call stops it and clears the retained map; later calls change nothing |
| PipeWatcher.Tick | Services/PipeWatcher.cs:143-177 | a tick of a running watcher computes the diff on the retained map and then retains exactly the enumerated names, each with its last snapshot; nothing else changes |
| WatcherProperties.CreatedExactlyForNewNames | Services/PipeWatcher.cs:149-171 | the ordered events hold no Deleted; Created is raised exactly for the enumerated names absent from the previous map, once each, with the first snapshot |
| WatcherProperties.OrderedEventsHaveNoDeleted | Services/PipeWatcher.cs:146-172 | the loop over the enumeration raises only Created and Updated |
| WatcherProperties.FirstWith | Services/PipeWatcher.cs:167-170 | the snapshot a Created carries has the name it was raised for |
| WatcherProperties.FirstWithSnoc | Services/PipeWatcher.cs:167-170 | the first occurrence of a name is unchanged by later positions |
| WatcherProperties.CreatedNeverDeleted | Services/PipeWatcher.cs:146-175 | no removed name was enumerated, no Created name is removed, and each Deleted carries the last-known snapshot |
| WatcherProperties.DeletedComeLast | Services/PipeWatcher.cs:174-175 | in every order of the dictionary, all Deleted events follow all Created and Updated events, one per removed name |
| WatcherProperties.DeletedSuffix | Services/PipeWatcher.cs:174-175 | for any order of the removed names, each removed snapshot is reported as Deleted after all other events, and the list has one entry per event and removed name |
| WatcherProperties.OrderCountsRemoved | Services/PipeWatcher.cs:174 | an order enumerating the removed names has one position per removed name |
| WatcherProperties.DistinctCard | Services/PipeWatcher.cs:174 | a list of names without repeats has as many distinct names as positions |
| WatcherProperties.FirstTickCreatesAll | Services/PipeWatcher.cs:167-171 | from an empty retained map, distinct pipes each raise Created in enumeration order, and nothing is removed |
| WatcherProperties.ExpectedFromNothing | Services/PipeWatcher.cs:167-171 | from an empty previous map, the per-position rule raises one Created per distinct pipe, in order |
| WatcherProperties.CreatedSnoc | Services/PipeWatcher.cs:167-171 | the Created events of a list are those of all but the last pipe, then the last one's |
| WatcherProperties.SecondTickIsQuiet | Services/PipeWatcher.cs:149-176 | repeating the same distinct enumeration raises nothing and keeps the retained map (lines 149-158, 176) |
| WatcherProperties.TickOnRetained | Services/PipeWatcher.cs:149-176 | a tick on the map a pass over the same distinct enumeration retained raises nothing, removes nothing and retains the same map |
| WatcherProperties.TickTwiceIsQuiet | Services/PipeWatcher.cs:143-177 | two ticks of a running watcher on the same distinct enumeration: the second raises nothing, removes nothing and leaves the watcher as the first left it |
| WatcherProperties.RetainedAgain | Services/PipeWatcher.cs:152-176 | enumerating the retained names again leaves no previous snapshot unseen and retains the same snapshots (lines 152, 174, 176) |
| WatcherProperties.UnchangedIsQuiet | Services/PipeWatcher.cs:154 | snapshots equal to the retained ones raise no event |
| WatcherProperties.LastOfDistinct | Services/PipeWatcher.cs:149-158 | without repeated names, the snapshot retained under a name is the one at its position |
| WatcherProperties.NotInEarlierNames | Services/PipeWatcher.cs:149-167 | without repeated names, no earlier position carries a pipe's name (lines 149-158, 167) |
| WatcherProperties.TwoPipes | Services/PipeWatcher.cs:146-172 | a two-pipe pass raises the first pipe's events then the second's; a repeat raises Updated only when it differs |
| WatcherProperties.CreationScenario | Services/PipeWatcher.cs:167-171 | from nothing, A and B are Created in that order |
| WatcherProperties.DuplicateScenario | Services/PipeWatcher.cs:159-166 | identical duplicates collapse to one Created; a differing duplicate adds one Updated and is the one retained |
| WatcherProperties.IdenticalDuplicate | Services/PipeWatcher.cs:159-166 | identical copies of a pipe in one pass raise a single Created |
| WatcherProperties.DifferingDuplicate | Services/PipeWatcher.cs:159-166 | differing copies raise Created then Updated, and the later copy is retained |
| WatcherProperties.EndToEndScenario | Services/PipeWatcher.cs:143-177 | two ticks: both pipes Created, then one Updated, one Created and one removed with its last snapshot |
| WatcherProperties.EndToEndFirstTick | Services/PipeWatcher.cs:167-176 | the first tick creates both pipes and retains them under their names (lines 167-171, 176) |
| WatcherProperties.EndToEndSecondTick | Services/PipeWatcher.cs:149-176 | from that retained map, the changed pipe is Updated, the new one Created and the missing one removed (lines 149-158, 167-176) |
| WatcherProperties.UpdatedThenCreated | Services/PipeWatcher.cs:149-171 | a changed known pipe followed by a new one raises Updated, then Created |
| WatcherProperties.TwoDistinctRetained | Services/PipeWatcher.cs:151-176 | two pipes with different names are retained, each under its own name |
| WatcherProperties.RetainedPair | Services/PipeWatcher.cs:151-176 | the names and snapshots a two-pipe pass retains |
| WatcherProperties.RestartReplaysEveryPipe | Services/PipeWatcher.cs:117-129 | stop then start forgets the retained map, so the next tick reports every pipe as Created |
| WatcherProperties.HostChangeIsStopThenStart | Services/PipeWatcher.cs:73-127 | a host change while running restarts the watcher on the new host: the next tick reports every pipe there as Created and never reports the old host's pipes as Deleted (lines 73-80, 117-127) |
| WatcherProperties.DisposedRejectsChanges | Services/PipeWatcher.cs:69-116 | after disposal, setting the host, the interval or running = true throws ObjectDisposedException, while running = false succeeds (lines 69-70, 94-95, 115-116) |
| WatcherProperties.SameRunningStateIsNoOp | Services/PipeWatcher.cs:117 | setting the running state it already has changes nothing |
| ObservableSets.Elements | Services/ObservableSet.cs:106-114 | the distinct items of an enumerable, which never outnumber its length (lines 106, 114) |
| ObservableSets.DistinctElementsCount | Services/ObservableSet.cs:153-175 | an enumerable without duplicates has as many distinct items as `Count()` (lines 153, 160, 175) |
| ObservableSets.ProperSubsetBySize | Services/ObservableSet.cs:153-160 | among subsets, the proper ones are exactly the smaller ones (lines 153, 160) |
| ObservableSets.Add | Services/ObservableSet.cs:90-101 | returns true exactly when the item was absent; the item is then in the set, which grows by it alone; otherwise nothing changes |
| ObservableSets.UnionWith | Services/ObservableSet.cs:112-116 | the result is the set united with the items |
| ObservableSets.UnionSize | Services/ObservableSet.cs:103-110 | a union grows by exactly the new items |
| ObservableSets.AddRange | Services/ObservableSet.cs:103-110 | ends with the union and returns the number of distinct items that were absent |
| ObservableSets.UnionWithStep | Services/ObservableSet.cs:106-109 | uniting with one more item of the sequence is one more `Add` |
| ObservableSets.AddRangeCount | Services/ObservableSet.cs:103-110 | the number of insertions is the number of distinct items not already held |
| ObservableSets.IntersectWith | Services/ObservableSet.cs:118-123 | as written, the set is unchanged |
| ObservableSets.IntersectWithCorrected | Services/ObservableSet.cs:118-123 | the intended intersection keeps exactly the elements the items hold |
| ObservableSets.IntersectWithKeepsEverything | Services/ObservableSet.cs:118-123 | {1, 2} with items [1] stays {1, 2} as written, against {1} intended |
| ObservableSets.IsSubsetOf | Services/ObservableSet.cs:135-141 | holds exactly when every element is among the items |
| ObservableSets.IsSupersetOf | Services/ObservableSet.cs:143-149 | holds exactly when every item is an element |
| ObservableSets.Overlaps | Services/ObservableSet.cs:165-171 | holds exactly when some item is an element |
| ObservableSets.IsProperSubsetOf | Services/ObservableSet.cs:158-163 | as written, true implies a subset; it is the proper-subset test exactly when the items have no duplicates |
| ObservableSets.ProperSubsetWhenDistinct | Services/ObservableSet.cs:158-163 | without duplicates, comparing Count with `Count()` and testing for a subset decides properness |
| ObservableSets.DistinctCountWhenNoDuplicates | Services/ObservableSet.cs:153-175 | the distinct-count fact, stated for use in the operations (lines 153, 160, 175) |
| ObservableSets.IsProperSubsetOfCorrected | Services/ObservableSet.cs:158-163 | the intended test holds exactly for a proper subset of the items |
| ObservableSets.ProperSubsetCountsDuplicates | Services/ObservableSet.cs:158-163 | {1} against [1, 1] is reported a proper subset as written, though it is not |
| ObservableSets.IsProperSupersetOf | Services/ObservableSet.cs:151-156 | as written, true implies a proper superset; it is the exact test when the items have no duplicates |
| ObservableSets.IsProperSupersetOfCorrected | Services/ObservableSet.cs:151-156 | the intended test holds exactly for a proper superset of the items |
| ObservableSets.ProperSupersetCountsDuplicates | Services/ObservableSet.cs:151-156 | {1, 2} against [1, 1] is denied as a proper superset as written, though it is one |
| ObservableSets.SetEquals | Services/ObservableSet.cs:173-181 | as written, true implies every item is an element; it is set equality exactly when the items have no duplicates |
| ObservableSets.SetEqualsCorrected | Services/ObservableSet.cs:173-181 | the intended test holds exactly when the set equals the items' set |
| ObservableSets.SetEqualsCountsDuplicates | Services/ObservableSet.cs:173-181 | as written, {1} does not equal [1, 1] and {1, 2} does |
| SettingsStore.StateName | Services/Settings.cs:171 | `WindowState.ToString()`: each state's name is recognised, ignoring case, as that state and as no other |
| SettingsStore.ParseWindowState | Services/Settings.cs:107-108 | a case-insensitive match of a state name yields that state; text matching no name yields nothing |
| SettingsStore.WindowStateRoundTrip | Services/Settings.cs:107-171 | every saved state name parses back to the state (lines 107-108, 171) |
| SettingsStore.DigitIsNotSpace | Services/Settings.cs:85 | no digit is white space, so the position pattern's fields are separated cleanly |
| SettingsStore.ParsePosition | Services/Settings.cs:85-127 | an accepted position text is digits and white space only, and gives a non-negative origin with a positive size (lines 85, 110-127) |
| SettingsStore.FormatPosition | Services/Settings.cs:174 | the saved position splits on white space back into its four coordinate texts, whatever their signs |
| SettingsStore.IntTextHasNoSpace | Services/Settings.cs:174 | a coordinate's text, with or without a minus sign, holds no white space |
| SettingsStore.PositionDigitsOrSpace | Services/Settings.cs:85-174 | non-negative coordinates are saved as digits and spaces only, the characters the position pattern admits (lines 85, 174) |
| SettingsStore.PositionRoundTrip | Services/Settings.cs:110-174 | a saved position with a non-negative origin and positive size reloads as itself (lines 110-127, 173-174) |
| SettingsStore.PositionTextFields | Services/Settings.cs:85-174 | the saved position text is digits and white space, splits into four fields, and each field parses back to its coordinate (lines 85, 110-127, 174) |
| SettingsStore.NegativeOriginNotReloaded | Services/Settings.cs:85-174 | a position saved with a negative left edge is not accepted on reload (lines 85, 174) |
| SettingsStore.EmptyRectNotParsed | Services/Settings.cs:85-174 | the empty rectangle's saved text is not accepted on reload (lines 85, 174) |
| SettingsStore.IndexOf | Services/Settings.cs:86 | the first '=' of a token, or the end when there is none |
| SettingsStore.ParseColumnSpec | Services/Settings.cs:86-136 | an accepted token gives a word key and a non-negative width (lines 86, 136) |
| SettingsStore.ParseColumnBody | Services/Settings.cs:86-136 | text matching `key=digits` gives a word key and a non-negative width (lines 86, 136) |
| SettingsStore.ColumnEntries | Services/Settings.cs:133-138 | the kept entries come from the tokens, each with a word key and a non-negative width |
| SettingsStore.ParseColumns | Services/Settings.cs:129-139 | the loaded columns always satisfy the reload conditions |
| SettingsStore.ColumnTexts | Services/Settings.cs:179 | one `key=value` text per entry, in order |
| SettingsStore.FormatColumns | Services/Settings.cs:179 | the saved column text is empty exactly when there are no columns |
| SettingsStore.FirstEqualsAfterWord | Services/Settings.cs:86 | in `key=rest` with a word key, the first '=' follows the key |
| SettingsStore.ColumnSpecRoundTrip | Services/Settings.cs:86-179 | a word key with a non-negative width reparses as itself (lines 86, 136, 179) |
| SettingsStore.NegativeWidthDropped | Services/Settings.cs:86-179 | a negative width is written but dropped on reload (lines 86, 136, 179) |
| SettingsStore.SignedWidthRejected | Services/Settings.cs:86-136 | after a word key and '=', a value starting with a minus sign is refused, with or without a final line feed (lines 86, 136) |
| SettingsStore.SignedBodyRejected | Services/Settings.cs:86-136 | `key=` followed by a minus sign does not match the pattern (lines 86, 136) |
| SettingsStore.ColumnEntriesOfTexts | Services/Settings.cs:133-179 | reparsing the written tokens gives back the entries (lines 133-138, 179) |
| SettingsStore.ColumnSpecHasNoSeparator | Services/Settings.cs:131-179 | a written token is non-empty and holds neither space nor tab (lines 131, 179) |
| SettingsStore.FormattedColumnsSplit | Services/Settings.cs:131-179 | splitting the written Columns text gives back the written tokens (lines 131, 179) |
| SettingsStore.FormattedColumnsNotBlank | Services/Settings.cs:130-179 | a non-empty Columns text is never blank (lines 130, 179) |
| SettingsStore.ColumnsRoundTrip | Services/Settings.cs:129-179 | saved columns with word keys and non-negative widths reload as themselves (lines 129-139, 178-179) |
| SettingsStore.LoadDuration | Services/Settings.cs:99-102 | a stored DWord is taken only when it is non-negative; otherwise the current value stays |
| SettingsStore.LoadFlag | Services/Settings.cs:103-106 | a stored DWord is true exactly when non-zero; any other kind leaves the current value |
| SettingsStore.FlagDWord | Services/Settings.cs:103-170 | the DWord written for a flag loads back as that flag, whatever the default (lines 103-106, 169-170) |
| SettingsStore.LoadState | Services/Settings.cs:107-108 | without a stored state the default Normal stays |
| SettingsStore.LoadPosition | Services/Settings.cs:110-127 | the position is read only in the Normal state, and is either empty or acceptable |
| SettingsStore.LoadColumns | Services/Settings.cs:129-139 | the loaded columns satisfy the reload conditions |
| SettingsStore.Load | Services/Settings.cs:88-153 | a missing key gives the defaults; the pinned names are the key's; a non-Normal state keeps the empty position; the result always reloads |
| SettingsStore.PinnedSync | Services/Settings.cs:190-198 | it deletes only stored names that are not pinned and adds only pinned names that are not stored, after which the stored set equals the pinned set |
| SettingsStore.Save | Services/Settings.cs:155-201 | the pinned subkey equals the pinned names; the position is present exactly in the Normal state; Columns is present exactly when there are columns; other values are kept |
| SettingsStore.SavedValues | Services/Settings.cs:167-181 | each value is written with its kind and format |
| SettingsStore.SavedDWords | Services/Settings.cs:167-170 | the four DWord values `Save` writes are the ones `Load` then looks up |
| SettingsStore.SavedHighlightDuration | Services/Settings.cs:167 | the highlight duration written first survives the later writes and is read back under its name |
| SettingsStore.SavedRefreshInterval | Services/Settings.cs:168 | the refresh interval written survives the later writes and is read back under its name |
| SettingsStore.SavedStartImmediately | Services/Settings.cs:169 | the start-immediately flag is written as a DWord that survives the later writes |
| SettingsStore.SavedReadAcls | Services/Settings.cs:170 | the read-ACLs flag is written as a DWord that survives the later writes |
| SettingsStore.SavedStrings | Services/Settings.cs:171-181 | the state name is always written; the position only in the Normal state; the columns only when there are any, and deleted otherwise |
| SettingsStore.SavedPositionReloads | Services/Settings.cs:110-176 | a saved position reloads as itself (lines 110-127, 173-176) |
| SettingsStore.SavedColumnsReload | Services/Settings.cs:129-181 | saved columns reload as themselves (lines 129-139, 178-181) |
| SettingsStore.SaveLoadRoundTrip | Services/Settings.cs:88-201 | settings that satisfy the reload conditions survive a save and a load |
| SettingsStore.LoadIsStable | Services/Settings.cs:88-201 | saving what was loaded and loading again gives the same settings |
| SettingsStore.EmptyKeyUsesLookupFallbacks | Services/Settings.cs:58-102 | an existing but empty key loads durations 2 and 3, while a missing key keeps 4 and 1 (lines 58-59, 93-94, 99-102) |
| SettingsStore.StoredIntervalBounds | Services/Settings.cs:73-102 | a stored negative interval is ignored, and any other one, 0 included, is loaded (lines 73, 101-102) |
| PipeViews.MaxText | ViewModels/PipeViewModel.cs:136 | a non-negative limit displays as its digits, and a negative one exactly as "∞" |
| PipeViews.MaxTextInjective | ViewModels/PipeViewModel.cs:136 | two limits display alike exactly when equal or both unlimited |
| PipeViews.DigitPrefixDetermined | ViewModels/PipeViewModel.cs:137 | a digit run before a space is recovered from the text |
| PipeViews.ConnectionsText | ViewModels/PipeViewModel.cs:137 | `Connections`: the decimal digits of the active count, which read back as that count, then " / " and the maximum's text |
| PipeViews.ConnectionsTextInjective | ViewModels/PipeViewModel.cs:137 | the connections text determines both counts it shows |
| PipeViews.SyncWithModel | ViewModels/PipeViewModel.cs:133-140 | after a sync, the counts, their texts, the hint and the ACL are the snapshot's; identity, names and flags are kept |
| PipeViews.NewView | ViewModels/PipeViewModel.cs:59-80 | copies host, name and path; RecentlyAdded exactly when asked; never being removed or updated; synced |
| PipeViews.MarkForRemoval | ViewModels/PipeViewModel.cs:52-57 | sets BeingRemoved and clears both highlights; nothing else changes |
| PipeViews.Update | ViewModels/PipeViewModel.cs:105-127 | never leaves BeingRemoved; a view being removed comes back as added; a view not newly added is marked updated |
| PipeViews.RevivedIsAddedNotUpdated | ViewModels/PipeViewModel.cs:107-126 | a marked view that is updated shows as added, not as updated |
| PipeViews.PlainAcl | ViewModels/PipeViewModel.cs:82-103 | the plain ACL is empty exactly when owner, group and rules are all empty |
| PipeViews.JoinTwo | ViewModels/PipeViewModel.cs:89 | joining two parts puts the separator once between them |
| PipeViews.JoinThree | ViewModels/PipeViewModel.cs:89-95 | joining three parts puts the separator between each pair (lines 89, 95) |
| PipeViews.PlainAclJoinsPresentParts | ViewModels/PipeViewModel.cs:82-103 | the plain ACL is the present parts joined with ", ": the separator only ever sits between two parts |
| PipeViews.JoinOptionalParts | ViewModels/PipeViewModel.cs:82-103 | three optional parts, each followed by ", " only when a later part is present, are the present parts joined with ", " |
| ExplorerViewModel.AddView | ViewModels/PipeExplorerViewModel.cs:166-180 | `AddOrUpdate` puts a fresh view under its path and leaves every other key alone; a view added without highlighting keeps the cache free of highlights and removals (lines 166, 176, 180) |
| ExplorerViewModel.Startup | ViewModels/PipeExplorerViewModel.cs:166 | the startup cache holds exactly the enumerated paths, none being removed or highlighted as new |
| ExplorerViewModel.PathsSnoc | ViewModels/PipeExplorerViewModel.cs:166 | the paths of a list are those of all but the last pipe, plus the last one's |
| ExplorerViewModel.PipeCreated | ViewModels/PipeExplorerViewModel.cs:170-182 | a new path gets a new view; a view being removed is replaced by a fresh one; any other cached view stays as it is |
| ExplorerViewModel.PipeUpdated | ViewModels/PipeExplorerViewModel.cs:184-189 | only the cached view for the path is updated, and an absent path changes nothing |
| ExplorerViewModel.PipeDeleted | ViewModels/PipeExplorerViewModel.cs:191-196 | the cached view is only marked for removal, and no key leaves the cache |
| ExplorerViewModel.Expire | ViewModels/PipeExplorerViewModel.cs:139-142 | the key is removed only when the cache still holds that very view, still being removed; otherwise nothing changes |
| ExplorerViewModel.Dispatch | ViewModels/PipeExplorerViewModel.cs:125-127 | each event kind goes to its handler, which keeps the cache invariant |
| ExplorerViewModel.DispatchAll | ViewModels/PipeExplorerViewModel.cs:125-127 | handling a sequence of events keeps the cache invariant |
| ExplorerViewModel.CreatedForPresentIsNoOp | ViewModels/PipeExplorerViewModel.cs:178 | Created events for views present and not being removed leave the cache as it is |
| ExplorerViewModel.StartupSurvivesFirstTick | ViewModels/PipeExplorerViewModel.cs:166-178 | the first tick after startup does not recreate the startup views (lines 166-167, 178) |
| ExplorerViewModel.DeletedThenExpiredIsRemoved | ViewModels/PipeExplorerViewModel.cs:139-196 | a deleted view is dropped when its expiry fires (lines 139-142, 191-196) |
| ExplorerViewModel.RecreatedSurvivesStaleExpiry | ViewModels/PipeExplorerViewModel.cs:139-177 | a view recreated before its expiry is a new object, which the stale expiry leaves in place (lines 139-142, 172-177) |
| ExplorerViewModel.UpdatedSurvivesExpiry | ViewModels/PipeExplorerViewModel.cs:139-189 | a view updated before its expiry is no longer being removed, so the expiry leaves it (lines 139-142, 184-189) |
| ExplorerViewModel.Accepts | ViewModels/PipeExplorerViewModel.cs:103-109 | no filter or an empty one accepts every view; otherwise exactly the names containing the text |
| ExplorerViewModel.ConnectWatcher | ViewModels/PipeExplorerViewModel.cs:124 | handing the loaded interval to a stopped watcher succeeds exactly for a non-zero interval on a live watcher, and never succeeds otherwise |
| ExplorerViewModel.StoredZeroIntervalRejected | ViewModels/PipeExplorerViewModel.cs:124 | a stored interval of 0 loads as 0, and the watcher then throws ArgumentOutOfRangeException |
| ExplorerViewModel.StoredIntervalStartsWithinTimerRange | ViewModels/PipeExplorerViewModel.cs:124-167 | a positive stored interval loads and is handed to the new watcher; starting it, as the unset `StartImmediately` asks, succeeds exactly for at most 4294967 seconds and otherwise throws ArgumentOutOfRangeException (lines 124, 167) |
| Converters.HideMode | ViewModels/AdvancedBooleanToVisibilityConverter.cs:57-63 | a Visible parameter throws ArgumentOutOfRangeException; another Visibility is the hide mode; anything else means Collapsed |
| Converters.Convert | ViewModels/AdvancedBooleanToVisibilityConverter.cs:52-71 | a wrong target gives UnsetValue; a bool shows Visible exactly when it differs from the inversion flag; a non-bool always gives the hide mode |
| Converters.ConvertBack | ViewModels/AdvancedBooleanToVisibilityConverter.cs:82-93 | a wrong target gives UnsetValue; a Visibility gives "is Visible" xor the inversion flag; anything else gives false |
| Converters.ConvertRoundTrip | ViewModels/AdvancedBooleanToVisibilityConverter.cs:52-93 | converting a bool and back gives the bool, for any inversion and allowed parameter |
| Converters.CurrentAfter | ViewModels/ChooseConverter.cs:52 | after k moves, `Current` is element k-1, or throws past the end |
| Converters.Choose | ViewModels/ChooseConverter.cs:23-53 | a non-enumerable parameter throws ArgumentException; a negative or other value gives UnsetValue; a positive integer never returns |
| Converters.ChooseCorrected | ViewModels/ChooseConverter.cs:22-53 | an integer index in range chooses that element, the converter always returns, and it agrees with the written one elsewhere |
| Converters.ChooseFirstThree | ViewModels/ChooseConverter.cs:28-47 | true, false, null and 0 choose the first, second, third and first elements |
| Converters.ChooseShortSequence | ViewModels/ChooseConverter.cs:28-52 | a sequence too short for the selector makes reading `Current` throw InvalidOperation |
| Converters.ChooseDivergesForPositiveIndex | ViewModels/ChooseConverter.cs:45-46 | index 1 hangs as written, against the second element intended |

## Left out

- Win32 and NT interop are foreign calls: `CreateFile`, `NtQueryDirectoryFile`, buffer allocation and marshalling. The operating system is a list of query results with byte buffers. The namespace-open outcome is a parameter.
- Native.GetPipes requires every successful buffer to be a well-formed chain. A malformed buffer is undefined behaviour in the unmanaged code, not an error path.
- DirectoryBuffers: Dafny characters are Unicode scalar values, so names containing UTF-16 surrogate halves are outside the model.
- Native.ReadName refuses every UTF-16 unit from D800 to DFFF, valid surrogate pairs included. So a pipe name with any character outside the Basic Multilingual Plane cannot be read, and through `WellFormed` a buffer holding such a name keeps the whole enumeration out of `GetPipes`.
- Native.IsNtSuccess: STATUS_BUFFER_OVERFLOW and the other warning codes count as failures, as the code at Native.cs:105 has it, so enumeration stops there.
- Timers, threads and overlapping ticks are concurrency. A tick and an expiry are discrete events, and a tick is taken only while running. The `Task.Delay` resets of the highlight flags, the DynamicData pipelines (`ExpireAfter`, `Batch`, `Sort`, `ObserveOnDispatcher`) and the throttled auto-save are left out for the same reason.
- PipeWatcher.Tick has no failure path: an exception in the middle of a pass, which leaves the retained map partly drained, is not modelled.
- PipeWatcher.SetRefreshInterval: after the timer refuses a new period on a running watcher, the source has already stored the period and disposed of the old timer, so the watcher stays marked running with a dead timer. The model returns only the ArgumentOutOfRangeException and does not describe that state.
- PipeWatcher.SetHost: when the restart on the new host throws, the source leaves the watcher stopped on the new host. The model returns only the exception. Under the invariant a running watcher's period is one the timer accepts, so this cannot happen.
- PipeWatcher: intervals are whole seconds (`int`), not `TimeSpan`.
- The events of one tick are the ordered Created/Updated list plus the removed map. The Deleted order comes from an unspecified dictionary enumeration, so DeletedComeLast quantifies over every order.
- The registry and the message dialogs are I/O. A key is a map from value names to DWord or string values, plus the pinned subkey's names. Value-name case-insensitivity and the security and I/O exceptions are not modelled.
- SettingsStore: `TimeSpan` and the `double` fields of `Rect` are floating point. Durations and coordinates are 32-bit integers.
- SettingsStore.SaveLoadRoundTrip: only `Reloadable` records round-trip. A saved position does not reload when it is the empty rectangle ("0 0 0 0" fails the positive-size check), has a negative origin (the minus sign fails the pattern), has a zero or negative width or height, or was saved outside the Normal state (`Save` deletes it and `Load` reads it only in that state). Negative durations and columns with a negative width or a non-word key do not reload either.
- SettingsStore.ParseWindowState matches the three names ASCII-case-insensitively. `Enum.TryParse` also accepts numbers, surrounding white space and comma-separated flags; those forms are left out.
- SettingsStore.ParseColumnSpec treats `\w` as ASCII letters, digits and '_'. Other Unicode word characters are not accepted as keys.
- SettingsStore.Load: a duplicate column key, which makes the dictionary's `Add` throw, is left out. Columns are a sequence of entries.
- SettingsStore: `ISettings` change notification and validation rules are UI plumbing. Only the refresh interval's rule is stated, in prose and in StoredZeroIntervalRejected.
- `GetHashCode` of the snapshots is not modelled: the ACL hash uses the rules list's reference.
- AclViewModel.cs and `AclRuleModel.ToString` are rendering through resource strings and the flags enum's text. The rendering of each rule is a parameter of PlainAcl.
- Null arguments and elements beyond the ones modelled: a null `other` passed to the ObservableSet operations throws from their `foreach` (Services/ObservableSet.cs:106, 114, 120), a null item makes the dictionary's `Add` throw, and null entries in `AclModel.Rules` compared by `SequenceEqual` (Models/AclModel.cs:72, 85) are left out. Dafny sequences and sets hold no null.
- ObservableSet `ExceptWith` and `SymmetricExceptWith` only throw NotImplementedException. `Clear`, `Contains`, `Remove` and `CopyTo` delegate to the dictionary. `Count` is the set's cardinality. `CollectionChanged` forwarding is event plumbing.
- The main window's geometry code, the commands and the application icon are UI.
- The `Pinned` property in the explorer's sort order is not modelled.
- Converters.CurrentAfter assumes that reading `Current` past the end throws InvalidOperationException, as array enumerators do. Other enumerables may behave differently.
- Decimal.IntToString writes '-' for negative values, as the invariant culture does. Services/Settings.cs:174 formats with the current culture, whose negative sign may differ. Reloading is unaffected, because neither sign matches the position or column patterns.
- ChooseConverter.ConvertBack only throws NotImplementedException.
- Converters.Choose: the non-terminating loop for a positive index is a `Diverges` outcome rather than a loop without a termination measure.

## Findings

| source | as written | input that shows it | evidently intended | confidence | as-written member | corrected member |
|---|---|---|---|---|---|---|
| Services/ObservableSet.cs:118-123 | removes an item only when it is not contained, so nothing is ever removed | {1, 2} intersected with [1] | keep only the elements `other` holds, giving {1} | high, not executed | ObservableSets.IntersectWith, ObservableSets.IntersectWithKeepsEverything | ObservableSets.IntersectWithCorrected |
| Services/ObservableSet.cs:158-163 | compares Count with `other.Count()`, which counts duplicates | {1} against [1, 1] answers true | false: {1} is the whole set of [1, 1] | high, not executed | ObservableSets.IsProperSubsetOf, ObservableSets.ProperSubsetCountsDuplicates | ObservableSets.IsProperSubsetOfCorrected |
| Services/ObservableSet.cs:151-156 | compares Count with `other.Count()`, which counts duplicates | {1, 2} against [1, 1] answers false | true: {1} is a proper subset of {1, 2} | high, not executed | ObservableSets.IsProperSupersetOf, ObservableSets.ProperSupersetCountsDuplicates | ObservableSets.IsProperSupersetOfCorrected |
| Services/ObservableSet.cs:173-181 | requires Count to equal `other.Count()`, which counts duplicates | {1} against [1, 1] answers false; {1, 2} against [1, 1] answers true | true for the first and false for the second | high, not executed | ObservableSets.SetEquals, ObservableSets.SetEqualsCountsDuplicates | ObservableSets.SetEqualsCorrected |
| ViewModels/ChooseConverter.cs:45-46 | the loop for a positive index never decrements it | value 1 with parameter [a, b] | the element at index 1, b | high, not executed | Converters.Choose, Converters.ChooseDivergesForPositiveIndex | Converters.ChooseCorrected |
