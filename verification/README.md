# Verified model of the ccls index and its editor-facing algorithms

ccls answers editor requests about C++ code from a global cross-reference index
that is kept up to date while files are edited. This project models, in Dafny,
the parts of it that are algorithms and protocols of its own, from the moment
Clang has produced the records of a file, and proves what they promise.
`dafny verify dfyconfig.toml` checks everything.

- **Text alignment** (`Indel`, `TextAlign`, `ColumnAlign`, `Positions`,
  `LineMapping`, `LineInjective`, `WorkingFiles`). Positions in the indexed text
  are mapped to the edited buffer and back. `Indel` defines the distance of two lines by edit
  scripts; the thresholded, clipped Myers search over the shared work array and
  the one-row distance vector are proved against it, and so is the single
  Hirschberg step that moves a column. `WorkingFiles` is the open file with its
  lazily computed line maps.
- **Incremental index** (`Delta`, `Occurrences`, `EntityTable`, `Database`,
  `Rebuild`, `EntityLists`, `Sites`, `Contributions`, `History`). An update
  withdraws what the previous version of a file contributed and adds what the
  current one does. After any in-order run the database equals one rebuilt from
  the current versions: reference counts, definitions, and, under the exact
  condition given, the lists of entities. `Contributions` says, record by record,
  what a version contributes.
- **Cache files** (`Codec`, `CacheRecords`, `CacheFile`, `CacheIO`). The binary
  format restores what it writes, byte for byte consumed, in whatever order
  unordered maps are visited.
- **Indexer threads** (`Pipeline`, `Completion`, `Delivery`, `EndToEnd`). Any number of threads
  under per-path mutexes, with versions in memory or on disk, push updates that
  chain for every path; what a thread stores is pushed exactly once by the time it
  releases the mutex. The queue's urgent class may overtake; exactly when no
  file is pushed urgent after it was pushed normal, what is applied is in order
  whatever the timing, and the whole system, binary cache included, leaves the
  database current.
- **Fuzzy matching** (`FuzzyScore`, `FuzzyCounts`, `FuzzyMatcher`, `Subsequence`).
  The rolling two-row, two-state table of 32-bit integers with sentinels computes
  the maximum score over all embeddings; a score is a weighted count of what is
  matched and skipped.
- **Highlighting and symbols** (`ScanLine`, `ScanLineTheory`, `Highlight`,
  `SymbolForest`, `Closure`). Overlapping occurrences become disjoint pieces with
  the event array doubling as the stack, pieces become offsets and relative
  tokens, sorted symbols become a forest, and override graphs are closed over.
- **Main loop and queues** (`Backlog`, `WakeUps`, `ThreadedQueue`). Parked
  requests are run again exactly once, as overdue or after the update of their
  file, whichever comes first; no wake-up is lost and quit leaves nobody
  asleep; each class of a queue is first in, first out.
- **Textual forms** (`TextForms`). Printed positions and references parse back.

`Index` holds the records shared by all of these, `Sums` sums of multisets over
unordered keys.

Reading the statements: `Current(db, vs)` says that the database equals a rebuild
from the versions `vs`; `InOrder(log, cs)` that every update starts from the
version of its file applied last; `Aligned`, `FreshMaps`, `IsDelta`, `RowsAfter`
and `Pieces` are what the corresponding methods are proved to compute, and the
lemmas say what is true of them.

Where the code and its comments disagree the model follows the code:

- src/message_handler.cc:397-398 says that of ranges with the same start the one
  ending first comes first; the comparison (lines 109-110) puts it last, so that it
  wins.
- src/working_files.cc:134 and 140-141 describe the searched part as ending before
  the common tail; when the ends overlap the length wraps and the search runs to
  the end (`ColumnAlign.OverlapOptimalIff`).
- src/working_files.cc:58-61 says that a distance above the threshold is reported
  as threshold + 1; for lines too long for the work array a smaller bound may be
  returned (`TextAlign.LowerBoundExactIff`, `TextAlign.LowerBoundNotDistance`).
- src/query.cc:36-42 is used as if it withdrew what one file contributed; it
  withdraws equal entries of other files too (`EntityLists.ListExactIff`,
  `History.DerivedLost`).

## Model

| member | source | states |
|---|---|---|
| Indel.OptimalScript | src/working_files.cc:58-60 | `Dist` is the cost model: the least number of insertions and deletions (no substitution) of any edit script between two texts, and some script attains it |
| Indel.DistIsLcsDistance | src/working_files.cc:58-60 | The distance is the sum of the lengths less twice the length of a longest common subsequence |
| Indel.GridIsPrefixDist | src/working_files.cc:98-99 | Each cell of the alignment grid inside the two texts is the distance of the two prefixes it belongs to |
| Indel.DistStrip | src/working_files.cc:66-73 | Removing a common prefix and a common suffix does not change the distance |
| Indel.DistSplits | src/working_files.cc:119-120 | For every cut of the first text there is a cut of the second through which an optimal alignment passes (the premise of a Hirschberg step) |
| Indel.DistOfReverse | src/working_files.cc:140-146 | Reversing both texts keeps their distance, so a vector computed on reversed texts gives distances of suffixes |
| Indel.DeletionIsSubsequence | src/working_files.cc:58-60 | The difference in length is the whole distance exactly when one text is a subsequence of the other |
| TextAlign.StripEnds | src/working_files.cc:66-73 | The stripped texts have the same distance and the same difference in length as the originals |
| TextAlign.Slide | src/working_files.cc:83-85 | Sliding down a diagonal costs nothing and stops only where the characters differ or a text ends |
| TextAlign.StartPointInReach | src/working_files.cc:83 | The better of the two neighbouring diagonals leads to a point within the round's distance, past what both neighbours could reach |
| TextAlign.FurthestFromNeighbours | src/working_files.cc:82-86 | After sliding, the point stored for the diagonal is the furthest one on it within the round's distance |
| TextAlign.NeighboursVisited | src/working_files.cc:81-83 | The two cells read for a diagonal were both written in the previous round of this call and lie inside the work array, despite the clipping of the diagonals |
| TextAlign.CornerIsReached | src/working_files.cc:80-88 | The clipped diagonals of the round that equals the distance include that of the far corner, and the furthest point there is the corner itself, so overshooting never hides it |
| TextAlign.Advance | src/working_files.cc:83-86 | One loop body turns the previous round's furthest points into the furthest point of its diagonal and changes no other cell |
| TextAlign.VisitDiagonal | src/working_files.cc:82-89 | Extends the round by one diagonal, leaves the previous round's cells alone, and reports success exactly on the corner's diagonal in the round equal to the distance |
| TextAlign.Round | src/working_files.cc:80-90 | A round ends the search exactly when it equals the distance; otherwise it leaves a furthest point for every kept diagonal |
| TextAlign.MyersCore | src/working_files.cc:78-91 | On lengths that fit the work array the search returns the distance cut off at threshold + 1, whatever the static array held before |
| TextAlign.MyersDiff | src/working_files.cc:62-92 | Equals min(distance, threshold + 1) when the stripped lengths sum to at most 400; beyond that it returns the difference in length, cut off, and in every case never more than min(distance, threshold + 1) |
| TextAlign.LowerBoundExactIff | src/working_files.cc:74-76 | The bound reported for lines too long for the work array is the cut-off distance if and only if it exceeds the threshold itself or one line is a subsequence of the other |
| TextAlign.LowerBoundNotDistance | src/working_files.cc:61-76 | It does fail: for 201 characters against 201 different ones 0 is reported and the distance is 402 |
| TextAlign.NextRow | src/working_files.cc:109-114 | Updating the single row in place turns one row of the grid into the next |
| TextAlign.EditDistanceVector | src/working_files.cc:104-117 | Entry j is the distance of the first text and the j-prefix of the second |
| TextAlign.CutVectors | src/working_files.cc:137-146 | The two vectors hold, for every cut of the second text, the distances of the parts left and right of the cut |
| TextAlign.BestCut | src/working_files.cc:148-155 | The scan finds the first (for an end) or last (for a start) index of least total cost |
| TextAlign.SearchCut | src/working_files.cc:135-155 | The index found is the first or last cheapest cut for the given cut of the other text |
| TextAlign.AlignColumn | src/working_files.cc:121-157 | The four cases: inside the common head, inside the common tail, cut off by size, or the first or last cheapest cut of the searched part |
| ColumnAlign.AlignedInRange | src/working_files.cc:121-157 | Every column of the first line, the end included, goes to a column of the second line, also in the cut-off and overlapping cases |
| ColumnAlign.AlignedIsOptimal | src/working_files.cc:119-157 | With ends that do not overlap and below the size cut-off, an optimal alignment of the two whole lines passes through the column and its image |
| ColumnAlign.AlignedIsMonotone | src/working_files.cc:121-157 | Under the same condition images keep the order of columns, for starts and for ends |
| ColumnAlign.AlignedIff | src/working_files.cc:148-156 | With ends that do not overlap, below the size cut-off and between the common ends, a start goes to the last and an end to the first of all columns there on an optimal alignment, and nothing else is an answer |
| ColumnAlign.AlignedOutside | src/working_files.cc:127-132 | In a common end the column keeps its distance from that end of the line; in lines too long it is kept as far as the other line goes |
| ColumnAlign.PrefixIff | src/working_files.cc:123-124 | The common head is the longest one |
| ColumnAlign.SuffixIff | src/working_files.cc:125-126 | The common tail is the longest one |
| ColumnAlign.AlignedOptimalIff | src/working_files.cc:121-157 | Below the size cut-off, the image is optimal if and only if the column is in a common end, or the ends do not overlap, or some cut reached by deletions alone is not beaten by one that is not |
| ColumnAlign.OverlapOptimalIff | src/working_files.cc:134-155 | The same for overlapping ends alone, where the wrapped length makes the search run over the tail as well |
| ColumnAlign.OverlapNotOptimal | src/working_files.cc:134-135 | The overlap case does fail: column 2 of `aaXaa` in `aaa` has no optimal image |
| Positions.GetOffsetForPosition | src/working_files.cc:414-426 | The loop computes the offset of a position: after so many newlines, then so many characters, never past the line or the text |
| Positions.OffsetMonotone | src/working_files.cc:414-426 | Offsets follow the order of positions, so that an edit with start before end always replaces a piece of the text |
| Positions.OffsetInvertsPosition | src/messages/textDocument_formatting.cc:27-42 | For any bytes and any character boundary, converting the boundary to line and column and back gives the boundary |
| Positions.Move | src/messages/textDocument_formatting.cc:30-42 | The cursor moved on from one boundary to a later one is where counting from the start of the text would be |
| Positions.ReplacementsToEdits | src/messages/textDocument_formatting.cc:27-50 | The start and end of each edit denote exactly the bytes of its replacement, in order and with its text |
| LineMapping.SeedUnique | src/working_files.cc:230-282 | The hashes determine which lines start as confident: those unique on both sides |
| LineMapping.ExtendedSound | src/working_files.cc:284-294 | Both extensions together map lines only to lines of equal hash, in range, and lose no confident line |
| LineMapping.TwinsMapped | src/working_files.cc:270-294 | A line unique on both sides maps to its twin in the end; neither extension moves it |
| LineMapping.ConfidenceSpreads | src/working_files.cc:284-294 | The line after (before) a confident line whose successor (predecessor) matches is confident as well |
| LineMapping.EqualTextsIdentity | src/working_files.cc:270-294 | Equal texts with at least one unique line are mapped by the identity |
| LineMapping.InverseGreatest | src/working_files.cc:296-300 | Entry j of the inverse is the greatest line mapped to j, and -1 if there is none |
| LineMapping.NotInjective | src/working_files.cc:284-300 | The map can send two lines to one: in `U1 x x U2` against `U1 x U2` both x are mapped to the same line |
| LineInjective.GapMap | src/working_files.cc:284-294 | Between two twins neighbouring in the index both passes leave exactly the run matched up from the lower twin and, above it, what is left of the run matched down from the upper one |
| LineInjective.Owner | src/working_files.cc:284-294 | Every mapped line belongs to the run of one twin, on its diagonal |
| LineInjective.InRunMaps | src/working_files.cc:284-294 | and every line of a run is mapped along it |
| LineInjective.MeetingRuns | src/working_files.cc:284-294 | Only runs of twins neighbouring in the buffer can meet there |
| LineInjective.InjectiveIff | src/working_files.cc:225-294 | For all texts: no two index lines are mapped to one buffer line if and only if, for twins neighbouring in the buffer, the lines matched down from the upper and up from the lower one fit between them |
| LineInjective.InverseReturnsIff | src/working_files.cc:296-300 | Going to the buffer and back returns every mapped line under exactly the same condition |
| LineInjective.CollisionsAreEqual | src/working_files.cc:284-294 | Two lines mapped to one are equal lines, and occur in the buffer |
| LineInjective.InjectiveWithoutRepeats | src/working_files.cc:225-228 | If no repeated index line occurs in the buffer the map is injective |
| WorkingFiles.ToLines | src/working_files.cc:45-56 | The loop cuts the text at its newlines, dropping a carriage return before one |
| WorkingFiles.LinesRoundTrip | src/working_files.cc:45-56 | For every text, joining the lines again gives the text without the carriage returns right before a newline, and with a newline at the end |
| WorkingFiles.LinesAreLines | src/working_files.cc:45-56 | and no line contains a newline |
| WorkingFiles.FindUnique | src/working_files.cc:237-251 | After the counting loop exactly the lines with a unique hash keep their index, and the table answers which line is the only one with a hash |
| WorkingFiles.SoleIsUnique | src/working_files.cc:239-249 | The table names a line for a hash exactly when that line is the only one with it |
| WorkingFiles.AlignTwins | src/working_files.cc:270-282 | The third loop leaves exactly the lines unique on both sides, pointing at their twins |
| WorkingFiles.ExtendBothWays | src/working_files.cc:284-294 | The two loops, in place, compute the downward and then the upward extension |
| WorkingFiles.ExtendDownwards | src/working_files.cc:285-289 | The first of them, in place |
| WorkingFiles.ExtendUpwards | src/working_files.cc:290-294 | The second, in place |
| WorkingFiles.Invert | src/working_files.cc:296-300 | The last loop computes the inverse, later lines overriding earlier ones |
| WorkingFiles.ClosestLine | src/working_files.cc:182-193 | The first line of least distance between the bounds, or the upper bound if none is within the threshold |
| WorkingFiles.FindMatchingLine | src/working_files.cc:162-198 | A confident line goes to its image; otherwise the closest line between the images of the nearest confident lines around it; nothing if these cross; the column is aligned with the line found |
| WorkingFiles.BetweenNeighbours | src/working_files.cc:170-194 | In terms of the mapped lines around it: an unmapped line has an answer exactly when the images of its nearest mapped neighbours, or the ends of the text, have not crossed; it is the first of the closest lines between them, both included |
| WorkingFiles.ApplyIs | src/working_files.cc:396-401 | An edit keeps the bytes before its start and after its end and puts its text in between |
| WorkingFiles.AppliedInOrder | src/working_files.cc:387-402 | The first of several edits is applied first |
| WorkingFiles.FreshMapsUnique | src/working_files.cc:229-301 | The lines alone determine both maps |
| WorkingFiles.WorkingFile.constructor | src/working_files.cc:202-207 | A new file holds its content and no index, with cleared maps |
| WorkingFiles.WorkingFile.SetIndexContent | src/working_files.cc:209-214 | New index lines clear both maps |
| WorkingFiles.WorkingFile.OnBufferContentUpdated | src/working_files.cc:216-221 | New buffer lines clear both maps, whatever they were |
| WorkingFiles.WorkingFile.OnChange | src/working_files.cc:387-402 | The events are applied one after the other: replace everything, or prefix + text + suffix at the offsets in the text as changed so far |
| WorkingFiles.WorkingFile.ComputeLineMapping | src/working_files.cc:229-301 | Both maps become those of a fresh computation |
| WorkingFiles.WorkingFile.EnsureMapping | src/working_files.cc:311-312 | Recomputing only cleared maps still leaves the maps of a fresh computation, in every reachable state |
| WorkingFiles.WorkingFile.GetBufferPosFromIndexPos | src/working_files.cc:303-314 | In every reachable state the answer is that of a fresh computation of the maps; outside the index only the end position has one, and the column is left alone |
| WorkingFiles.WorkingFile.GetIndexPosFromBufferPos | src/working_files.cc:316-323 | The same in the other direction |
| WorkingFiles.MapsSound | src/working_files.cc:223-301 | Mapped lines have equal hashes and valid indices, and the inverse names the last line mapped to a line |
| WorkingFiles.TwinsMapBothWays | src/working_files.cc:225-228 | Lines unique on both sides map to each other in both maps |
| WorkingFiles.NeighboursMap | src/working_files.cc:225-228 | Matching neighbours of a confident line are confident |
| WorkingFiles.ReturnsIff | src/working_files.cc:223-301 | For an open file: every mapped index line comes back from the buffer to itself if and only if the runs of twins neighbouring in the buffer fit between them |
| WorkingFiles.UnchangedTextMapsToItself | src/working_files.cc:223-301 | An unchanged text with a unique line maps by the identity both ways |
| Delta.KindDelta | src/query.cc:123-139 | The two loops over one entity map, in any order of the map, pair for every entity its old with its new lists, and list the named definitions of either version once each |
| Delta.CreateDelta | src/query.cc:114-179 | The update takes the previous version to the current one, for all three kinds and the file definition |
| Occurrences.DeltaOccs | src/query.cc:114-179 | What an update takes away is exactly what the previous version contributes, and what it adds exactly what the current one does: spellings, declarations and widened uses |
| Occurrences.FileDeltaOccs | src/query.cc:114-179 | The same for a whole update and all kinds |
| Occurrences.FileOccsGrow | src/query.cc:385-392 | What a version contributes does not change when further paths get ids |
| Contributions.FileRefs | src/query.cc:316-380 | What a version contributes to the counts, read off its records: of every function, type and variable the spelling if named and placed, all declarations and all uses, each with its range, usr, kind, role, extent and file |
| Contributions.WidenedIs | src/query.cc:289-297 | Implicit calls grow by a column on each side, as far as there is one on the left and wrapping on the right; no other use of any kind changes |
| Contributions.FileOfPath | src/query.cc:248-252 | A local file id stands for the path listed last for it, and -1 for the file itself |
| Contributions.FuncEntry | src/query.cc:123-139 | What the record of a function adds to its entity: definition with spelling, declarations, widened uses, derived |
| Contributions.TypeEntry | src/query.cc:141-159 | The same for a type, with its instances |
| Contributions.VarEntry | src/query.cc:161-176 | The same for a variable, which has neither derived entities nor instances |
| Contributions.NoEntry | src/query.cc:114-179 | A version adds nothing to entities it has no record of |
| EntityTable.RemoveRange | src/query.cc:36-42 | Drops every element that equals a removed one by range and file, keeping the others in order |
| EntityTable.WithoutConcat | src/query.cc:36-42 | What stays keeps its order |
| EntityTable.FindDef | src/query.cc:57-65 | The first definition of the file, or the end |
| EntityTable.Table.Register | src/query.cc:238-243 | An entity gets the next index when it has none; the usr map stays a bijection onto the dense array, and no entity changes |
| EntityTable.Table.EraseDefOf | src/query.cc:195-203 | Erases the first definition of the file from one entity and changes no other |
| EntityTable.Table.PutDefOf | src/query.cc:411-417 | Replaces the file's definition of one entity or appends it, registering the entity if needed |
| EntityTable.Table.ChangeDeclarations | src/query.cc:236-246 | Removes the old and appends the new declarations of one entity and changes no other |
| EntityTable.Table.ChangeUses | src/query.cc:282-309 | The same for uses |
| EntityTable.Table.ChangeDerived | src/query.cc:336 | The same for derived entities |
| EntityTable.Table.ChangeInstances | src/query.cc:358 | The same for instances |
| Database.Db.constructor | src/pipeline.cc:644 | A new database has no files, no entities and counts nothing |
| Database.Db.GetFileId | src/query.cc:385-392 | Paths and ids stay in one-to-one correspondence with `files[id].id = id`; ids once given never change |
| Database.Db.ChangeRef | src/query.cc:261-278 | One count goes up or down; it never becomes negative, stored counts stay positive and a count that reaches zero is erased |
| Database.Db.SubtractSpells | src/query.cc:324-326 | The spellings of the removed definitions are uncounted, without touching what is owed otherwise |
| Database.Db.RemoveUsrs | src/query.cc:192-233 | Every listed entity loses the file's definition; nothing else changes |
| Database.Db.UpdateDefs | src/query.cc:400-419 | The new definitions are stored, replacing those of the same file, and their spellings counted |
| Database.Db.ChangeDeclRefs | src/query.cc:329-334 | Over all entities, in any order, the old declarations are uncounted and the new ones counted |
| Database.Db.ChangeDeclarations | src/query.cc:236-246 | Every entity of the update has its declarations replaced, in any order of the map |
| Database.Db.ChangeDerived | src/query.cc:336 | Every entity of the update has its derived entries replaced |
| Database.Db.ChangeInstances | src/query.cc:358 | Every entity of the update has its instances replaced |
| Database.Db.UpdateUsesOf | src/query.cc:280-310 | The uses of one entity are uncounted, replaced and counted, implicit calls widened by a column on each side |
| Database.Db.UpdateUses | src/query.cc:337-338 | The same for all entities of the update, in any order |
| Database.Db.ApplyDefs | src/query.cc:324-328 | Definitions go out and come in, with their spellings |
| Database.Db.ApplyLists | src/query.cc:329-336 | Declarations, derived entities and instances are replaced |
| Database.Db.ApplyKind | src/query.cc:319-338 | One kind as a whole: total + removed = old total + added, and every row becomes the row after the update |
| Database.Db.RegisterLids | src/query.cc:248-252 | Every listed path has an id afterwards, and local ids resolve to it |
| Database.Db.DefineLids | src/query.cc:251-258 | Every listed file without a definition gets the empty one of its path; all other definitions stay |
| Database.Db.DefineLid | src/query.cc:254-257 | The same for one file |
| Database.Db.RegisterFiles | src/query.cc:248-258 | All paths of both versions have ids; for every path the definition afterwards is known: the new one for the file itself, the empty one for files first referred to, the old one otherwise |
| Database.Db.SetFileDef | src/query.cc:394-398 | The definition of one path is replaced |
| Database.Db.ApplyContents | src/query.cc:316-380 | The references counted change by exactly those of the current less those of the previous version |
| Database.Db.ApplyKinds | src/query.cc:316-380 | The three kinds one after the other |
| Database.Db.ApplyIndexUpdate | src/query.cc:235-383 | The references counted change by exactly those of the current less those of the previous version, every table row becomes the row after the update, and the definition of every path is known |
| Rebuild.AllOccsUpdate | src/query.cc:235-383 | Replacing one file's version changes what all versions contribute by exactly the difference of the two versions |
| Rebuild.DefsAfterOf | src/query.cc:192-233 | An update replaces the file's own definition of an entity and no other file's |
| Rebuild.DefsExactStep | src/query.cc:324-328 | "Exactly one definition per file that currently names the entity, and none of any other file" is kept by every in-order update |
| EntityLists.WithoutExactIff | src/query.cc:36-42 | `removeRange` takes out exactly the withdrawn elements if and only if nothing else in the list equals one of them |
| EntityLists.ListExactIff | src/query.cc:236-246 | A list that was the sum of all files' contributions is so after an update if and only if no other file contributes an entry equal to a withdrawn one |
| EntityLists.RowExactIff | src/query.cc:282-310 | The same for the uses, declarations, derived entities and instances of an entity, each by itself |
| EntityLists.ListsExactIff | src/query.cc:329-338 | The same for all entities of a table |
| Sites.ResolvePath | src/query.cc:261-271 | A local id resolves to the id of the path it stands for |
| Sites.CleanIffApart | src/query.cc:25-42 | Equal entries are uses or declarations at the same range of the same file, or equal usrs |
| Sites.StepCleanIff | src/query.cc:36-42 | An update keeps a kind of list equal to a rebuild if and only if the version it replaces shares no such entry with the version of another file |
| History.ApplyNext | src/query.cc:235-383 | An update that starts from the version applied last for its path takes a database equal to a rebuild from the old versions to one equal to a rebuild from the new versions; each kind of list that was exact stays so if and only if no withdrawn entry is shared |
| History.ApplyStep | src/query.cc:235-383 | The same along a run, the condition in terms of the versions alone; the files with a definition are those indexed or referred to so far |
| History.CountsCurrent | src/query.cc:261-278 | Each stored count is the number of references of all current versions there, and an entry is stored exactly when that number is positive |
| History.OneDefinitionPerFile | src/query.cc:192-233 | Of every kind, an entity has exactly one definition from a file whose current version names it, that version's definition with its spelling and file, and none otherwise |
| History.FileDefinition | src/query.cc:44-54 | The definition of an indexed file has the path, arguments, language, includes, skipped ranges and dependencies of its current version; a file only referred to has an empty one with its path |
| History.Replay | src/query.cc:235-383 | After any in-order run of any length the database equals one rebuilt from the current versions, and the files with a definition are those indexed or referred to; each kind of list as well if no update withdrew a shared entry |
| History.DerivedLost | src/query.cc:36-42 | It does fail: after an in-order run of three updates, in which one of two files deriving the same entity is deleted, the derived list is not that of a rebuild |
| Codec.VarUIntInverts | src/serializer.hh:75-120 | Every unsigned 64-bit integer is read back from its 1, 3, 5 or 9 bytes, and reading stops right behind them |
| Codec.VarUIntForm | src/serializer.hh:107-120 | The integer takes the shortest of the four forms, told apart by the first byte, the bytes after it in little-endian order |
| Codec.LittleByte | src/serializer.hh:101-105 | Byte i of a fixed-width integer is its i-th digit to the base 256 |
| Codec.ZigZagValue | src/serializer.hh:121 | Zigzag takes n to 2n and -n to 2n - 1, so small magnitudes stay small |
| Codec.ZigZagInverts | src/serializer.hh:85-88 | Zigzag is a bijection between the signed and the unsigned 64-bit integers, the extremes included |
| Codec.StringInverts | src/serializer.hh:89-95 | A string without NUL is read back up to its terminator |
| Codec.PairOf | src/serializer.hh:322-329 | A pair of round-tripping codecs round-trips |
| Codec.VectorOf | src/serializer.hh:344-354 | A vector of any 64-bit length round-trips when its elements do, and reading one only moves forward |
| Codec.MaybeOf | src/serializer.hh:279-290 | An optional value round-trips when it is valid, or absent in its default form |
| CacheRecords.U16Codec | src/serializer.cc:110-124 | 16-bit unsigned integers survive the detour over 64 bits, every value |
| CacheRecords.I16Codec | src/serializer.cc:109-123 | The same for signed 16-bit integers |
| CacheRecords.I32Codec | src/serializer.cc:111-125 | The same for signed 32-bit integers |
| CacheRecords.PosCodec | src/position.cc:74-88 | Every position round-trips |
| CacheRecords.RangeCodec | src/position.cc:78-94 | Every range round-trips |
| CacheRecords.UseCodec | src/indexer.cc:1427-1447 | Every use round-trips |
| CacheRecords.DeclCodec | src/indexer.cc:1432-1451 | Every declaration reference round-trips |
| CacheRecords.SymbolCodec | src/indexer.cc:1421-1442 | Every symbol reference round-trips |
| CacheRecords.FuncCodec | src/serializer.cc:276-299 | Functions round-trip, field by field in the order written |
| CacheRecords.TypeCodec | src/serializer.cc:301-326 | Types round-trip |
| CacheRecords.VarCodec | src/serializer.cc:328-348 | Variables round-trip |
| CacheRecords.IncludeCodec | src/serializer.cc:206-211 | Includes round-trip |
| CacheRecords.ListingCodec | src/serializer.cc:350-372 | Index files with their maps listed round-trip |
| CacheFile.ListingInverts | src/serializer.cc:162-173 | Reading restores a map whatever order it was written in |
| CacheFile.ListingEnc | src/serializer.hh:283-290 | An absent spelling is written as its default form, whatever it held |
| CacheFile.FileSize | src/serializer.cc:456-457 | No cache file is short enough to be rejected as such |
| CacheFile.CacheRoundTrip | src/serializer.cc:415-470 | Every file with C strings and 64-bit sizes, in whatever order its maps are written, reads back as itself with absent spellings in default form, and reading consumes exactly the bytes written |
| CacheFile.NormalIs | src/serializer.cc:350-372 | The file read back is the very file written exactly when every spelling has a place or is in default form, and otherwise differs in records without a placed spelling only |
| CacheFile.NormalFuncIs | src/serializer.hh:283-290 | Such a record of a function differs in its spelling only |
| CacheFile.NormalTypeIs | src/serializer.hh:283-290 | The same for a type |
| CacheFile.NormalVarIs | src/serializer.hh:283-290 | The same for a variable |
| CacheFile.OutdatedRejected | src/serializer.cc:459-462 | A file written with another version is rejected |
| CacheIO.BinaryWriter.Pack | src/serializer.hh:101-105 | Appends the low bytes in little-endian order |
| CacheIO.BinaryWriter.WriteVarUInt | src/serializer.hh:107-120 | Appends the tagged form of the integer |
| CacheIO.BinaryWriter.WriteVarInt | src/serializer.hh:121 | Appends the zigzag form |
| CacheIO.BinaryWriter.WriteVector | src/serializer.hh:350-354 | Appends the size and the elements |
| CacheIO.BinaryReader.GetBytes | src/serializer.hh:69-74 | Reads an integer of fixed width and advances over it |
| CacheIO.BinaryReader.ReadVarUInt | src/serializer.hh:75-84 | Reads the tagged form and advances to where the parser stops |
| CacheIO.BinaryReader.ReadI32 | src/serializer.hh:85-88 | Reads a zigzag integer narrowed to 32 bits |
| CacheIO.BinaryReader.ReadString | src/serializer.hh:89-95 | Reads up to and over the terminator |
| CacheIO.BinaryReader.ReadVector | src/serializer.hh:344-349 | Reads as many elements as the size says |
| CacheIO.BinaryReader.Read | src/serializer.hh:69-95 | Reads a value and advances to where its codec stops |
| CacheIO.BinaryWriter.WriteListing | src/serializer.cc:350-372 | Writes an index file field by field, vectors included |
| CacheIO.BinaryReader.ReadListing | src/serializer.cc:350-372 | Reads an index file field by field, or reports that the file ends too early |
| CacheIO.ListEntries | src/serializer.cc:169-173 | Visits every entry of a map once, in any order |
| CacheIO.ListFile | src/serializer.cc:350-368 | Lists all maps of a file |
| CacheIO.Serialize | src/serializer.cc:415-425 | Writes the version and then the file, its maps in some order |
| CacheIO.Deserialize | src/serializer.cc:445-470 | Rejects empty, short and outdated files and reads the others as the parser does |
| Pipeline.LockedStep | src/pipeline.cc:186-190 | Whoever works on a path holds the mutex its hash picks, also when paths share a mutex |
| Pipeline.PhaseStep | src/pipeline.cc:257-316 | On the path of the acting thread every step of loading or storing leads from the facts of one program point to those of the next |
| Pipeline.RemoveStep | src/pipeline.cc:814-819 | Forgetting a path in memory keeps the invariant |
| Pipeline.InvStep | src/pipeline.cc:372-417 | Every atomic action of every thread keeps the invariant of all paths |
| Pipeline.RunInv | src/pipeline.cc:192-420 | The invariant holds in every state of every interleaving of any number of threads |
| Pipeline.PushedChain | src/pipeline.cc:382-409 | In every interleaving the updates pushed for a path form a chain: the first starts from no previous version, each later one from the version pushed before |
| Pipeline.CacheIsLastPushed | src/pipeline.cc:166-184 | Whenever no thread works on a loaded path, `rawCacheLoad` yields the version pushed last, deletions included, whether it is in memory, dropped from it, or on disk |
| Completion.StoreCompletes | src/pipeline.cc:382-409 | In every interleaving, when a thread that started to store a version releases the mutex it has pushed that version exactly once, from the version of the file pushed last |
| Completion.LoadCompletes | src/pipeline.cc:258-318 | When a thread that looked for a cached version releases the mutex it has given up, pushing nothing, or has pushed what the disk held exactly once, as the first version of the file |
| Delivery.PopSorted | src/threaded_queue.hh:140-153 | Each class of the queue keeps push order and nothing is lost or duplicated when an update is taken |
| Delivery.PushIndexed | src/threaded_queue.hh:85-95 | Pushing an index into the log moves the queue object as the model does |
| Delivery.TakeIndexed | src/threaded_queue.hh:140-153 | The queue object hands out exactly the update the model takes next, and none exactly when the model has none |
| Delivery.FrontVersion | src/pipeline.cc:405 | If the update taken overtakes none of its file, what has been applied for the file is exactly what the update starts from |
| Delivery.DeliveredInOrder | src/pipeline.cc:405 | As long as no update overtakes an earlier one of its own file, what is applied is an in-order run |
| Delivery.NoOvertakingIff | src/threaded_queue.hh:140-153 | Nothing is overtaken whatever the timing if and only if no file is pushed urgent after it was pushed normal |
| Delivery.PushOrderIff | src/threaded_queue.hh:140-153 | In every schedule each file's updates are applied in push order if and only if no file is pushed urgent after it was pushed normal |
| Delivery.NeverPromotedInOrder | src/pipeline.cc:405 | Then what is applied is an in-order run, whatever the timing |
| Delivery.InOrderIff | src/pipeline.cc:405 | and, for versions that differ in their references, only then |
| Delivery.AllDelivered | src/pipeline.cc:696-701 | Once everything pushed is applied, every file is at the version pushed last |
| Delivery.OvertakingBreaksOrder | src/query.cc:264-266 | After overtaking, the references of the version overtaken are to be withdrawn while none of them is counted, which is what `assert(v >= 0)` excludes |
| EndToEnd.BinaryCacheLegal | src/serializer.cc:415-470 | The binary cache format is the reliable storage the indexer threads are assumed to have |
| EndToEnd.ServeIndexed | src/pipeline.cc:192-420 | Any number of indexer threads in any interleaving over the binary cache, any delivery without overtaking: the database equals a rebuild from the versions applied, lists included where nothing shared was withdrawn, and from the versions pushed last once all are applied |
| FuzzyScore.BestIsUpper | src/fuzzy_match.cc:108-126 | No admissible mask scores more than the two-state recursion |
| FuzzyScore.BestIsReached | src/fuzzy_match.cc:108-126 | Some admissible mask scores what the recursion says |
| FuzzyScore.BestBounds | src/fuzzy_match.cc:48-79 | Real scores lie between -50 for each character of the text and 32 for each character of the pattern |
| FuzzyCounts.RoleIs | src/fuzzy_match.cc:30-36 | Only letters have roles; a lower-case letter is a head after anything but a letter, an upper-case one unless it follows an upper-case letter and no lower-case letter follows |
| FuzzyCounts.AdmissibleIff | src/fuzzy_match.cc:119-123 | A mask is admissible if and only if every match is the same character, or without case sensitivity the same letter, a first match on a tail keeping the case |
| FuzzyCounts.EmbeddingIff | src/fuzzy_match.cc:113-126 | An embedding matches the pattern character by character, in order, and ends with a match |
| FuzzyCounts.SameLetterIff | src/fuzzy_match.cc:121 | Lower-cased characters are equal exactly for the same letter in either case |
| FuzzyCounts.ScoreIsPoints | src/fuzzy_match.cc:48-79 | The score of a mask by counts over its characters: 1 for every agreement in case and 1 more if the pattern has upper-case letters or no character has been skipped, 30 for heads on heads, -10 for heads on tails, -30 for tails after a gap, -40 for a first match on a tail, -3 for every skip, -10 for skipped heads and for gaps begun after a match |
| FuzzyCounts.TotalIsPoints | src/fuzzy_match.cc:128-133 | The total is that less two for every character after the last match |
| FuzzyMatch.CalculateRoles | src/fuzzy_match.cc:24-45 | The one-pass loop gives every character the role its neighbours determine, and the set of classes present |
| FuzzyMatch.FuzzyMatcher.constructor | src/fuzzy_match.cc:81-94 | The pattern without spaces, with the roles from before their removal, and sensitivity 1 resolved by its upper-case letters |
| FuzzyMatch.KeptIs | src/fuzzy_match.cc:86-93 | Exactly the characters that are not spaces are kept, in order, each with the role it has in the whole pattern |
| FuzzyMatch.QueryIs | src/fuzzy_match.cc:81-94 | Case matters if asked for, at sensitivity 1 exactly if the pattern has an upper-case letter |
| FuzzyMatch.FuzzyMatcher.DropSpaces | src/fuzzy_match.cc:86-93 | Compacting roles and letters in place keeps each next to its character |
| FuzzyMatch.MissCell | src/fuzzy_match.cc:118 | One step of a skipped character keeps a cell exact, or a sentinel far below every score |
| FuzzyMatch.MatchCell | src/fuzzy_match.cc:121-124 | One step of a matched character keeps a cell exact, or a sentinel: sentinels that receive bonuses are still recognisable |
| FuzzyMatch.FuzzyMatcher.FirstRow | src/fuzzy_match.cc:108-112 | Row zero holds the scores of masks without a match |
| FuzzyMatch.FuzzyMatcher.FillColumn | src/fuzzy_match.cc:117-125 | A column of the current row is computed from cells of this call only, without leaving 32 bits, and the previous row stays intact |
| FuzzyMatch.FuzzyMatcher.FillRow | src/fuzzy_match.cc:113-126 | The rolling row becomes the next row of the full table |
| FuzzyMatch.FuzzyMatcher.BestEnd | src/fuzzy_match.cc:128-133 | The best end position, each character behind it costing two |
| FuzzyMatch.FuzzyMatcher.Match | src/fuzzy_match.cc:96-134 | The maximum total over all admissible embeddings of the pattern in the text if there is one, otherwise between the least score and 3200 above; the early returns for empty, long and strict cases |
| FuzzyMatch.BestTotalIsBest | src/fuzzy_match.cc:128-133 | The best end of the recursion is the maximum over embeddings |
| FuzzyMatch.AnswerTells | src/fuzzy_match.cc:96-134 | The answer tells whether there is an embedding at all: at least -10000 if so, at most the least score + 3200 if not |
| Subsequence.ReverseSubseqMatch | src/utils.cc:177-187 | The greatest start from which the pattern is a subsequence of the text, -1 if there is none, in either sensitivity |
| Subsequence.EmbeddingExists | src/fuzzy_match.cc:121-124 | In case-sensitive mode an embedding exists exactly when the pattern is a subsequence of the text |
| ScanLine.TopIsLast | src/message_handler.cc:411-412 | Once ended occurrences are off the top, the top of the stack is the last start still active |
| ScanLine.PopEnded | src/message_handler.cc:411-412 | The loop takes exactly ended occurrences off the top |
| ScanLine.Attribute | src/message_handler.cc:419-420 | The range between the last two events goes to the top of the stack, unless empty |
| ScanLine.FileEvent | src/message_handler.cc:421-424 | Pushing a start into the event array itself overwrites no event still to be read; an end marks its occurrence |
| ScanLine.Sweep | src/message_handler.cc:408-425 | The in-place sweep emits exactly the pieces between neighbouring events that have an active start, each for the last one |
| ScanLineTheory.BuildEvents | src/message_handler.cc:390-405 | Two events for each occurrence |
| ScanLineTheory.PiecesDisjoint | src/message_handler.cc:389-425 | The pieces are non-empty, pairwise disjoint and ascending |
| ScanLineTheory.ActiveCovers | src/message_handler.cc:411-424 | Between two events the active starts are exactly the occurrences that cover every position there |
| ScanLineTheory.Attribution | src/message_handler.cc:105-118 | The owner of a piece covers it, and of those covering it none starts later; none with the same start ends earlier; none with the same range has a greater kind, or the same kind and a greater symbol |
| ScanLineTheory.PieceIsOwned | src/message_handler.cc:413-420 | Every position of a piece is covered, and the piece carries kind and symbol of the winner there |
| ScanLineTheory.CoveredHasPiece | src/message_handler.cc:389-425 | Every covered position lies in a piece |
| ScanLineTheory.SameCoverage | src/message_handler.cc:389-425 | The union of the pieces is the union of the occurrences |
| ScanLineTheory.MakeDisjoint | src/message_handler.cc:406-425 | From the events sorted in any way that respects their order: pieces non-empty, disjoint and ascending, with the union of the occurrences, each position with kind and symbol of the covering occurrence that starts last, ends first, and has the greatest kind and symbol; for places in a text that is what the cursor and the tokens below start from |
| Highlight.Cursor.constructor | src/message_handler.cc:448 | The cursor starts at the beginning of the text |
| Highlight.Cursor.SkipToLine | src/message_handler.cc:450-459 | On to a later line, counting code points, or to the end of the text if there is no such line |
| Highlight.Cursor.SkipToColumn | src/message_handler.cc:460-465 | On to a column of the line, or to the end of the line |
| Highlight.Cursor.Mov | src/message_handler.cc:449-466 | Moved on incrementally, the cursor answers the number of code points that counting from the start of a valid UTF-8 text would, and reports exactly the positions that do not exist |
| Highlight.EmitOffsets | src/message_handler.cc:467-475 | Every piece of the scan line's output is emitted with the offsets counted from the start of the text, and skipped exactly when one of its ends does not exist; the pairs are non-empty, disjoint and ascending |
| Highlight.OffsetsAscend | src/message_handler.cc:467-475 | In a valid UTF-8 text disjoint ascending pieces give non-empty, disjoint, ascending ranges of code points |
| Highlight.OffsetsComplete | src/message_handler.cc:467-475 | Every piece whose two ends exist has its pair |
| Highlight.EncodeTokens | src/message_handler.cc:504-515 | Every token is relative to the one before |
| Highlight.DecodeInverts | src/message_handler.cc:504-515 | A client that adds the relative lines and starts up again gets the start of every piece back |
| Highlight.DecodeEnds | src/message_handler.cc:504-515 | and, adding the length, the end of every piece within one line |
| Highlight.TokensForward | src/message_handler.cc:504-515 | On the scan line's output line and start deltas are never negative, single-line pieces have positive lengths, and the tokens of a line do not overlap |
| Closure.FindAnyDef | src/query.hh:47-55 | The first definition with a spelling, otherwise the last |
| Closure.AnyDefIs | src/query.hh:47-55 | A definition before which none has a spelling is meant if it has one itself or is the last |
| Closure.StepIff | src/query.cc:592-632 | One step up leads to the defined bases of that definition, one step down to the defined overriders |
| Closure.Visit | src/query.cc:597-610 | One turn of the loop keeps what has been collected exact and makes progress, cycles included |
| Closure.UsesForAll | src/query.cc:592-632 | Both closures return the uses of exactly the defined functions reachable through defined functions, the root excluded, each function once |
| Closure.UsesConcat | src/query.cc:597-610 | The uses are those of the functions one after the other |
| Closure.UsesFrom | src/query.cc:597-610 | A use is returned exactly if one of the functions has it |
| SymbolForest.ClosedByLater | src/messages/textDocument_document.cc:178-187 | A scope that is no longer open was ended by a symbol that starts at or after its end |
| SymbolForest.OpenIff | src/messages/textDocument_document.cc:178-187 | For any ranges, a scope stays open around a symbol if and only if it or a later scope still open ends after the symbol starts |
| SymbolForest.NestedOpen | src/messages/textDocument_document.cc:178-187 | For symbols sorted by start and nested, the scopes around a symbol are exactly the earlier ones that end after it starts |
| SymbolForest.NestedParent | src/messages/textDocument_document.cc:182-187 | Such a symbol hangs under the last one before it that ends after it starts, and is a root if there is none |
| SymbolForest.PopScopes | src/messages/textDocument_document.cc:180-181 | The loop drops exactly the ended scopes at the top |
| SymbolForest.AddSymbol | src/messages/textDocument_document.cc:177-188 | Hanging a symbol under the innermost open scope appends it to the preorder of the whole forest |
| SymbolForest.BuildForest | src/messages/textDocument_document.cc:155-190 | For any ranges the forest has the symbols in sorted order as its preorder, each once, and each hangs under the innermost scope still open where it starts |
| Backlog.ClearedAll | src/pipeline.cc:705-708 | Clearing the listed messages clears exactly the messages parked for the path |
| Backlog.RunsOfAll | src/pipeline.cc:705-708 | Running a list of different messages runs each of them once and no other |
| Backlog.PathOnce | src/pipeline.cc:702-711 | Running and clearing the messages of a path keeps every parked message run again exactly once or still waiting |
| Backlog.FrontOnce | src/pipeline.cc:664-670 | Running the front message as overdue and dropping it does as well |
| Backlog.RunsFinal | src/pipeline.cc:659-712 | A message that has been run again is never run again |
| Backlog.MainLoop.constructor | src/pipeline.cc:657-658 | Nothing is parked and nothing has been run at first |
| Backlog.MainLoop.Receive | src/pipeline.cc:677-684 | A request whose file has no definition is parked at the end and listed under its path |
| Backlog.MainLoop.RunFront | src/pipeline.cc:664-670 | The front message is run as overdue, once, and leaves both lists |
| Backlog.MainLoop.RunOverdue | src/pipeline.cc:660-673 | Everything up to the first message that waits and has not expired leaves the backlog, and exactly those of it not run before are run as overdue, in order |
| Backlog.OverdueCountIs | src/pipeline.cc:663-671 | That is the only such prefix |
| Backlog.OverdueRunsOf | src/pipeline.cc:663-671 | Each of its waiting messages is run once, as overdue, and no other |
| Backlog.OverdueInOrder | src/pipeline.cc:663-671 | in the order of the backlog |
| Backlog.MainLoop.ReceiveAll | src/pipeline.cc:675-684 | Exactly the requests whose files have no definition are appended to the backlog, and none is run again |
| Backlog.ParkedInOrder | src/pipeline.cc:675-684 | in the order received |
| Backlog.MainLoop.RunListed | src/pipeline.cc:705-708 | The log of runs grows by one run for every listed message, in order |
| Backlog.MainLoop.UpdateApplied | src/pipeline.cc:702-711 | Exactly the messages parked for the path are run again, once each and in order, and stop waiting; files referred to are defined but run nothing |
| Backlog.MainLoop.ApplyAll | src/pipeline.cc:694-712 | The messages of all updated files are run, update by update, and stop waiting; the files updated and referred to are defined |
| Backlog.MainLoop.Iterate | src/pipeline.cc:659-712 | A whole turn: every message waiting before it is run once as overdue if everything up to it has expired, else once after the update of its file if there is one, else it waits on; a new request is parked exactly if its file has no definition and then run once if the file is updated in the turn; nothing is run that was run before; backlog, log and defined files afterwards are known |
| Backlog.WaitingServed | src/pipeline.cc:659-712 | Which of the three happens to a message waiting before the turn |
| Backlog.RequestServed | src/pipeline.cc:675-712 | What happens to a new request in its first turn |
| WakeUps.MutexStep | src/threaded_queue.hh:54-95 | Every step keeps mutual exclusion |
| WakeUps.InvStep | src/threaded_queue.hh:54-62 | Every step of every thread, spurious wake-ups included, keeps the invariant |
| WakeUps.RunInv | src/pipeline.cc:463-469 | The invariant holds in every interleaving of any number of indexers and pushers with one quit |
| WakeUps.NoLostWakeUp | src/threaded_queue.hh:54-95 | With the queue free and before quit, a waiting request finds a started indexer that is not asleep; once quit has notified, no indexer is asleep |
| WakeUps.NoSleepAfterQuit | src/pipeline.cc:422-429 | After quit has notified no indexer falls asleep again |
| Queues.ThreadedQueue.constructor | src/threaded_queue.hh:75-79 | A new queue is empty and counts nothing |
| Queues.ThreadedQueue.EmptyIsEmpty | src/threaded_queue.hh:117-118 | The lock-free test says empty exactly when both classes are |
| Queues.ThreadedQueue.PushBack | src/threaded_queue.hh:85-95 | Appends to the class asked for and counts the element |
| Queues.ThreadedQueue.TryPopFront | src/threaded_queue.hh:140-153 | Takes the front of the urgent class if there is one, otherwise of the other; popped elements with those inside are always those pushed, in order, in either class |
| Queues.ThreadedQueue.DequeueAll | src/threaded_queue.hh:98-115 | Takes everything, urgent elements first, each class in order |
| TextForms.Strtol | src/position.cc:17-24 | Scanning forward returns the number in front, brought into the signed 64-bit integers, and where it ends |
| TextForms.Strtoul | src/position.cc:17-24 | The same for unsigned integers, negated ones wrapping around |
| TextForms.DecimalParses | src/position.cc:26-30 | A printed number parses back and parsing stops at the separator |
| TextForms.PosParses | src/position.cc:17-30 | Every position parses back from its text, with the 16-bit line and the signed column wrapped at 32767 and -1 included |
| TextForms.RangeParses | src/position.cc:32-60 | Every range parses back |
| TextForms.UseParses | src/indexer.cc:1382-1412 | Every use parses back |
| TextForms.DeclParses | src/indexer.cc:1390-1419 | Every declaration reference parses back, both ranges stopping at their separators |
| TextForms.SymbolParses | src/indexer.cc:1373-1406 | Every symbol reference parses back |

## Left out

- Everything that parses C++ or drives the compiler; index files are given.
- File system, standard input and output, JSON, logging, regular expressions, path mappings and case-insensitive paths; paths are compared as given.
- `$ccls/reload` and `DB::clear`: they reset what is loaded without resetting the in-memory cache, so runs with them have no chain.
- The priorities with which the indexer pushes are left open; `Delivery.PushOrderIff` says for which of them updates are applied in order.
- Delivery.InOrderIff: for versions that differ in the references they contribute; an overtaken deletion may go unnoticed.
- Fairness, liveness and timing of threads and of the main loop; only safety of every interleaving is proved, and a parked request is shown to be run again or still waiting. Relaxed atomics are modelled as sequentially consistent.
- Which path a thread takes up, and when it gives up a cached version (time stamps, arguments, dependencies), is left open: every choice is covered.
- The two cache files of a path are modelled as one, keyed by the path; `getCachePath` is not modelled.
- The indexer is assumed to make files with C strings, sizes below 2^64 and absent spellings in default form (`EndToEnd.GoodFile`).
- `hashUsr` is an arbitrary function; the line mapping is stated on hashes.
- The fields of a file entry are kept in separate columns, so that updating one in place is modelled but not the aliasing of references into an entry.
- Entities, definitions and deltas are values once built; `std::move` is not modelled. Maps with unspecified iteration order are visited in an arbitrary order.
- Local file ids that a file uses but does not list: the source dereferences a failed lookup; the model resolves them to some file.
- `files_removed`, capacity hints and `file_contents` of an update: nothing sets the first, and the others change no result.
- Reading past the end of a truncated cache file is undefined in the source; the model reports failure. Integers are little-endian in memory.
- Codecs of records are functions; the reading and writing methods work in place on primitives, vectors and the fields of a file.
- History.Replay: lists are claimed where no update withdraws an entry shared with another file; `History.ApplyStep` says that this is exact, step by step.
- ColumnAlign.AlignedOptimalIff: says nothing above the size cut-off, where the source returns the column itself, bounded by the line.
- Positions.OffsetMonotone: lines and columns as editors send them; negative lines are not ordered.
- WorkingFiles.WorkingFile.GetBufferPosFromIndexPos: the end position answers the size of the content, as the source does, although a line is meant.
- `getPositionForOffset` and completion positions: it counts bytes and is not an inverse of anything here.
- TextForms.Strtol: `long` is 64 bits wide; `errno` is not modelled.
- FuzzyMatch.FuzzyMatcher.Match: patterns of at most 100 characters, for which the arrays are sized; longer ones are undefined in the source. Letters are ASCII letters.
- Subsequence.EmbeddingExists: case-sensitive mode only; otherwise the rule for a first character on a tail restricts embeddings further.
- `std::sort` is any permutation that respects the order.
- Roles of the pieces of the scan line, token types and modifiers.
- Sorting, filtering and naming of document symbols; nodes of the forest are indices into an arena of child lists.
- Closure.UsesForAll: every usr mentioned is registered, as `getFunc` requires.
- Backlog.MainLoop.Receive: a request for the empty path is parked as if already run again, which is what the source does; requests are for one file each, and running one again has no effect on the loop but being logged.
- `dequeue`, `keep_only_latest` and `apply` of the queue, after which the count is not exact; condition variables appear only in `WakeUps`.
- `uniquify`, `toFunc` and its siblings, `LruCache`, `sortText`, `flattenHierarchy`, URI escaping: each would only add an easy member.
