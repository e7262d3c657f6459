# FlashTerminal core: a Dafny model and its proofs

This project models five parts of the terminal and proves what they promise:

- **Terminal** (`Cells`, `Bits`, `SpanCodec`, `SpanCodecLemmas`, `Tiers`, `DirtyTracking`,
  `TerminalSpec`, `TerminalStore`, `Terminal`, `Reads`, `TerminalFaults`, `ResizeFaults`,
  `TerminalRuns`, `EditEffects`, `CursorEffects`, `PrintEffects`, `CopyEffects`, `ScreenLaws`,
  `ScrollLaws`, `Clusters`, `History`, `TextLayout`, `WideText`, `Selections`, `DirtySoundness`).
  The class `Terminal.TerminalState` keeps one history in three physical tiers (cold blocks, a
  pending span buffer, the raw grid) and updates it in place. Every method is proved to follow its
  function in `TerminalSpec`, which works on one sequence of rows; the laws are then proved of those
  functions, over every run of events. The `Effects` modules say, without those functions, what each
  event does to every cell, row and field.
- **Atlas, AtlasFrames**: the shelf packer over a texture that doubles, as a pixel array, and the
  texture coordinates that drawn slots keep.
- **Frames, Renderer, RenderedTerminals**: the shared instance array in which only dirty rows
  are encoded again, and the run theorem that ties it to the terminal's dirty bits.
- **PtyWriter**: the byte queue with amortised compaction and the non-blocking flush.
- **AgentPump, PumpReports**: the pump threads, the user interface thread, their locks and the bounded
  channel as a step system.

`dafny verify --resource-limit 2000000 --verification-time-limit 0 --warn-contradictory-assumptions
dfyconfig.toml` checks everything within the resource limit the proofs are kept to.

## How the code is represented

- A panic (an index out of range, a slice that does not fit) is a `None` result; zlib is the
  identity; a character comes with its width; an SGR list is the style it results in.
- The 128-bit dirty word is a natural number whose shifts wrap at 128, and a row index below zero
  wraps to one past every row, as in an optimised build; other widths are written out where they
  matter (the `u16` row count of a block).
- The four fields of the encoded tiers form one value `EncodedTiers`; `Terminal.TerminalState`
  also carries `model`, a ghost copy of the terminal as a `TerminalSpec.State`.
- `State` is a subset type: the well-formedness of every reachable terminal is checked once for
  every operation, at the operation itself.
- Geometry is assumed to have at least one row and between 1 and 32767 columns, because sums of
  two `u16` columns are not widened in the code.

## Where the code does not do what it or its documentation says

Each is proved with the exact condition under which the promise holds, or with exactly what happens
instead.

- `docs/scrollback.md:81-82` says that at the history cap the oldest cold block is dropped and
  that the total stays within the limit. The code drops the oldest *raw* row and keeps every cold
  one (`TerminalSpec.PushHistory`, `History.HistoryForm`), and the history reaches the limit plus
  one (`History.RetainedCount`), or the 1536 raw rows if that is more.
- `insert_chars` aborts on more cells than are left on the line, and it is the only event that can
  abort (`TerminalRuns.RunAbortsIff`).
- Reading a window that starts in the encoded tiers and ends in the grid aborts
  (`Terminal.TerminalState.Snapshot`, `TerminalStore.StraddlesIff`); a new terminal reaches every
  such offset (`TerminalFaults.StraddleRun`).
- A row read while it was pending stays in the block cache under its own index; when that index
  becomes the base of a block, the other rows of the block cannot be read
  (`Terminal.TerminalState.GridRow`, `TerminalStore.CollidesIff`). Over all events and reads, the cache
  is invisible exactly if no read of the oldest pending row, of a block that the limit lets fill up,
  has spoilt it (`Reads.CacheInvisibleIff`, `Reads.SpoilsIff`); a new terminal gets there exactly if
  its limit leaves space for a block (`Reads.FreshCacheIff`, `TerminalFaults.StaleRun`).
- Erasing the scrollback and switching screens leave the scroll offset, which may then lie above the
  history; the top rows of the window are then no rows of it (`TerminalRuns.OffsetStaysIff`,
  `TerminalRuns.OffsetIsLost`). Over every run without the two it stays in range
  (`TerminalRuns.HistoryNeverShrinks`).
- `resize` leaves the saved cursor and the screen put aside with the old geometry
  (`TerminalSpec.ResizeWellFormedIff`). Going back to them, the next print aborts exactly where
  `ResizeFaults.RestoreAbortsIff` and `ResizeFaults.LeaveAbortsIff` say, and a new terminal gets there
  (`ResizeFaults.SavedBelow`, `ResizeFaults.LeftBelow`).
- Scrolling down should bring in blank lines at the top of the screen. They enter above the raw
  history instead (`ScrollLaws.DownClosed`), so the rows that scrolled out last come back
  (`ScrollLaws.DownUndoesUp`). Blank lines enter the screen exactly if every raw history row that moves
  onto it is blank (`ScrollLaws.ScrollDownIff`); on a new terminal that fails as soon as a printed row
  was scrolled out (`ScrollLaws.OldRowComesBack`). The results that compare two limits leave scrolling
  down out, because its effect depends on the tier boundary.
- A selection is documented as rectangular (`crates/terminal-core/src/lib.rs:215`). It covers the
  rectangle between its ends exactly if it lies on one row or takes whole rows
  (`Selections.RectangleIff`), and the text between them exactly if it lies on one row or its upper end
  is not right of its lower one (`Selections.ReadingOrderIff`). Copying a row above the history aborts
  if the selection starts right of the second column (`Selections.CopyAbortsIff`).
- A joiner reaches the character before it only if there is space after that, or it is wide and the
  line does not wrap (`Clusters.JoinerArmsIff`). With autowrap two characters then join exactly if there
  is space after the first (`Clusters.ClusterJoinsIff`); without it a narrow character in the last
  column is missed, and the joiner goes to the cluster before or has no effect (`Clusters.MissedJoiner`).
- The emoji selector reaches the character before it exactly if that is wide or has space after it
  (`Clusters.SelectorReachesIff`); in the last column it widens the cluster before, over the
  character just printed (`Clusters.SelectorAtTheMargin`). The text selector, said to select narrow
  presentation, narrows nothing (`Clusters.TextSelectorIff`).
- A combining mark takes the cell after its character, and in the last column that of the character
  itself (`Clusters.MarkKeepsIff`); something of a mark is left after the next character only if that
  one goes to a new line (`Clusters.MarkSurvivesIff`).
- Dirty bits name rows of the screen; scrolled back by less than a screen they do not cover the
  window (`DirtySoundness.WindowReportedIff`).
- On more than 128 rows the dirty bit of a row is that of the row modulo 128, so a later row is not
  listed (`DirtyTracking.MarkedIsListedIff`); the frame results are for at most 128 rows.
- Growing the instance array clears it, but only panes whose place changed are drawn in full
  (`Frames.GrowthShowsIff`, `Frames.SplitWipesTheFirst`, `RenderedTerminals.RunShownIff`).
- Another terminal at an unchanged place, as after a switch of tabs, is drawn only where its own dirty
  bits say (`RenderedTerminals.SwitchShownIff`); without output since its last frame it shows none of
  the rows that differ (`RenderedTerminals.CleanSwitchIsStale`).
- The comment on growing the atlas says that texture coordinates stay valid; they are fractions of
  the size, so they do not (`Atlas.CoordinatesHoldIff`): over all frames exactly the slots not drawn
  since the atlas last grew are wrong (`AtlasFrames.SlotHoldsIff`). The packer starts at (1, 0), not (1, 1).

## Model

| member | source | states |
|---|---|---|
| `SpanCodec.EncodeRowInto` | crates/terminal-core/src/scrollback.rs:127-163 | the run-length loop appends exactly the spans of the maximal runs cut at 127 cells and the row's end, and one wrapped flag |
| `SpanCodec.EncodeBlock` | crates/terminal-core/src/scrollback.rs:180-187 | a block is the concatenation of the encoded rows with their wrapped bits |
| `SpanCodec.DecodeBlock` | crates/terminal-core/src/scrollback.rs:190-239 | the decoding loops read exactly the rows a block stands for, and abort on no other blocks than those that run off their bytes |
| `SpanCodec.DecodeScratchRow` | crates/terminal-core/src/scrollback.rs:243-290 | skipping spans up to a row and reading it gives that row of the stream, or aborts at its end |
| `SpanCodecLemmas.RowRoundTrip` | crates/terminal-core/src/scrollback.rs:141-162 | wherever a row's bytes lie in a buffer, reading there gives the row with empty cells normalised, and ends right after them |
| `SpanCodecLemmas.BlockRoundTrip` | crates/terminal-core/src/scrollback.rs:180-239 | decoding an encoded block gives the rows, empty cells normalised, up to the 16-bit row count |
| `SpanCodecLemmas.BlockLosslessIff` | crates/terminal-core/src/scrollback.rs:166-239 | a block is lossless exactly if its rows fit the 16-bit count, are as wide as the terminal and no empty cell carries a style |
| `SpanCodecLemmas.ScratchRoundTrip` | crates/terminal-core/src/scrollback.rs:243-290 | every row of a streamed buffer reads back with its wrapped flag, and reading past the last one aborts |
| `SpanCodecLemmas.WrappedBitsHold` | crates/terminal-core/src/scrollback.rs:133-140 | bit i of the packed flags is the wrapped flag of row i |
| `SpanCodecLemmas.MaximalRunSpans` | crates/terminal-core/src/scrollback.rs:142-158 | a maximal run of n equal cells takes exactly n/127 spans, rounded up |
| `SpanCodecLemmas.FewestSpans` | crates/terminal-core/src/scrollback.rs:142-158 | no way of spelling a row with runs of at most 127 equal cells takes fewer spans |
| `SpanCodecLemmas.RowSize` | crates/terminal-core/src/scrollback.rs:141-162 | a row takes at most 17 bytes a cell and one |
| `SpanCodecLemmas.BlankRowSize` | crates/terminal-core/src/scrollback.rs:141-162 | a blank row takes one byte for every 127 cells and one |
| `DirtyTracking.DirtyRows` | crates/terminal-core/src/lib.rs:332-341 | the loop that clears the lowest bit ends and lists exactly the set bits in ascending order |
| `DirtyTracking.MarksAreMonotone` | crates/terminal-core/src/lib.rs:293-320 | marking forgets no dirty row and makes the marked rows dirty |
| `DirtyTracking.MarksAreExact` | crates/terminal-core/src/lib.rs:293-320 | on at most 128 rows marking a row makes no other dirty, and what each mark does to the other fields |
| `DirtyTracking.MarkedIsListedIff` | crates/terminal-core/src/lib.rs:293-341 | a row that alone is marked is listed exactly if it is one of the first 128 |
| `Tiers.TierRow` | crates/terminal-core/src/lib.rs:860-869 | encoding a row appends it to the rows the tiers stand for |
| `Tiers.FlushKeepsRows` | crates/terminal-core/src/lib.rs:873-887 | turning the full pending buffer into a block changes no row |
| `TerminalStore.ScrollSplits` | crates/terminal-core/src/lib.rs:825-846 | growing the grid, or tiering or dropping its oldest row, is what scrolling does to the history and the screen |
| `TerminalStore.InsertTurn` | crates/terminal-core/src/lib.rs:1331-1340 | one turn of the pop and insert loop takes the closed form for n lines to that for n + 1, also once all lines below are blank |
| `TerminalStore.InsertedScreen` | crates/terminal-core/src/lib.rs:1331-1340 | the loop's result is the screen with n lines, clamped to those below, inserted, and no row above the screen changes |
| `TerminalStore.ShiftRight` | crates/terminal-core/src/lib.rs:1364-1376 | the copy and fill insert n blank cells, and abort exactly if more than the rest of the line is asked for |
| `TerminalStore.ShiftLeft` | crates/terminal-core/src/lib.rs:1379-1391 | the copy and fill delete n cells, clamped to the rest of the line |
| `TerminalStore.VisibleIsFlat` | crates/terminal-core/src/lib.rs:759-782 | after a snapshot, whatever the scroll offset, a visible row is the row of the whole history at its place, and above the first row there is none |
| `TerminalStore.StraddlesIff` | crates/terminal-core/src/lib.rs:891-917 | a window straddles the tiers exactly if it is scrolled back past the raw history but less than a screen more |
| `TerminalStore.BlockChunk` | crates/terminal-core/src/lib.rs:895-908 | the part of a decoded block that a window takes is that part of the history |
| `TerminalStore.CachedReadAt` | crates/terminal-core/src/lib.rs:720-738 | under a block's base the cache yields the history's rows, and nothing beyond the rows it holds |
| `Terminal.TerminalState.constructor` | crates/terminal-core/src/lib.rs:490-526 | a new terminal is the fresh one, with a limit of 10000 rows |
| `Terminal.TerminalState.FlushColdBlock` | crates/terminal-core/src/lib.rs:873-887 | empties the pending buffer and changes no tiered row |
| `Terminal.TerminalState.RecycleOldest` | crates/terminal-core/src/lib.rs:825-840 | the oldest raw row is tiered if the history without it is below the limit, and dropped otherwise |
| `Terminal.TerminalState.ScrollUpOne` | crates/terminal-core/src/lib.rs:825-846 | the top screen row joins the history, a blank row enters, every row is marked |
| `Terminal.TerminalState.ScrollDown` | crates/terminal-core/src/lib.rs:927-933 | n blank rows enter above the raw history, whose last rows move onto the screen |
| `Terminal.TerminalState.LineWrap` | crates/terminal-core/src/lib.rs:1003-1013 | flags the row, goes to the start of the next, scrolling at the bottom |
| `Terminal.TerminalState.WriteChar` | crates/terminal-core/src/lib.rs:1063-1152 | prints with deferred wrap, wide cells and merging into a cluster that ends in a joiner |
| `Terminal.TerminalState.WriteZeroWidth` | crates/terminal-core/src/lib.rs:1163-1227 | combining marks, variation selectors and joiners |
| `Terminal.TerminalState.ClusterBase` | crates/terminal-core/src/lib.rs:1231-1242 | the loop finds the base cell left of a column, skipping continuations |
| `Terminal.TerminalState.ClearScreen` | crates/terminal-core/src/lib.rs:1271-1311 | below, above, all, or all with the scrollback and its tiers |
| `Terminal.TerminalState.InsertLines` | crates/terminal-core/src/lib.rs:1331-1340 | n clamped blank lines enter at the cursor's row |
| `Terminal.TerminalState.DeleteLines` | crates/terminal-core/src/lib.rs:1344-1361 | n clamped lines leave at the cursor's row |
| `Terminal.TerminalState.InsertChars` | crates/terminal-core/src/lib.rs:1364-1376 | n blank cells enter at the cursor, or the program aborts, and exactly when |
| `Terminal.TerminalState.DeleteChars` | crates/terminal-core/src/lib.rs:1379-1391 | n clamped cells leave at the cursor |
| `Terminal.TerminalState.SetAltScreen` | crates/terminal-core/src/lib.rs:1397-1442 | the screen with all its tiers is put aside and taken back |
| `Terminal.TerminalState.ApplyEvent` | crates/terminal-core/src/lib.rs:1544-1573 | every event does what its function does, motions, modes and repetition included; the result says whether the program survived |
| `Terminal.TerminalState.Resize` | crates/terminal-core/src/lib.rs:641-683 | every field after the loops: the last raw rows, cut or padded, no scrollback, the rest as it was; well-formed wherever that can be |
| `TerminalSpec.ResizeWellFormedIff` | crates/terminal-core/src/lib.rs:641-683 | resizing yields a well-formed terminal exactly if it changes nothing, or no screen is put aside and the saved cursor lies on the new screen |
| `Terminal.TerminalState.ColdRow` | crates/terminal-core/src/lib.rs:716-738 | a cold row through the one-block cache |
| `Terminal.TerminalState.GridRow` | crates/terminal-core/src/lib.rs:716-747 | any index of the history reads as its row, unless the cache holds too few rows under the base of its block |
| `TerminalStore.CollidesIff` | crates/terminal-core/src/lib.rs:720-738 | a sound cache is stale exactly if it holds one row, under the block's base and another index than the one read |
| `Reads.ReadRun` | crates/terminal-core/src/lib.rs:716-747 | any events and reads of history rows, in any order: the rows are those of the cached reads, the program survives exactly where they do, and from an unspoilt cache careful steps read the history's rows |
| `Reads.CarefulReads` | crates/terminal-core/src/lib.rs:716-747 | from an unspoilt cache, over all events and reads but of the oldest pending row, every read gives the history's row |
| `Reads.SpoilsIff` | crates/terminal-core/src/lib.rs:716-747 | a read leaves a spoilt cache exactly if it is of the oldest pending row of a block the limit lets fill up, or leaves a spoilt one as it is |
| `Reads.SpoiltFails` | crates/terminal-core/src/lib.rs:716-747 | from every spoilt cache, of either screen, scrolling and one read end in an abort where the row is there |
| `Reads.CacheInvisibleIff` | crates/terminal-core/src/lib.rs:716-747 | cached and plain reads agree on all careful runs exactly if the cache is not spoilt |
| `Reads.FreshCacheIff` | crates/terminal-core/src/lib.rs:716-747 | on a new terminal they agree on all runs exactly if the limit leaves no space for a block |
| `TerminalFaults.StaleCacheRun` | crates/terminal-core/src/lib.rs:720-738 | from every state with a pending row and space for its block, a read, scrolling and a read end in an abort |
| `TerminalFaults.StaleRun` | crates/terminal-core/src/lib.rs:720-738 | a new terminal of any size gets there |
| `TerminalFaults.StraddleRun` | crates/terminal-core/src/lib.rs:891-917 | a new terminal of any size reaches every straddling offset, and the next frame aborts |
| `Terminal.TerminalState.DecodeWindow` | crates/terminal-core/src/lib.rs:891-917 | the loop over blocks and pending rows decodes exactly the window, or runs off the span buffer exactly if the window reaches the grid |
| `Terminal.TerminalState.Snapshot` | crates/terminal-core/src/lib.rs:1631-1649 | prepares the window, and aborts exactly if it straddles the tiers |
| `Terminal.TerminalState.ReadWindow` | crates/terminal-core/src/lib.rs:759-782 | reading a row right after a snapshot gives that row of the whole history, or none above its first row |
| `Terminal.TerminalState.SetScrollOffset` | crates/terminal-core/src/lib.rs:793-799 | clamped to the history; a change marks everything |
| `TerminalSpec.PushHistory` | crates/terminal-core/src/lib.rs:825-856 | tiering and dropping keep the tier boundary and the bound on the tiered rows |
| `TerminalRuns.EventRunInvariant` | crates/terminal-core/src/lib.rs:1544-1573 | after every run of events: geometry, raw grid between rows and rows + 1536, bounded history, full-width rows, unstyled empty cells, cursor on the screen |
| `TerminalRuns.RunAbortsIff` | crates/terminal-core/src/lib.rs:1364-1376 | a run aborts exactly if one of its events inserts more cells than are left on the line |
| `TerminalRuns.OffsetStaysIff` | crates/terminal-core/src/lib.rs:1544-1573 | an event takes the scroll offset out of the history exactly if it replaces the history by less |
| `TerminalRuns.OffsetIsLost` | crates/terminal-core/src/lib.rs:1288-1307 | scrolled back at all, erasing the scrollback or entering the alternate screen does, and the top visible row is then no row of the history |
| `TerminalRuns.HistoryNeverShrinks` | crates/terminal-core/src/lib.rs:1544-1573 | over every run without the two the history never shrinks and the offset stays in range |
| `TerminalRuns.AltIsUntouched` | crates/terminal-core/src/lib.rs:1397-1442 | no event but leaving touches the screen put aside, and entering again has no effect |
| `TerminalRuns.AltBracket` | crates/terminal-core/src/lib.rs:1397-1442 | entering, any events but leaving, and leaving restore history, tier boundary, screen, cursor, saved cursor, style and pending wrap |
| `ResizeFaults.RestoreAbortsIff` | crates/terminal-core/src/lib.rs:641-683 | resizing, restoring the cursor and printing aborts exactly if the saved cursor lies below the new screen, or more than a column right of it with no wrap pending |
| `ResizeFaults.LeaveAbortsIff` | crates/terminal-core/src/lib.rs:641-683 | resizing with a screen put aside, leaving and printing aborts exactly if the old cursor lies below the new screen or the raw grid that comes back ends above it |
| `ResizeFaults.SavedBelow` | crates/terminal-core/src/lib.rs:1504-1521 | a new terminal of any size reaches the first abort |
| `ResizeFaults.LeftBelow` | crates/terminal-core/src/lib.rs:1397-1442 | and the second |
| `ScrollLaws.DownClosed` | crates/terminal-core/src/lib.rs:927-933 | for any number of lines: tiered rows and history size stay, the raw grid is lowered as a whole |
| `ScrollLaws.LowersGrid` | crates/terminal-core/src/lib.rs:927-933 | the event does that and nothing else, and marks everything |
| `ScrollLaws.ScrollDownIff` | crates/terminal-core/src/lib.rs:927-933 | n blank lines enter at the top of the screen exactly if every raw history row that moves onto it is blank |
| `ScrollLaws.DownUndoesUp` | crates/terminal-core/src/lib.rs:919-933 | up to 1536 lines, scrolling down after scrolling up gives the screen back as it was, with no blank line |
| `ScrollLaws.OldRowComesBack` | crates/terminal-core/src/lib.rs:927-933 | a new terminal of any size and limit: print, scroll up and down by a line, and the character is back |
| `TerminalRuns.InsertThenDeleteLines` | crates/terminal-core/src/lib.rs:1331-1361 | deleting the lines just inserted restores the screen but for its last lines, which come back blank; no scrollback row changes |
| `TerminalRuns.InsertThenDeleteChars` | crates/terminal-core/src/lib.rs:1364-1391 | the same for cells |
| `TerminalRuns.BackStepsClosed` | crates/terminal-core/src/lib.rs:1015-1023 | single steps left end where one clamped move ends |
| `EditEffects.LinesDeleted` | crates/terminal-core/src/lib.rs:1344-1361 | every row after deleting lines: above the cursor as it was, the next ones moved up, blank ones at the bottom; the history and all else stay |
| `EditEffects.LinesInserted` | crates/terminal-core/src/lib.rs:1331-1340 | every row after inserting lines: blank ones at the cursor, the others moved down |
| `EditEffects.CellsDeleted` | crates/terminal-core/src/lib.rs:1379-1391 | every cell of the line after deleting cells: moved left, empty ones at the end; no other line changes |
| `EditEffects.CellsInserted` | crates/terminal-core/src/lib.rs:1364-1376 | it aborts exactly if the line has fewer cells left; otherwise every cell: empty ones at the cursor, the others moved right |
| `EditEffects.ScreenErased` | crates/terminal-core/src/lib.rs:1271-1311 | every mode: exactly which cells become empty, by row and column, which wrapped flags stay, where the cursor goes, and what of the history is left |
| `EditEffects.LineErased` | crates/terminal-core/src/lib.rs:1313-1328 | every mode: exactly which cells of the line become empty, and that only the whole line loses its wrapped flag |
| `EditEffects.RowsResized` | crates/terminal-core/src/lib.rs:641-683 | every cell after a resize: the last rows of the grid, from the top if there are fewer, cut or padded, with their wrapped flags |
| `EditEffects.RestResized` | crates/terminal-core/src/lib.rs:641-683 | every other field after a resize, or none if the size is the same |
| `CursorEffects.GoesTo` | crates/terminal-core/src/lib.rs:1033-1050 | each axis goes where it is told but not off the screen, 0xFFFF leaves it alone; nothing else changes but the pending wrap and the flag |
| `CursorEffects.GoesUp` | crates/terminal-core/src/lib.rs:951-958 | up by so many rows, one at least, but not above the first |
| `CursorEffects.GoesBack` | crates/terminal-core/src/lib.rs:1015-1023 | left by so many columns, one at least, but not beyond the first |
| `CursorEffects.GoesToStop` | crates/terminal-core/src/lib.rs:1052-1057 | to the next multiple of eight or the last column |
| `CursorEffects.GoesToStart` | crates/terminal-core/src/lib.rs:1025-1031 | to the first column; from there nothing changes |
| `CursorEffects.GoesDown` | crates/terminal-core/src/lib.rs:939-949 | down by so many rows, and the screen scrolls by those that are left: every row |
| `CursorEffects.GoesForward` | crates/terminal-core/src/lib.rs:960-972 | without autowrap right, but not beyond the last column |
| `CursorEffects.GoesOn` | crates/terminal-core/src/lib.rs:960-1013 | with autowrap the columns are counted on over the lines: where the cursor ends, which rows are flagged as wrapped, and how far the screen scrolled |
| `CursorEffects.GoesUpBy` | crates/terminal-core/src/lib.rs:919-925 | scrolling up: every row moves up, blank ones enter, the cursor stays, everything is marked |
| `CursorEffects.ModesAreSet` | crates/terminal-core/src/lib.rs:1504-1542 | style, autowrap, visibility, saving and restoring: every field they set, and no other |
| `CursorEffects.ScreensSwitch` | crates/terminal-core/src/lib.rs:1397-1442 | what a switch of screens puts aside, shows and takes back, field by field |
| `CursorEffects.OffsetIsSet` | crates/terminal-core/src/lib.rs:793-799 | the offset is cut at the history; exactly a change marks everything |
| `CursorEffects.FrameTakesDirty` | crates/terminal-core/src/lib.rs:628-630 | a frame leaves no dirty bit and touches nothing else |
| `PrintEffects.Prints` | crates/terminal-core/src/lib.rs:1063-1152 | in every state where no cluster waits: how many lines on and in which column a character lands, what every cell of its row holds, where the cursor ends, and what is marked |
| `PrintEffects.Merges` | crates/terminal-core/src/lib.rs:1084-1115 | where one waits: every cell of its row, the style, width and flags of the cluster, and the cursor |
| `PrintEffects.NothingPrinted` | crates/terminal-core/src/lib.rs:1063-1072 | control characters, and those without width in the first column, do nothing |
| `PrintEffects.MarkPrinted` | crates/terminal-core/src/lib.rs:1171-1183 | a mark takes exactly the cursor's cell, in the current style |
| `PrintEffects.JoinerPrinted` | crates/terminal-core/src/lib.rs:1185-1226 | a joiner flags exactly the base before the cursor |
| `PrintEffects.SelectorPrinted` | crates/terminal-core/src/lib.rs:1185-1226 | a selector sets the width of exactly that base, its second half and the cursor |
| `PrintEffects.NothingBefore` | crates/terminal-core/src/lib.rs:1185-1226 | without a base, or with an empty one, neither does anything |
| `PrintEffects.Repeats` | crates/terminal-core/src/lib.rs:1259-1269 | repeating is printing the last character so many times, or nothing without one |
| `CopyEffects.CopiesSelected` | crates/terminal-core/src/lib.rs:581-613 | whatever the selection and the window, copying that does not abort gives the characters of exactly the selected cells, in order, with the line breaks |
| `CopyEffects.PartOfLineCopies` | crates/terminal-core/src/lib.rs:581-1152 | selecting any columns of a line of printed text copies exactly the characters printed there |
| `ScreenLaws.DownStepsClosed` | crates/terminal-core/src/lib.rs:939-949 | single steps down are one move to the bottom and as many scrolls as are left |
| `ScreenLaws.ForwardThenBack` | crates/terminal-core/src/lib.rs:960-1023 | steps right that stay on the line are undone by as many steps left |
| `ScreenLaws.TabIsNextStop` | crates/terminal-core/src/lib.rs:1052-1057 | a tab goes to the next multiple of eight with none skipped, or to the last column |
| `Clusters.JoinerArmsIff` | crates/terminal-core/src/lib.rs:1163-1227 | in every state, a joiner after a character has the next one absorbed exactly if there is space after it, or it is wide and the line does not wrap |
| `Clusters.ReachedJoins` | crates/terminal-core/src/lib.rs:1063-1256 | a character, a joiner it is reached by, and a character leave what one character of the wider width leaves |
| `Clusters.ClusterJoinsIff` | crates/terminal-core/src/lib.rs:1063-1256 | with autowrap, in every state and on every row, two different characters join exactly if there is space after the first where it lands |
| `Clusters.MissedJoiner` | crates/terminal-core/src/lib.rs:1063-1256 | without autowrap, a narrow character in the last column: the cluster before absorbs the second, and every cell of the row; or, with none, the second replaces the first as if there were no joiner |
| `Clusters.RowsMayAgree` | crates/terminal-core/src/lib.rs:1063-1152 | the rows alone do not tell whether characters joined: text written over itself |
| `Clusters.SelectorWidens` | crates/terminal-core/src/lib.rs:1163-1227 | a character the emoji selector reaches leaves with it what the wide character leaves |
| `Clusters.SelectorReachesIff` | crates/terminal-core/src/lib.rs:1163-1227 | in every state, the character's cell becomes the wide one's exactly if it is wide or has space after it |
| `Clusters.SelectorAtTheMargin` | crates/terminal-core/src/lib.rs:1163-1256 | in the last column the selector widens the cluster before, and overwrites the character if that ends next to it |
| `Clusters.TextSelectorIff` | crates/terminal-core/src/lib.rs:1163-1227 | the text selector changes nothing exactly if the base before it takes one column or two |
| `Clusters.MarkKeepsIff` | crates/terminal-core/src/lib.rs:1171-1183 | in every state, a character's cells survive a combining mark exactly if there is space after it, or there is but one column |
| `Clusters.MarkSurvivesIff` | crates/terminal-core/src/lib.rs:1063-1183 | in every state and both modes, something of a mark is left after the next character exactly if it changed its cell and that character goes to a new line |
| `ScreenLaws.EraseBothWays` | crates/terminal-core/src/lib.rs:1271-1287 | erasing below and above blanks every cell and keeps every wrapped flag |
| `ScreenLaws.SavedCursorReturns` | crates/terminal-core/src/lib.rs:1504-1521 | whatever happens between, short of saving again and switching screens, restoring brings back what was saved |
| `History.PushRetained` | crates/terminal-core/src/lib.rs:825-856 | one more scroll takes the retained rows of a log to those of the log with one row more |
| `History.ScrollOnFlat` | crates/terminal-core/src/lib.rs:825-846 | on the sequence of all rows a scroll appends a blank one, and at the cap first deletes the row right below the tiered ones |
| `History.HistoryForm` | crates/terminal-core/src/lib.rs:825-887 | after any number of scroll-outs of any rows the history is all of them while they fit, then the first ones the limit left space for followed by the last 1536 |
| `History.RetainedCount` | crates/terminal-core/src/lib.rs:825-856 | the history never passes the larger of 1536 and the limit plus one, and every long enough log reaches it |
| `History.LimitOnlyCutsHistory` | crates/terminal-core/src/lib.rs:825-856 | over every run without scrolling down, a limit changes nothing but which rows of the history are kept |
| `TextLayout.TextIsLaidOut` | crates/terminal-core/src/lib.rs:978-1152 | any printable text on a fresh terminal of any size and limit: rows, wrapped flags, history, tier boundary, cursor and pending wrap in closed form |
| `TextLayout.JoinedIsText` | crates/terminal-core/src/lib.rs:591-613 | joining the wrapped rows gives the text back |
| `TextLayout.TextSurvives` | crates/terminal-core/src/lib.rs:825-887 | below the cap the rows a terminal retains still join to the text, however many were tiered |
| `Selections.SelectionText` | crates/terminal-core/src/lib.rs:581-613 | copying takes the selected columns of the window's rows, whichever tiers they lie in, with a line break after each row that is not wrapped but the last |
| `Selections.CopyAbortsIff` | crates/terminal-core/src/lib.rs:581-613 | beside a straddling window it aborts exactly if the first selected row lies above the history and the selection starts right of the second column |
| `Selections.ReadingOrderIff` | crates/terminal-core/src/lib.rs:527-548 | the selected cells are those between the ends exactly if they lie on one row or the upper end is not right of the lower one |
| `Selections.RectangleIff` | crates/terminal-core/src/lib.rs:215-228 | they are the rectangle between the ends exactly on one row or for whole rows |
| `Selections.LinesCopy` | crates/terminal-core/src/lib.rs:581-613 | whole lines copy as the rows joined |
| `Selections.PrintedTextCopies` | crates/terminal-core/src/lib.rs:581-1152 | any text of narrow and wide characters that fits a new screen: selecting its lines copies the text |
| `WideText.TextIsTypeset` | crates/terminal-core/src/lib.rs:978-1152 | any text of narrow and wide characters on a fresh terminal of any size and limit is shown as its lines are set one character after the other |
| `WideText.WideTextSurvives` | crates/terminal-core/src/lib.rs:591-1152 | below the cap the rows it leaves join to the text: no line break, no blank before a wide character that did not fit, no second half of one |
| `WideText.LinesBreakAt` | crates/terminal-core/src/lib.rs:978-1152 | on a screen of any width, the lines hold the text from each start to the next, all but the last are wrapped, and the cursor stands after the last |
| `WideText.StartsAreGreedy` | crates/terminal-core/src/lib.rs:1117-1124 | each line is not empty, fits, and would not with the character that starts the next |
| `History.FirstTiered` | crates/terminal-core/src/lib.rs:825-856 | with the limit of a new terminal the 1537th row scrolled out is the first to be tiered |
| `History.FreshScrolls` | crates/terminal-core/src/lib.rs:825-856 | scrolling a fresh terminal fills the raw history and then the tiers |
| `DirtySoundness.ChangesAreReported` | crates/terminal-core/src/lib.rs:292-347 | over every run since a frame, a screen row with other cells is reported dirty, and on at most 128 rows no bit is set beyond the last |
| `DirtySoundness.WindowReportedIff` | crates/terminal-core/src/lib.rs:292-347 | every change in the window is reported, whatever the events, exactly if the window is the screen or lies entirely above it |
| `Atlas.GlyphAtlas.Ensure` | crates/terminal-renderer/src/lib.rs:320-381 | a known key returns its entry and changes nothing; a new one gets the next place, and the upload aborts exactly if that leaves the texture |
| `Atlas.GlyphAtlas.Grow` | crates/terminal-renderer/src/lib.rs:385-421 | the texture doubles and every entry still shows its glyph |
| `Atlas.GlyphAtlas.Upload` | crates/terminal-renderer/src/lib.rs:350-377 | the entry shows the glyph, and every disjoint entry shows what it showed |
| `Atlas.PlaceKeepsPacked` | crates/terminal-renderer/src/lib.rs:333-341 | a new shelf and a doubled texture keep every entry inside, disjoint and clear of the next place |
| `Atlas.TakeKeepsPacked` | crates/terminal-renderer/src/lib.rs:343-349 | the new entry is disjoint from all others |
| `Atlas.PlaceIs` | crates/terminal-renderer/src/lib.rs:333-349 | on the current shelf, on a new one a pixel below, or in a doubled texture: where exactly, and when |
| `Atlas.FitsIff` | crates/terminal-renderer/src/lib.rs:333-341 | exactly which glyphs find a place inside the texture |
| `Atlas.CoordinatesHoldIff` | crates/terminal-renderer/src/lib.rs:248-256 | texture coordinates address their entry exactly if the texture has not grown since |
| `Atlas.EnsureAll` | crates/terminal-renderer/src/lib.rs:320-421 | over every run with glyphs that fit the initial texture, the entry of a key shows the first glyph asked for under it, so all are shown where a key means one glyph, and no entry once handed out changes |
| `Atlas.RequestedIff` | crates/terminal-renderer/src/lib.rs:320-328 | everyone gets the glyph asked for exactly if a key stands for one glyph |
| `AtlasFrames.SlotHoldsIff` | crates/terminal-renderer/src/lib.rs:1040-1062 | over any frames, a slot addresses its glyph exactly if the atlas did not grow after it was drawn last |
| `AtlasFrames.GlyphsStayApart` | crates/terminal-renderer/src/lib.rs:320-421 | over all frames any two glyphs have a pixel between them, or lie on either side of a border where the texture doubled |
| `AtlasFrames.GrowthSpoilsTheOthers` | crates/terminal-renderer/src/lib.rs:385-421 | a glyph that makes the texture double leaves every other slot wrong |
| `Frames.FrameRow` | crates/terminal-renderer/src/lib.rs:982-1086 | after a frame every row of every pane holds its new encoding if it was listed and what it held before otherwise; no pane writes into another's range |
| `Frames.RangesAreDisjoint` | crates/terminal-renderer/src/lib.rs:938-957 | the panes' ranges are consecutive and disjoint |
| `Frames.FrameKeepsShown` | crates/terminal-renderer/src/lib.rs:982-1086 | if all panes were shown in full and every change is listed, the frame shows all panes in full |
| `Frames.FullPaneIsShown` | crates/terminal-renderer/src/lib.rs:999-1004 | a pane that scrolled or is marked in full is shown whatever its place showed |
| `Frames.PlaceShownIff` | crates/terminal-renderer/src/lib.rs:938-1086 | whatever pane takes an unchanged place is shown exactly if its dirty rows include all that the old one shows differently |
| `Frames.GrowthShowsIff` | crates/terminal-renderer/src/lib.rs:1167-1193 | after the array grew a pane is shown exactly if every row of it is drawn again or looks like cleared slots |
| `Frames.SplitWipesTheFirst` | crates/terminal-renderer/src/lib.rs:938-958 | opening a second pane beside a clean one that does not look cleared wipes the first |
| `Renderer.Encoder.EnsureCapacity` | crates/terminal-renderer/src/lib.rs:1167-1216 | growing clears every slot of the array and the buffer; otherwise nothing happens |
| `Renderer.Encoder.RowList` | crates/terminal-renderer/src/lib.rs:999-1004 | all rows or the dirty ones, ascending |
| `Renderer.Encoder.RenderGrid` | crates/terminal-renderer/src/lib.rs:982-1086 | the loops encode and upload exactly the listed rows, and the buffer is again a copy of the array |
| `Renderer.Encoder.Render` | crates/terminal-renderer/src/lib.rs:903-977 | all panes, each at its base, those at a new place in full |
| `RenderedTerminals.TerminalIsReported` | crates/terminal-core/src/lib.rs:292-347 | a terminal's events between two frames leave every changed row listed |
| `RenderedTerminals.SwitchShownIff` | crates/terminal-workspace/src/engine.rs:979-1003 | the same for two terminals, as after a switch of tabs |
| `RenderedTerminals.CleanSwitchIsStale` | crates/terminal-workspace/src/engine.rs:979-1003 | a terminal with no output since its last frame is not shown |
| `RenderedTerminals.FrameShownIff` | crates/terminal-renderer/src/lib.rs:903-1086 | after a frame that is shown in full, the next is exactly if it fits the array or all that growing clears is drawn again |
| `RenderedTerminals.RunShownIff` | crates/terminal-renderer/src/lib.rs:903-1193 | over any run of terminal events and frames, all frames are shown in full exactly if each of them grows safely |
| `RenderedTerminals.RenderRun` | crates/terminal-renderer/src/lib.rs:903-1193 | the loop over the frames leaves the array of that run in the buffer |
| `PtyWriter.PendingWrite.Push` | crates/pty/src/lib.rs:64-66 | appends to the queue |
| `PtyWriter.PendingWrite.Front` | crates/pty/src/lib.rs:70-73 | the first bytes of the queue |
| `PtyWriter.PendingWrite.Consume` | crates/pty/src/lib.rs:76-84 | removes from the front; bytes moved never exceed bytes consumed less the offset, and the dead prefix is below 64 KiB or below the live length |
| `PtyWriter.Session.FlushPending` | crates/pty/src/lib.rs:223-245 | one chunk of at most 1024 bytes, nothing lost unless the kernel fails |
| `PtyWriter.Session.WriteInput` | crates/pty/src/lib.rs:306-318 | queues the bytes and flushes once |
| `PtyWriter.Session.ReadOutput` | crates/pty/src/lib.rs:249-263 | flushes once |
| `PtyWriter.OneCall` | crates/pty/src/lib.rs:223-318 | one call exactly: what the kernel takes of the first 1024 bytes is delivered and leaves, a failure empties the queue, otherwise all waits |
| `PtyWriter.ChunksLeave` | crates/pty/src/lib.rs:223-263 | a kernel that takes whole chunks gets 1024 bytes with every read until the queue is empty |
| `PtyWriter.BytesAreConserved` | crates/pty/src/lib.rs:223-318 | over every interleaving of writes and reads without a kernel failure, delivered and queued bytes are the bytes written, in order, at most 1024 more delivered a call |
| `PtyWriter.BytesLeaveInOrder` | crates/pty/src/lib.rs:223-318 | whatever the kernel answers, the bytes written are those that left the queue followed by those still in it |
| `PtyWriter.OnlyFailuresLose` | crates/pty/src/lib.rs:223-318 | the bytes lost are exactly the queues at the failing calls: the kernel got all others that left, in order |
| `PtyWriter.QueueEmpties` | crates/pty/src/lib.rs:223-263 | if every flush is accepted by a byte or more, as many reads as there are bytes empty the queue, and no fewer than one a chunk |
| `AgentPump.ReachableInv` | crates/terminal-session/src/agent.rs:1171-1440 | every interleaving of pumps and user interface calls keeps the locking discipline and the order of each pump's messages |
| `AgentPump.NoWaitUnderALock` | crates/terminal-session/src/agent.rs:1188-1205 | no thread about to wait for a lock or the channel holds a lock, no lock has two holders, and the user interface never waits for the channel |
| `AgentPump.SoundCall` | crates/terminal-session/src/agent.rs:803-932 | draining takes no lock, snapshots take two locks in turn, stopping sends without waiting |
| `AgentPump.SoundTurn` | crates/terminal-session/src/agent.rs:1198-1232 | a turn of the pump's loop is disciplined, and sends Exited, last, exactly if it ends the pump |
| `PumpReports.PumpsReport` | crates/terminal-session/src/agent.rs:1171-1532 | over every interleaving, what a pump sent and still has to send is, message by message, the report of the turns it took |
| `PumpReports.EndedPumpReported` | crates/terminal-session/src/agent.rs:1198-1532 | the log of a pump that ended: StateChanged and Started first, an Output for every chunk, Completed exactly if the last turn exited with code 0 and was not stopped, then the final state unless the session had one, and Exited once |
| `PumpReports.ActivityIsRare` | crates/terminal-session/src/agent.rs:1394-1424 | any two lines that an activity is sent for are 400 ms apart or more |
| `PumpReports.LineTakes` | crates/terminal-session/src/agent.rs:1336-1424 | which records a line is written to, in which order |
| `PumpReports.StartTakes` | crates/terminal-session/src/agent.rs:1186-1197 | starting writes the session's record |
| `PumpReports.ChunkTakes` | crates/terminal-session/src/agent.rs:1314-1437 | a chunk is counted before its lines and its event after them |
| `PumpReports.FinishTakes` | crates/terminal-session/src/agent.rs:1462-1525 | ending writes the session's record, then the work record |
| `PumpReports.SnapshotTakes` | crates/terminal-session/src/agent.rs:823-898 | a snapshot reads the work record, then the session's; a state only the latter |
| `PumpReports.ListTakes` | crates/terminal-session/src/agent.rs:899-932 | a list does so for every session in turn |
| `PumpReports.StopReports` | crates/terminal-session/src/agent.rs:620-637 | stopping reports the new state exactly if the session had no final one and the channel has space, and changes nothing else |
| `AgentPump.HolderCanMove` | crates/terminal-session/src/agent.rs:620-637 | a thread waiting for a lock has a holder with an enabled step |
| `AgentPump.HolderReleases` | crates/terminal-session/src/agent.rs:620-637 | a holder left to itself releases its lock, however full the channel is |
| `AgentPump.NoDeadlock` | crates/terminal-session/src/agent.rs:803-815 | in every reachable world in which a thread has work a thread can move, at once or after the idle user interface drained a message |
| `AgentPump.CanFinish` | crates/terminal-session/src/agent.rs:803-815 | from every world that keeps the invariant, and so from every reachable one, some moves lead to one in which all threads are idle |
| `AgentPump.ExitedOnceAndLast` | crates/terminal-session/src/agent.rs:1462-1532 | a pump run that ended has sent exactly one Exited, as its last message, and none before |

## Left out

- Terminal.TerminalState.Resize: says what every field becomes, but what a terminal with mixed geometries does afterwards is not modelled.
- History.LimitOnlyCutsHistory: leaves out scrolling down, whose blank row enters at the tier boundary and so depends on the limit.
- RenderedTerminals.RunShownIff: excludes the cursor and the selection, which are drawn into rows without marking them, panes that are scrolled back, and another terminal at the place of a pane (which `RenderedTerminals.SwitchShownIff` covers for one frame); the atlas is that of `AtlasFrames`.
- Renderer.Encoder.RenderGrid: the cursor, the selection and the atlas lookups of a cell's encoding, which is a constructor of the cell and its place.
- Renderer.Encoder.Render: the uniforms, the overlays and the bind group.
- Frames.GrowthShowsIff: colours spelled out that are the default ones, and characters no font has, are taken to differ from a cleared slot.
- The recycling of row buffers, and allocation in general.
- Terminal.TerminalState.ApplyEvent: titles, cursor shape, mouse, focus, paste and key modes are one event without effect, and an SGR list is the style it results in; parsing parameters would only add easy members.
- Setting and clearing a selection, which mark everything; `scroll_view` and the other thin accessors.
- zlib, `unicode_width`, the escape sequence parser, fonts, shaders and drawing: outside the logic modelled here.
- Atlas.GlyphAtlas.Ensure: no bound on the size of a texture and no 32-bit wrap of its coordinates.
- PumpReports.PumpsReport: which state a StateChanged carries, the text of an Output and the code of an Exited; a message is its kind.
- AgentPump.ReachableInv: the locks of the terminal layer that polling for an exit code takes, the summaries and the heuristics that classify a line; a line comes with its classification.
- PtyWriter.Session.FlushPending: the writer's own lock; the kernel's answer is a parameter.
- Process spawning, signals, persistence, orchestration and collaboration code.
