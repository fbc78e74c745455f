# multisquared-multi — a Dafny model of the grid components and the case screens

The site draws its title and hero as grids of characters. "1", "+", "1", "="
are pinned in the first cells and the rest are random digits, into which the
word MULTISQUARED, "MULTI2" or "multi²" is written. Cells are revealed in a
shuffled order, can be drawn over with the pointer, or are toggled and faded
as the page scrolls. Behind the case pages sits a small cache of case records
kept in a React context: fetch, add, update, delete and reorder, each applied
to the local list after the database answers. Around it are an upload form
and three media lists that decide, from a URL, whether to show a video or an
image.

Each source file of that core is one Dafny module:

- Values are datatypes.
- Component state that handlers update step by step is a class with
  `modifies` clauses.
- Arrays are kept where the source writes into an array by index:
  `DrawMulti2Grid`'s new cells and `P5MathGrid`'s flag arrays.
- Every `Math.random()` or `p.random` outcome is an input, a real in [0, 1)
  (`Draws.Unit`); `Math.floor(r * n)` is `Draws.FloorMul`.
- Every database, upload or fetch answer is an input as well: a `Response`
  or an `UploadResponse`.

Helper modules:

- `Common`: `Option` and what a `catch` block receives.
- `Draws`: the random draws.
- `Cells`: flat indices, runs, and the `find` over `{idx, char}` lists.
- `Text`: case-insensitive matching, `split(...).pop()`, `split(...)[0]`,
  `String(n)` and `padStart`.
- `Shuffle`: the Fisher–Yates loop the three wrappers share, and their
  timer schedule.

## Model

| member | source | states |
|---|---|---|
| GridText.ChooseRun | app/utils/GridTextContent.ts:27-36 | The coin below 0.5 picks a horizontal run. When the word fits, the run lies inside one row or one column of the grid. |
| GridText.WordRunFits | app/utils/GridTextContent.ts:28-40 | When the word fits, letter k lands inside the grid at the run's k-th index. Across: same row, consecutive columns. Down: same column, consecutive rows. |
| GridText.PlaceWord | app/utils/GridTextContent.ts:24-41 | The push loops build exactly the word's entries: one per letter, in order, at the run's indices. |
| GridText.Layout | app/utils/GridTextContent.ts:43-57 | There are cols*rows cells; cell i has id i and starts hidden. It is fixed iff some fixed entry names i, and the first such entry gives its character. It is a word cell iff the run passes through i. A fixed character beats a word letter; every other cell is a digit. |
| GridText.GridTextContent | app/utils/GridTextContent.ts:17-60 | The loops return exactly `Layout`. |
| HeroPage.Propose | components/MathHeroPage.tsx:73-109 | Horizontal tries keep row 0 free (rows 1..rows-1) and start where the word fits. Vertical tries use a column right of column 3, and there is no such column iff cols <= 4. |
| HeroPage.SearchOutcome | components/MathHeroPage.tsx:69-121 | The loop accepts the first proposal whose indices miss cells 0-3, within 100 attempts, after rejecting every earlier try. It falls back iff all 100 overlap or a vertical try finds no column first. |
| HeroPage.PlacedWordAvoidsFixed | components/MathHeroPage.tsx:87-131 | An accepted word never covers cells 0-3 and keeps to the row and column ranges. The fallback puts letter k at index cols + k. |
| HeroPage.PlaceWord | components/MathHeroPage.tsx:65-132 | The imperative retry loop yields exactly `WordCellsFor`, the placement `Search` specifies. |
| HeroPage.ProposeAttempt | components/MathHeroPage.tsx:75-105 | One attempt's draws become exactly the proposal `Propose` specifies. |
| HeroPage.Fallback | components/MathHeroPage.tsx:123-132 | The fallback loop puts letter k at index cols + k, the start of row 1. |
| HeroPage.ProposedIndices | components/MathHeroPage.tsx:82-85 | The push loop gives the run's indices, in order. |
| HeroPage.FixedLookup | components/MathHeroPage.tsx:54-58 | The pinned characters sit at positions 0-3 whatever the `fixedText` indices say. |
| HeroPage.Assemble | components/MathHeroPage.tsx:134-150 | There are cols*rows visible cells with id i. Cells 0-3 are the only fixed ones and show "1+1=". isWord and drawn hold exactly on the word's indices, which show the word's letter unless pinned. All other cells are digits. |
| HeroPage.BuildGrid | components/MathHeroPage.tsx:50-153 | `buildGrid` is the placed word assembled into the grid. |
| HeroPage.NarrowFallbackMarksFixedCell | components/MathHeroPage.tsx:94-131 | On a 3-column grid a vertical first try falls back to index cols + 0 = 3. That index is the pinned "=", and it is also marked as a drawn word cell. |
| HeroPage.Page.constructor | components/MathHeroPage.tsx:22-30 | The page starts with no cells and is not loaded. |
| HeroPage.Page.BuildEffect | components/MathHeroPage.tsx:156-166 | Nothing happens until the window has a size. After that, cols and rows are the whole cells that fit, and the cells are `buildGrid`'s grid. |
| HeroPage.ScrollCell | components/MathHeroPage.tsx:172-200 | Only visible and drawn change. A cell appears only below progress 0.1 if it was neither visible nor drawn. It disappears only from 0.3 on. Drawn never resets, and below 0.3 a visible or drawn cell is untouched. |
| HeroPage.ScrollStep | components/MathHeroPage.tsx:170-202 | Each cell takes its own step and the length is kept. |
| HeroPage.ScrollAtZeroChangesNothing | components/MathHeroPage.tsx:174-200 | At progress 0 no cell changes. |
| HeroPage.ScrollOnlyHides | components/MathHeroPage.tsx:170-202 | Starting from cells that are visible or drawn, any run of scroll updates keeps each cell visible or drawn. It only hides cells, never un-draws one, and keeps ids, characters and flags. |
| HeroPage.BuiltGridOnlyFades | components/MathHeroPage.tsx:134-202 | After `buildGrid`, scrolling only fades cells: each stays visible or drawn and keeps its id. |
| HeroPage.Page.OnScroll | components/MathHeroPage.tsx:169-204 | The subscription replaces the cells with one `ScrollStep`. |
| Shuffle.FisherYates | components/MathHeroGridWrapper.tsx:41-45 | The in-place swap loop over an array of 0..n-1 returns a permutation of 0..n-1. |
| Shuffle.PermutationFacts | components/MathHeroGridWrapper.tsx:41-45 | A permutation of 0..n-1 has n entries, all below n and all distinct, and every index occurs. |
| Shuffle.Schedule | components/MathHeroGridWrapper.tsx:47-57 | Timer k reveals the k-th shuffled index at k*staggerDelay. |
| Shuffle.ScheduleRevealsEachCellOnce | components/MathHeroGridWrapper.tsx:47-57 | The n timers target each cell exactly once, in non-decreasing time, and the last fires at (n-1)*staggerDelay. |
| Cells.CellCount | components/MathHeroGridWrapper.tsx:33-34 | `Math.floor(size / minCellSize)`: the most whole cells that fit. |
| HeroGridWrapper.RevealTouchesOneCell | components/MathHeroGridWrapper.tsx:50-54 | A reveal makes one cell visible, keeps its id, character and flags, and leaves every other cell alone. Revealing again changes nothing. |
| HeroGridWrapper.RevealedExactlyThePrefix | components/MathHeroGridWrapper.tsx:48-57 | From an all-hidden grid, after any sequence of reveals a cell is visible iff it was a target. Nothing else about the cell changes. |
| HeroGridWrapper.ShuffledRevealsShowPrefix | components/MathHeroGridWrapper.tsx:41-57 | After the first k timers of a shuffle, exactly the first k shuffled cells are visible. |
| HeroGridWrapper.Wrapper.constructor | components/MathHeroGridWrapper.tsx:21-23 | The wrapper starts with no cells and a 0x0 grid. |
| HeroGridWrapper.Wrapper.Build | components/MathHeroGridWrapper.tsx:29-60 | Nothing happens without a window size or once cells exist. Otherwise: the grid size from `CellCount`, the cells of `GridTextContent`, and one timer per cell from a shuffled permutation. |
| HeroGridWrapper.Wrapper.Fire | components/MathHeroGridWrapper.tsx:49-55 | A firing timer reveals its cell and nothing else. |
| HeroGridWrapper.Wrapper.Cleanup | components/MathHeroGridWrapper.tsx:59 | The cleanup cancels all pending timers and keeps the cells. |
| CasesGridWrapper.InitialSlots | components/MathCasesGridWrapper.tsx:18-20 | One hidden slot per item, with id i. |
| CasesGridWrapper.ColumnsFor | components/MathCasesGridWrapper.tsx:28 | `Math.floor(width / minCellSize) \|\| 1`: the whole cells that fit, or 1 when none does. A zero cell size gives `Infinity` columns for a positive width and, through `NaN \|\| 1`, one column for a zero width. |
| CasesGridWrapper.RevealSlotTouchesOne | components/MathCasesGridWrapper.tsx:40-44 | A reveal shows one slot, keeps the rest, and is idempotent. |
| CasesGridWrapper.RevealedSlotsArePrefix | components/MathCasesGridWrapper.tsx:37-47 | After any reveals from the initial slots, slot i keeps id i and is visible iff it was a target. |
| CasesGridWrapper.Wrapper.constructor | components/MathCasesGridWrapper.tsx:18-21 | Hidden slots and one column. |
| CasesGridWrapper.Wrapper.Layout | components/MathCasesGridWrapper.tsx:25-50 | Nothing happens without a width. Otherwise, for any cell size: the column count, and one timer per slot from a shuffled permutation. |
| CasesGridWrapper.Wrapper.Fire | components/MathCasesGridWrapper.tsx:39-45 | A firing timer reveals its slot and nothing else. |
| CasesGrid.Label | components/MathCasesGrid.tsx:50 | "M2_CASE_" followed by the two-digit, zero-padded position from 1. |
| CasesGrid.FirstFourLabels | components/MathCasesGrid.tsx:50 | The four labels are M2_CASE_01 to M2_CASE_04. |
| CasesGrid.CaseItems | components/MathCasesGrid.tsx:35-56 | At most the first four cases, in order. Each item has the case's id and slug link, its label, and the colours at its position mod 5. |
| CasesGrid.ItemColoursDistinct | components/MathCasesGrid.tsx:20-42 | The four items take the first four colours, and no two items share a background. |
| CasesGrid.InitialCells | components/MathCasesGrid.tsx:82-84 | One hidden cell per item, with id i. |
| CasesGrid.WriteVisible | components/MathCasesGrid.tsx:101-105 | The array write: the entry at idx becomes visible, keeping the id found there, or no id from a hole or past the end. Every other entry is kept. Past the end the array grows to idx + 1, with holes before the new entry. |
| CasesGrid.WriteInsideIsReveal | components/MathCasesGrid.tsx:101-105 | Inside the array the write is the slot reveal, and writing again changes nothing. |
| CasesGrid.GrownItemsGetCellsWithoutId | components/MathCasesGrid.tsx:82-116 | When the items grow from n to m after mount, firing index m-1 leaves m entries. The last is visible with no id, holes lie between, and the old cells are kept. |
| CasesGrid.InnerWrapper.constructor | components/MathCasesGrid.tsx:82-85 | The cells for the items at mount, two columns, no timers. |
| CasesGrid.InnerWrapper.HandleResize | components/MathCasesGrid.tsx:88-116 | Two columns. One timer per current item, a shuffled permutation of them, is appended after the existing ones, which are never cleared. The cells are not resized. |
| CasesGrid.InnerWrapper.Fire | components/MathCasesGrid.tsx:100-106 | A firing timer performs `WriteVisible` at its index, inside or past the end of the array. |
| DrawGrid.PickedAt | components/DrawMulti2Grid.tsx:57-63 | The last of the six pre-draw picks that lands on a cell, or none. |
| DrawGrid.InitialCellsFacts | components/DrawMulti2Grid.tsx:39-63 | A cell is drawn iff a pick landed on it, and then it holds a "MULTI2" letter and is unpinned. Otherwise cells 0-3 are the pinned "1+1=" and the rest are digits. A pick may overwrite a pinned cell. |
| DrawGrid.AtMostSixDrawn | components/DrawMulti2Grid.tsx:55-63 | Every drawn cell is one of the six picks. |
| DrawGrid.Multi2Grid.constructor | components/DrawMulti2Grid.tsx:23-27 | No cells and a 0x0 grid, visible, not drawing. |
| DrawGrid.Multi2Grid.UpdateGrid | components/DrawMulti2Grid.tsx:31-67 | The array loops produce exactly `InitialCells`. |
| DrawGrid.Neighbours | components/DrawMulti2Grid.tsx:126-136 | The paintable cells among the offsets, and all of them. |
| DrawGrid.Candidates | components/DrawMulti2Grid.tsx:110-136 | Only paintable cells near the pointer, including the pointer's own cell and every paintable neighbour. |
| DrawGrid.ShuffledAreCandidates | components/DrawMulti2Grid.tsx:138 | Any reordering of the candidates holds only candidates. |
| DrawGrid.Paint | components/DrawMulti2Grid.tsx:140-147 | Writing a run keeps the length. |
| DrawGrid.PaintFacts | components/DrawMulti2Grid.tsx:140-147 | Cells off the run are unchanged. Cells on it become drawn with a "MULTI2" letter and keep their pinned flag. |
| DrawGrid.PaintDistinct | components/DrawMulti2Grid.tsx:140-147 | On a run without repeats, the k-th index gets "MULTI2"[k mod 6]. |
| DrawGrid.SplashSize | components/DrawMulti2Grid.tsx:140 | `Math.min(6, n)`. |
| DrawGrid.Chosen | components/DrawMulti2Grid.tsx:79-149 | The run a draw paints has only paintable cells inside the grid. |
| DrawGrid.DrawKeepsPinnedAndDrawn | components/DrawMulti2Grid.tsx:74-151 | A draw keeps the length and never touches a pinned or already drawn cell. Any cell it changes becomes a drawn "MULTI2" letter on the chosen run. |
| DrawGrid.ChosenShape | components/DrawMulti2Grid.tsx:79-149 | The run is the horizontal run if free, else the vertical one, when the 20% coin says sequential. Otherwise it is at most six cells near the pointer. |
| DrawGrid.SplashNear | components/DrawMulti2Grid.tsx:110-149 | The splash paints at most six cells, each the pointer's own or a neighbour. |
| DrawGrid.HorizontalRunSpellsWord | components/DrawMulti2Grid.tsx:83-104 | A free horizontal run spells M, U, L, T, I, 2 from the pointer rightwards. |
| DrawGrid.VerticalRunSpellsWord | components/DrawMulti2Grid.tsx:83-104 | Otherwise a free vertical run spells it downwards. |
| DrawGrid.RunsHaveNoRepeats | components/DrawMulti2Grid.tsx:83-86 | Both sequential runs have six distinct indices. |
| DrawGrid.NothingPaintableNoChange | components/DrawMulti2Grid.tsx:79-149 | With nothing paintable around the pointer, a draw changes nothing. |
| DrawGrid.SplashWrapsAcrossRows | components/DrawMulti2Grid.tsx:115-136 | The +1 neighbour of a last-column cell is the first cell of the next row: the flat offsets wrap. |
| DrawGrid.Multi2Grid.PaintInto | components/DrawMulti2Grid.tsx:140-147 | Writing the run into the array by index gives `Paint`. |
| DrawGrid.Multi2Grid.HandleDraw | components/DrawMulti2Grid.tsx:74-151 | The cells become `DrawSpec` of the old cells. |
| DrawGrid.Multi2Grid.PointerDown | components/DrawMulti2Grid.tsx:153-156 | The close button hides the grid. Any other cell starts a gesture and draws. |
| DrawGrid.Multi2Grid.PointerEnter | components/DrawMulti2Grid.tsx:158-160 | It draws only during a gesture and never on the close button. |
| DrawGrid.Multi2Grid.PointerUp | components/DrawMulti2Grid.tsx:162-164 | The gesture ends; nothing else changes. |
| P5Grid.Sketch.Setup | components/P5MathGrid.tsx:96-124 | There are cols*rows cells. "1+1=" sits at 0-3 and digits elsewhere. The word cells spell "MULTI2" cyclically, and all flags are false. |
| P5Grid.Pointer | components/P5MathGrid.tsx:126-153 | Only the cell under the pointer can change. A pinned cell, or one already reached in this press, stays. Otherwise the cell flips and is marked. |
| P5Grid.Press | components/P5MathGrid.tsx:155-162 | The marks after a press and its drags keep one entry per cell. |
| P5Grid.PressFlipsVisitedCellsOnce | components/P5MathGrid.tsx:126-162 | After any press and drags, a cell is marked iff an event visited it and it is unpinned. Its state differs from the state at the press exactly then, so it flips at most once and pinned cells never change. |
| P5Grid.Sketch.ToggleCell | components/P5MathGrid.tsx:126-132 | The flag arrays change as `Pointer` on that cell says. |
| P5Grid.Sketch.HandlePointer | components/P5MathGrid.tsx:134-153 | As `Pointer` on the hit cell. |
| P5Grid.Sketch.MousePressed | components/P5MathGrid.tsx:155-158 | The arrays become a fresh press from the current toggle state: the `fill(false)` loop, then the pointer. |
| P5Grid.Sketch.MouseDragged | components/P5MathGrid.tsx:160-162 | One more event of the same press. |
| P5Grid.Sketch.Tick | components/P5MathGrid.tsx:171-177 | One more cell is shown only when more than `interval` ms have passed and some are hidden, and then lastTime takes the second clock read. The count never exceeds the cells. |
| P5Grid.Appearance | components/P5MathGrid.tsx:185-219 | The word letter if toggled, else the digit. Black on white iff pinned or toggled, flipped under the pointer. Text is the inverse of the background. |
| P5Grid.HoverInverts | components/P5MathGrid.tsx:206-219 | Hover inverts both colours and keeps the character. Inverting twice restores a colour. |
| P5Grid.Sketch.Render | components/P5MathGrid.tsx:179-226 | Exactly the first animateIndex cells are drawn, each as `Appearance` says. |
| GridSketch.MatchCount | app/sketches/mathGridSketch.ts:76-77 | Non-overlapping left-to-right matches of the word. They fit within the text, and there is at least one iff the word occurs. |
| GridSketch.AppendingWordAddsOneMatch | app/sketches/mathGridSketch.ts:76-82 | Appending "multi²" to any text adds exactly one match: no match runs across the seam. |
| GridSketch.WordAppendCountsOnce | app/sketches/mathGridSketch.ts:76-82 | When a tick appends the word, the count grows by one and so never exceeds 8. |
| GridSketch.NextChar | app/sketches/mathGridSketch.ts:65-73 | A letter of "multi²" only when the coin is below 0.05 and the text is shorter than the grid; otherwise a digit. |
| GridSketch.TickText | app/sketches/mathGridSketch.ts:64-87 | After a tick the text fits the grid or is back to "1+1=2". |
| GridSketch.GrowthIsAppendOnly | app/sketches/mathGridSketch.ts:68-87 | Unless reset, the old text is a prefix of the new one and one element (`NextChar`) was added. Sometimes six more, the whole word, are added, which needs fewer than 8 matches first. |
| GridSketch.ResetWhenOverfull | app/sketches/mathGridSketch.ts:85-87 | The reset happens exactly when the grown text exceeds the grid. With room for seven more there is no reset. |
| GridSketch.PositionOf | app/sketches/mathGridSketch.ts:55-57 | Element i goes to column i % cols and row floor(i / cols). The column lies inside the row and row*cols+col = i. No columns gives no position. |
| GridSketch.PositionRoundTrip | app/sketches/mathGridSketch.ts:55-57 | Each in-grid cell position comes from exactly the index row*cols+col. |
| GridSketch.Sketch.constructor | app/sketches/mathGridSketch.ts:8-45 | The sketch starts at "1+1=2", time 0, and the interval prop or 100. |
| GridSketch.Sketch.UpdateWithProps | app/sketches/mathGridSketch.ts:47-49 | A given interval replaces the old one. |
| GridSketch.Sketch.Resize | app/sketches/mathGridSketch.ts:93-96 | The new grid size; the text is kept. |
| GridSketch.StepText | app/sketches/mathGridSketch.ts:65-87 | The pushes, the word loop and the reset compute exactly `TickText`. |
| GridSketch.Sketch.Tick | app/sketches/mathGridSketch.ts:64-90 | Nothing changes before the interval passes. After it, the text is `TickText` of the old one and lastTime is the second clock read. |
| GridSketch.Sketch.Layout | app/sketches/mathGridSketch.ts:55-61 | Each element is drawn at `PositionOf` its index. |
| Title.LayoutTotals | components/MathTitle.tsx:21-37 | The desktop layout holds 15 cells and the mobile one 11. |
| Title.LayoutFor | components/MathTitle.tsx:27-37 | Three rows, 15 cells from 1024 px of width on and 11 below. |
| Title.CellsFor | components/MathTitle.tsx:49-53 | The twelve letters, then max(total - 12, 0) empty cells. |
| Title.Slice | components/MathTitle.tsx:59 | `slice` with clamped bounds. |
| Title.Rows | components/MathTitle.tsx:56-61 | One row per layout entry. |
| Title.RowsCoverPrefix | components/MathTitle.tsx:56-61 | Joined back together, the rows are the first `TOTAL_CELLS` cells, in order. |
| Title.RowIsItsSlice | components/MathTitle.tsx:56-61 | Row k is the layout[k] cells that start at the sum of the widths before it. |
| Title.MobileDropsFinalLetter | components/MathTitle.tsx:49-61 | On mobile the rows spell MULTISQUARE and the final "D" appears in no row. |
| Title.DesktopShowsWholeWord | components/MathTitle.tsx:49-61 | On desktop all twelve letters show, followed by three empty cells. |
| Title.BgClasses | components/MathTitle.tsx:39-46 | One class per cell, each from the four colours. |
| Title.BgAsWritten | components/MathTitle.tsx:89 | The lookup at rowIndex*10+i gives undefined past the end. |
| Title.ThirdRowHasNoBackground | components/MathTitle.tsx:37-89 | With either layout, no cell of the third row gets a class. |
| Title.EveryCellHasItsOwnBackground | components/MathTitle.tsx:40-90 | Looked up at the cell's position in the whole title, every cell gets a class, and distinct cells read distinct entries. |
| Title.TitleState.constructor | components/MathTitle.tsx:19-25 | The title starts with the mobile layout and no classes. |
| Title.TitleState.UpdateLayout | components/MathTitle.tsx:28-30 | The layout follows the window width. |
| Title.TitleState.PickBackgrounds | components/MathTitle.tsx:39-46 | The classes are `BgClasses` of the draws. |
| Title.TitleState.RenderRows | components/MathTitle.tsx:48-96 | The rendered rows, with each cell's background from the corrected lookup. |
| Title.SplitRows | components/MathTitle.tsx:56-61 | The `forEach` with its running index builds exactly `Rows`. |
| CaseStore.ImagesOf | app/context/CaseContext.tsx:22 | `images ?? []`. |
| CaseStore.Without | app/context/CaseContext.tsx:129 | Keeps exactly the cases whose id is not removed, in order. When nothing matches, the list is unchanged. |
| CaseStore.WithoutConcat | app/context/CaseContext.tsx:129 | The filter distributes over concatenation. |
| CaseStore.WithoutKeepsDistinct | app/context/CaseContext.tsx:129 | Removing keeps ids distinct. |
| CaseStore.WithoutIdempotent | app/context/CaseContext.tsx:129 | Removing twice is removing once. |
| CaseStore.ReplaceByIdAsWritten | app/context/CaseContext.tsx:117-119 | The list as written: a case with the id becomes `data?.[0]`, which is undefined when no row came back. |
| CaseStore.UpdateWithoutRowsStoresUndefined | app/context/CaseContext.tsx:117-119 | With no returned row the matching entry becomes undefined. With rows it agrees with `ReplaceById`. |
| CaseStore.ReplaceById | app/context/CaseContext.tsx:117-119 | The length is kept. Each case with the id becomes the first returned row; with none returned, nothing changes. |
| CaseStore.ReplaceKeepsIds | app/context/CaseContext.tsx:117-119 | When the row carries the same id, the ids are unchanged and replacing again changes nothing. |
| CaseStore.OrderUpdates | app/context/CaseContext.tsx:140-143 | Position i is sent case_order i for that case's id. |
| CaseStore.ApplyOneOrder | app/context/CaseContext.tsx:145-152 | A case named by exactly one update gets that order. |
| CaseStore.ApplyNoOrder | app/context/CaseContext.tsx:145-152 | A case named by no update is unchanged. |
| CaseStore.ReorderRoundTrip | app/context/CaseContext.tsx:137-152 | With distinct ids, applying the updates gives the case at position i case_order i. |
| CaseStore.UseCaseContext | app/context/CaseContext.tsx:190-194 | It throws the provider message iff there is no context, and returns the context otherwise. |
| CaseStore.Provider.constructor | app/context/CaseContext.tsx:56-60 | Initial cases or [], initial slug or "", not loading, no error. |
| CaseStore.Provider.SetSlug | app/context/CaseContext.tsx:58 | Only the slug changes. |
| CaseStore.Provider.Fetch | app/context/CaseContext.tsx:62-86 | Skipped for an empty slug. Success stores `data ?? []`. An error keeps the list and records the message or "Unexpected error". Loading ends false. |
| CaseStore.Provider.AddCase | app/context/CaseContext.tsx:88-102 | Success appends the returned rows after the list. Failure keeps the list and records the error. |
| CaseStore.Provider.UpdateCase | app/context/CaseContext.tsx:104-123 | Success replaces by id (corrected for no returned row). Failure changes nothing. |
| CaseStore.Provider.DeleteCase | app/context/CaseContext.tsx:125-133 | Success removes every case with the id. Failure changes nothing. |
| CaseStore.Provider.UpdateCaseOrder | app/context/CaseContext.tsx:136-152 | The list becomes the new order before any request. The updates sent are `OrderUpdates`. |
| CaseFormModel.Payload | app/protected/components/case-form.tsx:26-33 | Title, client and description are sent as they are. Empty category, year or image list become null. |
| CaseFormModel.PayloadRoundTrip | app/protected/components/case-form.tsx:26-33 | The fields come back from the payload, with null read as empty. An empty value is never sent. |
| CaseFormModel.SubmitError | app/protected/components/case-form.tsx:42-47 | The error's message, or "Failed to add case". |
| CaseFormModel.Form.constructor | app/protected/components/case-form.tsx:11-18 | Empty fields, not loading, no error. |
| CaseFormModel.Form.SetImages | app/protected/components/case-form.tsx:104 | The upload's URLs replace the images; nothing else changes. |
| CaseFormModel.Form.HandleSubmit | app/protected/components/case-form.tsx:20-51 | With the three `required` fields filled in, the payload of the fields is sent to `addCase` with its outcome. The form is cleared, not loading, with no error. |
| CasesList.Merge | app/protected/components/cases-list.tsx:14-17 | The server cases first, in order, then exactly the client cases whose id no server case has. |
| CasesList.MergeKeepsDistinct | app/protected/components/cases-list.tsx:14-17 | The merge of two id-distinct lists is id-distinct. |
| CasesList.MergeWithOneSideEmpty | app/protected/components/cases-list.tsx:14-17 | Merging with an empty side gives the other side. |
| CasesList.ListTiles | app/protected/components/cases-list.tsx:29-50 | One tile per image. The key is the last path segment, video is the loose test, and the alt is "Case media i" from 0. |
| CasesList.ListView | app/protected/components/cases-list.tsx:19-23 | "No cases found" iff both lists are empty. Otherwise one card per merged case. |
| MediaUrl.VideoTestsNested | components/CaseMedia.tsx:33 | The end-anchored test implies the extension test, which implies the loose test. |
| MediaUrl.UpperCaseExtensionIsVideo | components/CaseMedia.tsx:33 | The tests ignore case: CLIP.MP4 is a video to all three. |
| MediaUrl.QueryStringDefeatsAnchor | components/CaseMedia.tsx:33 | "a.mp4?x" is a video to the list tests but not to `CaseMedia`. |
| MediaUrl.CloudinaryPathOnlyLoose | app/protected/components/cases-list.tsx:32-34 | A /video/upload URL without extension is a video only to the loose test. |
| MediaUrl.ImageId | components/CaseImages.tsx:16 | The part of the last segment before its first dot: no "/" or "." in it, and a prefix of the segment. |
| MediaUrl.ImageIdOfDeliveryUrl | components/CaseImages.tsx:16 | For base/name.ext the id is name. |
| CaseMediaView.AspectClass | components/CaseMedia.tsx:26-50 | "aspect-square" for square, "aspect-video" otherwise. |
| CaseMediaView.AltText | components/CaseMedia.tsx:67 | The title, or "Case media" when it is null or empty. |
| CaseMediaView.Render | components/CaseMedia.tsx:23-72 | A placeholder iff the src is null or empty. A video iff the src ends with an extension. Otherwise a picture with the alt text. The aspect class is kept. |
| CaseMediaView.QueryStringRendersPicture | components/CaseMedia.tsx:33-72 | "a.mp4?x" renders as a picture. |
| CaseMediaView.CloudinaryVideoRendersPicture | components/CaseMedia.tsx:33-72 | A Cloudinary video path without extension renders as a picture. |
| CaseMediaView.VideoHereIsVideoInLists | components/CaseMedia.tsx:33 | What `CaseMedia` plays as video, the lists treat as video too. |
| CaseImagesView.CaseImageIds | components/CaseImages.tsx:15-20 | One non-empty id per URL whose id is non-empty, in order. |
| CaseImagesView.CaseImageIdsConcat | components/CaseImages.tsx:15-20 | The map-and-skip distributes over concatenation. |
| CaseImagesView.DeliveryUrlsGiveTheirNames | components/CaseImages.tsx:15-20 | A delivery URL yields its file name. |
| CasesDisplay.DisplayTiles | components/cases-display.tsx:20-38 | One tile per image. The key is the index, video is the extension test, and the alt is "Case media i+1". |
| CasesDisplay.Display | components/cases-display.tsx:10-14 | "No cases found" iff the list is empty. Otherwise one card per case, in order. |
| CasesDisplay.DisplayTileFacts | components/cases-display.tsx:20-23 | Null images give no tiles. A Cloudinary video path is shown as an image here. |
| MediaUploader.ResourceType | components/MediaUpload.tsx:27 | "video" iff the MIME type starts with "video/", else "image". |
| MediaUploader.Endpoint | components/MediaUpload.tsx:30-31 | The Cloudinary upload URL for that resource type. |
| MediaUploader.Successes | components/MediaUpload.tsx:41-42 | At most one URL per file. |
| MediaUploader.SuccessesExact | components/MediaUpload.tsx:29-45 | A URL is kept iff some upload succeeded with it. |
| MediaUploader.SuccessesOfAllFailed | components/MediaUpload.tsx:35-45 | When every upload fails, no URL is kept. |
| MediaUploader.Uploader.constructor | components/MediaUpload.tsx:11-12 | Not uploading, no URLs. |
| MediaUploader.Uploader.HandleFileChange | components/MediaUpload.tsx:14-51 | No files, nothing happens. Otherwise each file is posted to its endpoint, the successful URLs are kept in order and handed to `onUpload`, and uploading ends false. |
| MediaUploader.UploadedTiles | components/MediaUpload.tsx:65-83 | One tile per URL: the last segment as key, the loose video test, alt "Uploaded media". |
| Draws.FloorMul | components/MathHeroPage.tsx:77-80 | `Math.floor(r * n)` lies in [0, n) for n > 0 and between n and 0 otherwise. |
| Draws.Digit | app/utils/GridTextContent.ts:52 | `Math.floor(Math.random() * 10).toString()` is a digit. |
| Cells.Find | app/utils/GridTextContent.ts:45-46 | `find` by idx: the first matching entry's character, or none iff no entry matches. |
| Text.ContainsCI | app/protected/components/cases-list.tsx:32-34 | An unanchored case-insensitive regex test finds a match at some position. |
| Text.AfterLast | app/protected/components/cases-list.tsx:35 | `split("/").pop()`: the suffix after the last separator, which it does not contain. |
| Text.BeforeFirst | components/CaseImages.tsx:16 | `split(".")[0]`: the prefix before the first separator. |
| Text.Decimal | components/cases-display.tsx:38 | `String(n)`: decimal digits that spell n, with no leading zero; one digit below 10. |
| Text.PadStart | components/MathCasesGrid.tsx:50 | `padStart`: the string right-aligned to the width with the pad character. |

## Left out

- Distributions: every random draw is an arbitrary input in [0, 1). Nothing is claimed about how likely a placement, splash or reveal order is.
- I/O: Supabase queries, Cloudinary uploads and `fetch` are modelled only by their outcomes, which are passed in. `console` logging is left out.
- Async interleaving: each handler runs to completion. `updateCaseOrder`'s `forEach(async ...)` requests are not awaited, so their errors never reach its `catch`; only the updates it sends are modelled.
- Timers and effect lifecycles: `setTimeout` firing is the `Fire` step, and an effect run is one method call. The hero wrapper's cleanup can cancel the timers it just scheduled, because `cells.length` is one of its dependencies. That trap is not claimed as behaviour. MathCasesGrid's timers are never cleared; the model keeps appending them.
- The rendered opacity `cell.visible ? 1 : 1` in both case-grid wrappers makes visibility invisible on screen. Visibility is modelled as state only.
- Floating point: opacity curves, framer-motion springs and scroll transforms, and the hero cells' `delay: Math.random() * 1.5`. The float `cols`/`rows` of `DrawMulti2Grid.updateGrid`, `P5MathGrid.updateGrid` and `mathGridSketch.updateGrid` are taken as inputs. p5 pixel hit-testing is modelled as the index of the cell under the pointer, if any.
- DrawGrid.Multi2Grid.UpdateGrid: requires cols and rows above zero. The component always has some (about 20 each way), and with none `Math.floor(Math.random() * 0)` would write index 0 of an empty array.
- HeroGridWrapper.Wrapper.Fire and CasesGridWrapper.Wrapper.Fire: require the timer's index to be a current cell. Both effects shuffle over the cells they hold, so their timers never write past the end. The inner grid of MathCasesGrid can, and `CasesGrid.InnerWrapper.Fire` models that write.
- HeroPage.Page.BuildEffect and HeroGridWrapper.Wrapper.Build: require `minCellSize > 0`, as the defaults (80) are. A zero size gives infinite grids in JavaScript.
- The form's "Failed to add case" branch cannot happen, because `addCase` catches every error itself. `SubmitError` models it, and `HandleSubmit` always clears the form.
- A successful `addCase` with `data` null (`[...null]` throws inside the `try`) is not modelled: the response always carries a list.
- CaseStore.Provider.UpdateCase: stores the corrected `ReplaceById`, so its state never holds the `undefined` entry that `data?.[0]` leaves when no row comes back. The as-written reducer is `ReplaceByIdAsWritten` (see Findings).
- Title.TitleState.RenderRows: looks each background up with the corrected `BgFor`, so third-row cells get a class there. The as-written lookup `cellBgClasses[rowIndex * 10 + i]` is `BgAsWritten` (see Findings).
- The payload has no `case_slug`, as in the source; what the database then does is not modelled.
- Rendering: the close button's "×" glyph, row grid classes, `motion` props, `next/image`, `AdvancedImage` and Cloudinary's image builder are left out. So are CaseMedia's `hoverPlay` play/pause handlers and the video's `autoPlay`, `muted` and `loop` flags, and how `cells.map` renders holes and id-less cells (`key={cell.id}`). So are the presentational components (MathSvgTitle, FloatingNav, buttons, layout) and the p5 script injection and canvas lifecycle.

## Findings

| source | as written | input that shows it | evidently intended | confidence | as-written member | corrected member |
|---|---|---|---|---|---|---|
| app/context/CaseContext.tsx:117-119 | a case with the updated id is replaced by `data?.[0]`, even when no row came back | a successful update whose `select()` returns `[]` (e.g. a row hidden by a policy) while a case with that id is cached: the list then holds `undefined` | replace only when a row came back, otherwise keep the cached case | not executed | CaseStore.ReplaceByIdAsWritten, CaseStore.UpdateWithoutRowsStoresUndefined | CaseStore.ReplaceById, CaseStore.ReplaceKeepsIds |
| components/MathTitle.tsx:89 | a cell's background is read at `rowIndex * 10 + i` | any layout: the third row reads indices 20 and up of a 15- or 11-element array, so its cells get the class `undefined` | read at the cell's position in the title (the widths of earlier rows plus `i`), giving every cell a class | not executed | Title.BgAsWritten, Title.ThirdRowHasNoBackground | Title.BgFor, Title.EveryCellHasItsOwnBackground |
