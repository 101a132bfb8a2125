# X server core: verified model

A Dafny model of the decision logic of an X11 server: the algorithms and state machines that need no
socket, GPU or wire code. Where the source updates a table, a queue or a vector in place, the model has
a class or a method with the same loops, proved against a specification function; the promises are
lemmas about those functions. The machine's integers are modelled: i16/u16 clamps and casts in regions,
wrapping i16 coordinates in hit testing, saturating i32 scroll accumulators, u64 frame counters.

* **Regions** (`Regions`, `RegionOps`, `RegionLists`, `RegionTails`, `ShapeCombine`,
  `Bitmap`). Lists of rectangles against sets of pixels:
  normalisation into YX bands, intersection, union, subtraction, the SHAPE operations, and bitmaps to
  regions. No bound on edges is assumed; where i16/u16 clamps lose pixels the exact condition is given.
* **The window tree** (`WindowTree`, `WindowOps`, `WindowDestroy`, `Stacking`, `Viewability`,
  `Cascades`, `WindowRuns`, and the class in `ResourceTable`). Create, destroy, reparent, configure, restack,
  circulate, map, unmap, and the composite overlay window; what each does and what every run keeps.
* **Crossing and focus events** (`Crossings`, `CrossingReplay`, `CrossingLaws`, `CrossingDetails`,
  `Focus`, `FocusReplay`, `FocusDetails`), section 11 of the X Window System Protocol
  (EnterNotify/LeaveNotify, FocusIn/FocusOut).
  A client that keeps the path of windows it is inside of, leaving on Leave and entering on Enter, ends
  on the right path; a Leave or Enter that does not fit the path makes the replay fail.
* **Hit testing and propagation** (`HitTest`): descent and ascent over the same tree undo each other.
* **The display lock** (`LockFile`, `DisplayLock`, `DisplayLockRuns`, `LockDirectory`): any number of
  starting servers interleaved at single system calls, with crashes and failing calls.
* **Buffered output** (`ClientIo`), **glyph sets** (`Glyphsets`), the **Present queue** (`Present`),
  **input batches** (`InputThread`, `Scrolling`) and **properties** (`Properties`).

Places where the code is stricter or looser than its documentation, followed as the code has them:

* SHAPE Invert acts as Set (`ShapeCombine.ApplyShapeOp`).
* The reclaim of a stale display lock checks the inode and then unlinks; these are two steps here, and
  `DisplayLockRuns.TwoHolders` shows what can happen between them.
* Draining a destroyed window forgets the flipped buffer it retains without handing it back
  (`Present.DestroyedWindowLosesHandle`).
* A batch split behind a zap is processed further, where one batch would have ended
  (`InputThread.SplitAtZapDiffers`).
* Creating a glyph set over an id in use drops the release result, so a host glyph set can go out of use
  unreported (`Glyphsets.ReusedIdLoses`).
* The last release of the composite overlay window removes its record without looking at its children or
  its parent, so it can leave windows without a parent, or a parent with a child that does not exist
  (`WindowRuns.TeardownCanBreakTree`).
* A capped chain of exactly 257 hops on both sides still replays correctly, by a coincidence of the cap;
  `CrossingReplay.CrossingsReplayIff` includes the case.
* RaiseLowest takes the topmost window to the bottom and LowerHighest the lowest one to the top, since child
  lists go from bottom to top (`Stacking.RaiseLowestLowers`).
* The hit test cuts sides at 32767 and wraps at the end of the i16 range (`HitTest.RectangleLawIff`).
* Circulating a window stack whose first step brings the overlay window to the top is not undone by the
  other direction (`Stacking.CirculateInverseIff`).

## Model

| member | source | states |
|---|---|---|
| RegionOps.NormalizeRegionRects | crates/xserver-core/src/nested.rs:503-568 | the sweep with its edge list, span sort, span fusion and clamped drawing computes the function `Normalized`, about which the next rows speak |
| Regions.NormalizedPixel | crates/xserver-core/src/nested.rs:503-568 | on every list and every pixel left of and above 32767, and on every pixel if no bands or columns are clamped, the result covers the pixel exactly when the input does |
| Regions.NormalizedKeepsPixelsIff | crates/xserver-core/src/nested.rs:503-568 | normalising keeps the whole pixel set if and only if at most one bottom edge lies beyond row 32767 and no row has 65536 neighbouring pixels |
| RegionTails.NormalizedExact | crates/xserver-core/src/nested.rs:503-568 | with at most one bottom edge beyond row 32767, a pixel survives if and only if fewer than 65535 covered neighbours lie unbroken to its left: the column clamp costs exactly the rest of such a run |
| RegionTails.TopRowsKept | crates/xserver-core/src/nested.rs:503-568 | whatever bottom edges there are, a pixel down to row 32767 survives unless it is in such a tail |
| RegionTails.WideRowLoses | crates/xserver-core/src/nested.rs:503-568 | two touching rectangles, 65535 pixels wide and any width more: all of the second one is lost from the row |
| Regions.NormalizedIsNormal | crates/xserver-core/src/nested.rs:503-568 | the result consists of non-empty rectangles sorted by band, then by column; bands do not overlap, rectangles of a band share top and bottom and are at least one pixel apart |
| Regions.NormalFormDisjoint | crates/xserver-core/src/nested.rs:503-568 | two different rectangles of a normal form share no pixel |
| Regions.NormalFormFixed | crates/xserver-core/src/nested.rs:503-568 | a list in normal form is left as it is, rectangle by rectangle |
| Regions.NormalizedIdempotentIff | crates/xserver-core/src/nested.rs:503-568 | normalising twice gives the same list as normalising once if and only if at most one bottom edge lies beyond row 32767 |
| RegionOps.IntersectRectPixels | crates/xserver-core/src/nested.rs:597-614 | the intersection of two rectangles has exactly their common pixels and is never clamped; there is none exactly when they have no common pixel |
| RegionOps.SubtractRectExactIff | crates/xserver-core/src/nested.rs:662-704 | the up to four strips cover exactly the pixels of the first rectangle outside the second if and only if no strip would have to start beyond coordinate 32767 |
| RegionOps.IntersectRegions | crates/xserver-core/src/nested.rs:616-629 | normalises the list of pairwise intersections: covers exactly the common pixels if and only if that list has at most one bottom edge beyond row 32767 and no 65536 pixel row; for every input it is right about pixels below 32767; in range the result is in normal form |
| ShapeCombine.SubtractFromPieces | crates/xserver-core/src/nested.rs:713-726 | the inner loop: the cut taken out of every piece, in order |
| ShapeCombine.SubtractRegions | crates/xserver-core/src/nested.rs:713-726 | normalises the list of pieces left: right about pixels below 32767 for every input; on all pixels, for every input, exactly the difference if and only if that list has at most one bottom edge beyond 32767, no 65536 pixel row, and is the difference itself, as it is when no cut ends beyond 32767 before a rectangle of the minuend does; always exact and in normal form when the minuend ends by 32767 |
| RegionTails.DifferenceExactIff | crates/xserver-core/src/nested.rs:713-726 | the same for the specification, and when no split of the run of cuts overflows the last condition is met: clamps of the normalisation never make up for a misplaced piece |
| RegionTails.CornerLoses | crates/xserver-core/src/nested.rs:662-726 | wherever a piece left and a cut share a pixel in column 32767, some pixel of the difference is in no piece |
| RegionLists.DifferenceCanLose | crates/xserver-core/src/nested.rs:713-726 | at columns of different height beyond 32767 the subtraction of lists covers a pixel of the source and loses one outside it |
| RegionLists.OverflowCanHide | crates/xserver-core/src/nested.rs:713-726 | an overflowing split need not show in the result: a later cut can take the misplaced strip away |
| ShapeCombine.UncoveredPieces | crates/xserver-core/src/nested.rs:637-657 | the part of one source rectangle that the result does not cover yet, with the early exit |
| ShapeCombine.UnionRegions | crates/xserver-core/src/nested.rs:637-657 | normalises the accumulated list: right about pixels below 32767 for every input; on all pixels, for every input, exactly the union if and only if that list has at most one bottom edge beyond 32767, no 65536 pixel row, and covers the union itself |
| RegionLists.UnionExactIff | crates/xserver-core/src/nested.rs:637-657 | unless a strip to the right overflows, the list covers the union exactly when no strip below overflows |
| RegionLists.UnionInside | crates/xserver-core/src/nested.rs:637-657 | the accumulated list never has a pixel outside the union, clamps or not |
| RegionLists.ClearUnion | crates/xserver-core/src/nested.rs:637-657 | no split overflows when no rectangle of either operand ends beyond 32767 before a source rectangle does |
| RegionLists.UnionCanLose | crates/xserver-core/src/nested.rs:637-657 | the union of columns of different height beyond 32767 is always wrong |
| ShapeCombine.ApplyShapeOp | crates/xserver-core/src/nested.rs:897-910 | dispatches on the operation: Set, Union, Intersect and Subtract are right about pixels below 32767, and about all pixels under the exact condition of the next row; Invert acts as Set, unknown operations change nothing |
| ShapeCombine.ShapeOpExactIff | crates/xserver-core/src/nested.rs:897-910 | for all operands every operation is exact on all pixels if and only if the list it normalises is right, has at most one bottom edge beyond 32767 and no 65536 pixel row; the list is right when no split can overflow |
| RegionOps.ClampsCanBite | crates/xserver-core/src/nested.rs:662-704 | for every two columns of different height beyond the i16 range: splitting one by the other loses a row and draws another one that was cut away |
| Bitmap.RowRuns | crates/xserver-core/src/nested.rs:832-887 | the run scan of one row yields the maximal runs of set pixels, in order |
| Bitmap.RunsCanonical | crates/xserver-core/src/nested.rs:832-887 | maximal run lists are unique: equal pixels, equal list, so comparing run lists compares rows |
| Bitmap.BlocksFitIffAddressable | crates/xserver-core/src/nested.rs:832-887 | a run or band would start beyond 32767 exactly when the bitmap itself has a run or a row change there |
| Bitmap.BitmapToYxBandedRects | crates/xserver-core/src/nested.rs:832-887 | for every bitmap of u16 size, rasterising the rectangles gives back exactly the set pixels if and only if no run and no band starts beyond 32767; the rectangles are then in normal form, with maximal runs, and touching bands differ; up to 32768 by 32768 it always round-trips |
| Bitmap.SmallBitmapsAddressable | crates/xserver-core/src/nested.rs:832-887 | in bitmaps up to 32768 by 32768 no run and no band starts beyond 32767, whatever their bytes |
| Bitmap.LateRunWraps | crates/xserver-core/src/nested.rs:832-887 | in a row with one set pixel, in column 32768, the rectangle comes out at column -32768 |
| Resources.ResourceTable.constructor | crates/xserver-core/src/resources.rs:458-541 | a new table holds the root alone |
| Resources.ResourceTable.CreateWindow | crates/xserver-core/src/resources.rs:458-541 | the record is added and linked into its parent below a topmost overlay window; nothing else changes |
| Resources.ResourceTable.DestroyWindow | crates/xserver-core/src/resources.rs:543-547 | the table and the list of ids are those of the recursive specification, on any table |
| Resources.ResourceTable.DestroyWindowInner | crates/xserver-core/src/resources.rs:648-670 | the recursion ends on any table because each effective call shrinks it; ids are appended in order of removal |
| Resources.ResourceTable.ReparentWindow | crates/xserver-core/src/resources.rs:1306-1356 | three guards, unlink from the old list, insert below a topmost overlay window, new position; refused requests change nothing |
| Resources.ResourceTable.IsDescendantOf | crates/xserver-core/src/resources.rs:1150-1167 | the counted upward loop computes `DescendsFrom` |
| Resources.ResourceTable.ResolveRestackAction | crates/xserver-core/src/resources.rs:860-909 | the decision table for the five stack modes with and without a sibling |
| Resources.ResourceTable.AnySiblingOccludesWindow | crates/xserver-core/src/resources.rs:915-953 | true exactly when some considered mapped sibling above meets the window |
| Resources.ResourceTable.WindowOccludesAnySibling | crates/xserver-core/src/resources.rs:958-996 | true exactly when the window meets some considered mapped sibling below |
| Resources.ResourceTable.RestackWindow | crates/xserver-core/src/resources.rs:792-850 | the child list of the parent is rearranged as resolved, and nothing else |
| Resources.ResourceTable.ConfigureWindow | crates/xserver-core/src/resources.rs:769-790 | geometry first, then restacking against the new geometry |
| Resources.ResourceTable.CirculateWindow | crates/xserver-core/src/resources.rs:1101-1131 | rotates the child list, or its part below the overlay window under the root, and tells which window moved |
| Resources.ResourceTable.MapWindow | crates/xserver-core/src/resources.rs:999-1033 | the marking and the recursion over the children, on any table on which that ends; in a rooted tree exactly `Viewability.MapWindow` |
| Resources.ResourceTable.PromoteUnviewableDescendants | crates/xserver-core/src/resources.rs:1035-1064 | the recursion in its order, missing children passed over, on any table on which it ends |
| Cascades.CascadeIsPromote | crates/xserver-core/src/resources.rs:1035-1064 | in a rooted tree the recursion makes Viewable exactly the waiting windows reached through mapped ones |
| Cascades.TreeEndsEverywhere | crates/xserver-core/src/resources.rs:1035-1064 | in a rooted tree the recursion ends from every window |
| Resources.ResourceTable.UnmapWindow | crates/xserver-core/src/resources.rs:1067-1077 | only the window itself changes state |
| Resources.ResourceTable.MaterializeCowResource | crates/xserver-core/src/resources.rs:563-601 | adds the overlay window on top of the root |
| Resources.ResourceTable.DestroyCowResource | crates/xserver-core/src/resources.rs:610-615 | drops the overlay window and its entry in the root list |
| WindowOps.IsDescendantCorrect | crates/xserver-core/src/resources.rs:1150-1167 | in a rooted tree the walk decides strict ancestry exactly: its counter never cuts a real path short |
| WindowOps.ReparentKeepsTree | crates/xserver-core/src/resources.rs:1306-1356 | whatever the arguments, a reparent leaves a rooted tree, and it is accepted exactly when both windows exist, the window is not the root and the new parent is not below it |
| WindowOps.ReparentRecords | crates/xserver-core/src/resources.rs:1306-1356 | an accepted reparent touches the record of the window and the child lists of its two parents, and nothing else |
| Stacking.ReparentedOnTop | crates/xserver-core/src/resources.rs:1306-1356 | a reparented window lies above all its new siblings but a topmost overlay window, which keep their order, at the position asked for |
| WindowOps.ReparentMovesSubtree | crates/xserver-core/src/resources.rs:1306-1356 | it moves exactly the window with its subtree: paths through the window go on above the new parent, all others stay |
| WindowOps.CreateKeepsTree | crates/xserver-core/src/resources.rs:458-541 | creating a fresh id under an existing parent leaves a rooted tree in which all old paths are unchanged |
| Stacking.CreatedOnTop | crates/xserver-core/src/resources.rs:458-541 | a new window lies above all its siblings but a topmost overlay window, has the geometry asked for and no children, and is unmapped; siblings keep their order and no other record changes |
| WindowOps.MaterializeKeepsTree | crates/xserver-core/src/resources.rs:563-601 | materialising the overlay window leaves a rooted tree |
| Stacking.MaterializedRecord | crates/xserver-core/src/resources.rs:563-601 | the new overlay window has the size of the root, is shown and childless; of the others only the root's child list changes |
| WindowOps.DestroyCowKeepsTreeIff | crates/xserver-core/src/resources.rs:610-615 | tearing the overlay window down leaves a rooted tree if and only if it has no children and is still a child of the root |
| WindowDestroy.DestroyWindowCorrect | crates/xserver-core/src/resources.rs:648-670 | exactly the subtree goes; each id is reported once, in pre-order, parents before children; all other records are unchanged but for one child list; the rest is a rooted tree with the old paths |
| WindowDestroy.SiblingsDisjoint | crates/xserver-core/src/resources.rs:648-670 | siblings have no descendant in common |
| WindowRuns.ApplyKeepsTreeIff | crates/xserver-core/src/resources.rs:458-1356 | of nine requests with fresh ids and existing parents, all leave a rooted tree but exactly the teardown of an overlay window that has children or is no child of the root |
| WindowRuns.TeardownCanBreakTree | crates/xserver-core/src/core_loop/process_request.rs:4597-4634 | overlay window shown, any window created below it, overlay window released: the window is left without a parent |
| WindowRuns.RunKeepsTreeIff | crates/xserver-core/src/resources.rs:458-1356 | over every run of requests that pass the dispatcher, from any rooted tree, the table stays one after each (parents exist, each window is in exactly its parent's list and once, every window reaches the root) if and only if the overlay window is never torn down with children or away from the root |
| WindowRuns.AllowedRunIff | crates/xserver-core/src/resources.rs:458-1356 | the runs that the following rows speak of are exactly those that pass the dispatcher and stay trees |
| WindowRuns.RunKeepsTree | crates/xserver-core/src/resources.rs:458-1356 | and after such a run the table is a rooted tree |
| WindowRuns.InitialIsTree | crates/xserver-core/src/resources.rs:458-541 | the initial table is a rooted tree with truthful map states, and is where the runs start |
| WindowRuns.RunKeepsCow | crates/xserver-core/src/resources.rs:319-324 | the overlay window stays topmost through every such run that does not move it and stacks no root child above itself |
| Stacking.OverlapIsCommonPixel | crates/xserver-core/src/resources.rs:2531-2546 | the overlap test says whether two windows, borders included, have a common pixel |
| Stacking.MeetsIff | crates/xserver-core/src/resources.rs:915-996 | two siblings meet if both are mapped and have a common pixel; that is what the stacking rows mean by it |
| Stacking.ApplyRestackMovesOnly | crates/xserver-core/src/resources.rs:792-850 | every restack is a permutation without repetition that keeps all other siblings in order |
| Stacking.LandsAbove | crates/xserver-core/src/resources.rs:792-850 | the window lands immediately above the named sibling; above the overlay window means directly below it when it is the topmost of the other siblings, and on top of all when it is not |
| Stacking.LandsBelow | crates/xserver-core/src/resources.rs:792-850 | the window lands immediately below the named sibling |
| Stacking.AboveRaises | crates/xserver-core/src/resources.rs:792-909 | mode Above on the table: without a sibling the window comes to the top, the overlay window alone excepted; with one it comes immediately above it, or to the top if that is the overlay window; naming no sibling changes nothing |
| Stacking.BelowLowers | crates/xserver-core/src/resources.rs:792-909 | mode Below on the table: without a sibling the window comes first, with one immediately below it; naming no sibling changes nothing |
| Stacking.BesideItself | crates/xserver-core/src/resources.rs:792-909 | above itself a window goes to the end of the list, below itself to its start |
| Stacking.UnknownModeChangesNothing | crates/xserver-core/src/resources.rs:792-909 | a stack mode outside 0 to 4, or none, changes nothing |
| Stacking.RestackKeepsTree | crates/xserver-core/src/resources.rs:792-850 | a restack changes one child list only and keeps a rooted tree |
| Stacking.TopIfClearsAbove | crates/xserver-core/src/resources.rs:860-909 | after TopIf no mapped sibling above that it considers (all, or the named one) meets the window, the overlay window excepted |
| Stacking.BottomIfClearsBelow | crates/xserver-core/src/resources.rs:860-909 | after BottomIf the window meets no mapped sibling below that it considers, with or without a named one |
| Stacking.OppositeClears | crates/xserver-core/src/resources.rs:860-909 | after Opposite, with or without a named sibling, a window occluded by what is considered is clear of it above (but for the overlay window), any other is clear of it below, and one that met nothing has not moved |
| Stacking.IdleRestack | crates/xserver-core/src/resources.rs:860-909 | TopIf moves no window that nothing considered meets from above, BottomIf none that meets nothing considered below, Opposite none for which both hold |
| Stacking.ConditionalMoves | crates/xserver-core/src/resources.rs:860-909 | a window that TopIf moves comes to the top, one that BottomIf moves to the bottom, and they move it exactly when it meets such a sibling |
| Stacking.OppositeMoves | crates/xserver-core/src/resources.rs:860-909 | Opposite brings a window met from above to the top, and one that only meets something below to the bottom |
| WindowRuns.ConfigureGeometry | crates/xserver-core/src/resources.rs:769-790 | each field given is set, each one missing is kept, and no other record changes but for the order of siblings |
| WindowRuns.ConfigureStacks | crates/xserver-core/src/resources.rs:769-850 | the stack mode of a configure request holds with respect to the geometry the same request has set, for all five modes |
| Stacking.StrangerChangesNothing | crates/xserver-core/src/resources.rs:860-909 | naming a window that is no sibling resolves to no action, and there is nothing to be clear of |
| Stacking.CirculateKeepsTree | crates/xserver-core/src/resources.rs:1101-1131 | circulating moves one child only and keeps a rooted tree |
| Stacking.CirculateMoves | crates/xserver-core/src/resources.rs:1101-1131 | direction 0 takes the topmost window but the overlay window to the bottom, direction 1 the lowest one to the top; nothing moves if fewer than two take part |
| Stacking.RaiseLowestLowers | crates/xserver-core/src/resources.rs:1101-1131 | with three windows, raising the lowest by mode Above and RaiseLowest give different orders: RaiseLowest lowers the highest |
| Stacking.CirculateInverseIff | crates/xserver-core/src/resources.rs:1101-1131 | the two directions undo each other if and only if the first does not bring the overlay window to the top of the root list |
| Stacking.RestackKeepsCowIff | crates/xserver-core/src/resources.rs:319-324 | the function by itself: restacking another window takes a topmost overlay window off the top if and only if a child of the root is stacked above itself, which the dispatcher answers with BadMatch before it calls |
| Stacking.CreateKeepsCow | crates/xserver-core/src/resources.rs:319-324 | creating a window leaves a topmost overlay window on top |
| Stacking.ReparentKeepsCow | crates/xserver-core/src/resources.rs:1306-1356 | reparenting another window leaves a topmost overlay window on top |
| Stacking.CirculateKeepsCow | crates/xserver-core/src/resources.rs:1101-1131 | circulating leaves a topmost overlay window on top |
| Stacking.MaterializePinsCow | crates/xserver-core/src/resources.rs:563-601 | a new overlay window is the topmost child of the root |
| Viewability.MapWindowExact | crates/xserver-core/src/resources.rs:999-1064 | the state of every window after a map: under a Viewable parent exactly the window and what it reaches through mapped windows becomes Viewable, otherwise only the window is marked |
| Viewability.MapRecords | crates/xserver-core/src/resources.rs:999-1064 | mapping changes nothing but those states, and tells whether the window was unmapped |
| Viewability.UnmapRecords | crates/xserver-core/src/resources.rs:1067-1077 | unmapping changes nothing but the state of that one window, never the root, and tells whether it was mapped |
| Viewability.MapKeepsTruth | crates/xserver-core/src/resources.rs:999-1064 | mapping keeps "Viewable means mapped all the way up" |
| Viewability.UnmapKeepsTruthIff | crates/xserver-core/src/resources.rs:1067-1077 | unmapping keeps it if and only if no mapped child stays behind under a window that was Viewable |
| Viewability.ReparentKeepsTruthIff | crates/xserver-core/src/resources.rs:1306-1356 | reparenting keeps it if and only if the window is unmapped or both parents are Viewable or neither is |
| Viewability.StatesCanLie | crates/xserver-core/src/resources.rs:1067-1077 | a Viewable child stays Viewable when its parent is unmapped, and when it is moved below an unmapped window |
| WindowRuns.ApplyTruthIff | crates/xserver-core/src/resources.rs:999-1077 | for each request the exact condition under which truthful map states stay truthful |
| WindowRuns.RunTruthful | crates/xserver-core/src/resources.rs:999-1077 | over every such run whose steps meet that condition a window is Viewable exactly when it and all its ancestors are mapped |
| WindowRuns.NoUnmapNoReparent | crates/xserver-core/src/resources.rs:999-1077 | runs without unmap and reparent always meet the condition |
| Crossings.AncestorChain | crates/xserver-core/src/crossings.rs:547-563 | the loop with its cap of 256 hops computes `Chain`, on any table |
| Crossings.ChainIsPath | crates/xserver-core/src/crossings.rs:547-563 | in a rooted tree the chain is the root path cut after 257 windows |
| Crossings.ComputeCrossingChain | crates/xserver-core/src/crossings.rs:98-230 | the events, in order, with window, kind, detail and child |
| CrossingReplay.CrossingsReplayIff | crates/xserver-core/src/crossings.rs:98-230 | replaying the events turns the root path of `from` into that of `to` if and only if both are at most 256 hops below their common ancestor, or both exactly 257; otherwise some event does not fit |
| CrossingReplay.ShallowWindowsReplay | crates/xserver-core/src/crossings.rs:98-230 | in particular for all windows within 256 hops of the root |
| CrossingReplay.NearRootIff | crates/xserver-core/src/crossings.rs:98-230 | leaving for the root is near enough from exactly the windows within 256 hops of it |
| CrossingReplay.DeepLeaveFails | crates/xserver-core/src/crossings.rs:98-230 | in a tower of more windows than that, leaving the last one for the root gives events that do not fit |
| CrossingReplay.ForkUnique | crates/xserver-core/src/crossings.rs:566-573 | the common ancestor's place on the two paths is determined by the paths |
| CrossingLaws.CrossingsSymmetric | crates/xserver-core/src/crossings.rs:98-230 | crossings(to, from) is crossings(from, to) reversed with Enter and Leave exchanged, for windows at any depth |
| CrossingLaws.VirtualChildren | crates/xserver-core/src/crossings.rs:98-230 | the child of a virtual event is the next window down that path; the two end events name none |
| CrossingLaws.CrossingViewsArePaths | crates/xserver-core/src/crossings.rs:98-230 | after any number of the crossing events the view is the root path of some window; all of them fit if and only if the common ancestor is near enough |
| CrossingLaws.NoWindowTwice | crates/xserver-core/src/crossings.rs:98-230 | no window gets two events, the two end windows included, for windows at any depth |
| CrossingDetails.CrossingEventsExact | crates/xserver-core/src/crossings.rs:98-230 | which events there are, told from the two paths to the root: the ends get Ancestor, Inferior or Nonlinear as the other window is above, below or neither; exactly the windows above an end that are neither on the other path nor above one that is are passed, with Virtual or NonlinearVirtual and the child they were passed from; paths count up to 256 hops |
| CrossingDetails.CrossingOrder | crates/xserver-core/src/crossings.rs:98-230 | all Leave events come first, up the tree, then all Enter events, down the tree |
| CrossingDetails.CrossingsDetermined | crates/xserver-core/src/crossings.rs:98-230 | any list with those events in that order is the list computed |
| Focus.FocusTransitionEvents | crates/xserver-core/src/crossings.rs:255-541 | computes `FocusEvents`, whose members, details and order the FocusDetails rows determine |
| Focus.PointerRunsMirror | crates/xserver-core/src/crossings.rs:274-340 | without an excluded window the in-run names the windows of the out-run in reverse |
| FocusDetails.OutRunExact | crates/xserver-core/src/crossings.rs:274-301 | FocusOut with detail Pointer goes exactly to the windows from the pointer's up to the focus window, that one only when inclusive; to none if the excluded window is strictly above or below the pointer's |
| FocusDetails.InRunExact | crates/xserver-core/src/crossings.rs:302-335 | FocusIn with detail Pointer to the same windows; to none also if the excluded window is the pointer's |
| FocusDetails.FocusEventsExact | crates/xserver-core/src/crossings.rs:255-541 | which events a change of focus sends, told from paths to the root and the raw values: the two ends, the windows passed, the root with PointerRoot or DetailNone, and the runs to the pointer, each with its detail |
| FocusDetails.FocusOrder | crates/xserver-core/src/crossings.rs:255-541 | first the run up from the pointer, then FocusOut up the tree, then FocusIn down the tree, last the run down to the pointer |
| FocusDetails.FocusDetermined | crates/xserver-core/src/crossings.rs:255-541 | any list with those events in that order is the list computed |
| FocusReplay.FocusReplayIff | crates/xserver-core/src/crossings.rs:255-541 | replaying one transition turns the path of the old focus into that of the new one if and only if the windows are near enough; the pointer position does not matter |
| FocusReplay.ShallowIsNear | crates/xserver-core/src/crossings.rs:255-541 | windows within 256 hops of the root are near enough |
| FocusReplay.FocusRunReplaysIff | crates/xserver-core/src/crossings.rs:255-541 | replaying any sequence of focus changes leaves the root path of the current focus, or nothing for None and PointerRoot, if and only if every single change is near enough; no later change makes up for one that is not |
| FocusReplay.FocusViewsArePaths | crates/xserver-core/src/crossings.rs:255-541 | after any number of its events that fit, the root path of some window, or nothing; all fit when every change is near enough |
| HitTest.WindowInputContains | crates/xserver-core/src/server.rs:1916-1933 | no shape takes input everywhere; otherwise some rectangle must have the point |
| HitTest.HitTestChild | crates/xserver-core/src/server.rs:1893-1914 | computes `HitChild`, whose meaning the next rows give |
| HitTest.HitChildIff | crates/xserver-core/src/server.rs:1893-1914 | a child is hit exactly if it is mapped, both coordinates of the point are among the first 32767 places of its sides, or 65536 places before one, and its input shape, if it has one, covers the offset; the offset is what is reported |
| HitTest.OrdinaryChildHit | crates/xserver-core/src/server.rs:1893-1914 | with sides up to 32767 that end within the i16 range: exactly inside the rectangle where the shape has the point; an unmapped child never |
| HitTest.RectangleLawIff | crates/xserver-core/src/server.rs:1893-1914 | the law of the plain rectangle holds at every point if and only if a side is zero or each side ends within the i16 range and either is at most 32767 long or starts at 1 or later |
| HitTest.HitTestChildren | crates/xserver-core/src/server.rs:1869-1891 | the search from the top of the stack computes `TopHit` |
| HitTest.TopHitIsTopmost | crates/xserver-core/src/server.rs:1869-1891 | `TopHit` is the one topmost child that takes the point in that sense, and None exactly if there is none |
| HitTest.PointerTargetAtInner | crates/xserver-core/src/server.rs:1854-1867 | the recursion ends at the deepest hit, on any table on which it ends |
| HitTest.PointerTargetAt | crates/xserver-core/src/server.rs:1811-1824 | none when the top-level window is missing or unmapped, else the last hit of the descent; in a rooted tree that is `Deepest` |
| HitTest.DescentCorrect | crates/xserver-core/src/server.rs:1811-1891 | each step of the descent goes to the topmost child that takes the point in the sense of `HitChildIff`, at its offset, and the last window has no such child |
| HitTest.PointerPropagationTarget | crates/xserver-core/src/server.rs:1960-1986 | the upward loop of at most 256 windows computes `Propagate` |
| HitTest.PropagateNearest | crates/xserver-core/src/server.rs:1960-1986 | on a rooted tree the loop stops at the nearest ancestor-or-self with a subscriber, if it is among the 256 windows asked |
| HitTest.PropagateNobody | crates/xserver-core/src/server.rs:1960-1986 | without a subscriber on the path nobody gets the event |
| HitTest.HitThenPropagate | crates/xserver-core/src/server.rs:1960-1986 | from the hit of any top-level window: the nearest subscriber on the way up, with the point in the coordinates the descent had there, or above the top-level the original point carried on |
| HitTest.RootGetsOriginalPoint | crates/xserver-core/src/server.rs:1960-1986 | at the root the original point comes back, for every i16 value |
| HitTest.ShapeOpDecidesHit | crates/xserver-core/src/server.rs:1893-1933 | with the result of any shape operation on any lists as input shape, the hit is decided by map state, sides and the boolean operation on the memberships of the offset |
| LockFile.PidRoundTrip | crates/xserver/src/launch.rs:171-224 | a complete lock line has eleven characters and is read back as its writer's pid |
| LockFile.ParsePidIff | crates/xserver/src/launch.rs:171-209 | a lock names a pid exactly if it has eleven characters, the last a newline, and is white space, perhaps a plus sign, digits with that value, white space |
| LockFile.PartialLineIsBogus | crates/xserver/src/launch.rs:171-224 | an incomplete line names nobody, so it must not be linked |
| DisplayLock.Do | crates/xserver/src/launch.rs:140-303 | one system call of one process changes that process's place and no other's; which places a start ends in, and why, is in the DisplayLockRuns rows |
| DisplayLock.LinkKeeps | crates/xserver/src/launch.rs:252-256 | a link succeeds exactly where there is no lock; it then publishes a complete file naming the linker, who holds it; the invariant survives |
| DisplayLock.UnlinkKeeps | crates/xserver/src/launch.rs:268-282 | a reclaim that does not hit a live server's lock keeps the invariant |
| DisplayLock.DropKeeps | crates/xserver/src/launch.rs:140-144 | the lock that a dropped guard removes is the holder's own; the invariant survives |
| DisplayLock.HoldersAreNotJudged | crates/xserver/src/launch.rs:171-209 | an inspection never judges a live holder's lock stale or bogus |
| DisplayLockRuns.StepKeepsInv | crates/xserver/src/launch.rs:140-303 | the invariant over all processes survives every step but a reclaim that hits a live lock |
| DisplayLockRuns.RunSafeIff | crates/xserver/src/launch.rs:214-303 | over every run of any number of starters, with crashes and failing calls: every live holder's lock stays in place if and only if no reclaim unlinks a lock that a live server linked after the reclaimer's check |
| DisplayLockRuns.AtMostOneHolder | crates/xserver/src/launch.rs:214-303 | then at most one live process has the lock and the file names it |
| DisplayLockRuns.LockOutlivesOthersSteps | crates/xserver/src/launch.rs:140-303 | a step of another process leaves a live holder's lock alone if and only if it is not a reclaim that unlinks a lock linked after the reclaimer's check |
| DisplayLockRuns.UndisturbedRunsAreSafe | crates/xserver/src/launch.rs:268-282 | it is enough that no other process changes the lock between a reclaimer's check and its unlink |
| DisplayLockRuns.TwoHolders | crates/xserver/src/launch.rs:268-282 | the window the source comment admits is real: a run after which two processes have the lock |
| DisplayLockRuns.StartFailsForAReason | crates/xserver/src/launch.rs:214-303 | over every run, harmful reclaims included: a start that comes to its end has the guard if and only if, since it began, no lock that it opened named a process that answered the probe, none of its calls failed, and not both of its links found a lock in the way |
| DisplayLockRuns.NeverStuck | crates/xserver/src/launch.rs:214-303 | while the invariant holds, a start always has a next call that need not fail |
| DisplayLockRuns.StartTakesBoundedCalls | crates/xserver/src/launch.rs:214-303 | on every run, harmful reclaims included, a server makes at most 29 calls from its start until it has the lock, has given it back or has given up |
| DisplayLockRuns.ReachableWritersApart | crates/xserver/src/launch.rs:214-303 | the one thing that takes, that temporary files being written exist and are different, holds in every state that any run can reach |
| LockDirectories.LockDirectory.AcquireLock | crates/xserver/src/launch.rs:214-303 | a server starting alone gets the lock exactly when the file does not name a live process; the whole directory afterwards; its calls are a run of the concurrent protocol |
| LockDirectories.LockDirectory.InspectLock | crates/xserver/src/launch.rs:171-209 | reclaimable exactly when the lock does not name a live process |
| ClientIo.ClientState.DrainOutbound | crates/xserver-core/src/core_loop/client_io.rs:102-125 | the loop of chunked writes terminates and computes `Drain` for every socket behaviour |
| ClientIo.ClientState.WriteOrBuffer | crates/xserver-core/src/core_loop/client_io.rs:46-75 | the result and the new queue are those of `Send` |
| ClientIo.ClientState.BufferOrDisconnect | crates/xserver-core/src/core_loop/client_io.rs:79-97 | buffers, or refuses and changes nothing |
| ClientIo.DrainConserves | crates/xserver-core/src/core_loop/client_io.rs:102-125 | wire followed by queue is unchanged on every exit; Done exactly when the queue is empty |
| ClientIo.SendIsAllOrNothing | crates/xserver-core/src/core_loop/client_io.rs:46-97 | a payload joins the stream whole (Done, WouldBlock) or not at all; Done means everything is out; the queue stays within the cap or the payload size |
| ClientIo.ConnectionConserves | crates/xserver-core/src/core_loop/client_io.rs:46-125 | over a whole connection wire followed by queue is the concatenation of the payloads taken, in order, and the queue never exceeds the cap and the biggest payload |
| ClientIo.FlushDelivers | crates/xserver-core/src/core_loop/client_io.rs:102-125 | a flush delivers everything when the socket takes a byte at least as often as there are bytes |
| ClientIo.SlowClientIff | crates/xserver-core/src/core_loop/client_io.rs:79-97 | on a healthy socket a client is cut off if and only if the queue is stuck and the payload would take it past the cap |
| ClientIo.DrainStops | crates/xserver-core/src/core_loop/client_io.rs:102-125 | a flush goes on exactly while the socket takes bytes, and its result says which answer ended it |
| ClientIo.SendEnds | crates/xserver-core/src/core_loop/client_io.rs:46-125 | a payload fails exactly if the socket's last answer is an error; it is refused only for a peer that is gone or takes nothing, or for the cap |
| Glyphsets.GlyphsetTable.CreateGlyphset | crates/xserver-core/src/resources.rs:2083-2092 | the old alias is released without a report, then the new one is counted |
| Glyphsets.GlyphsetTable.FreeGlyphset | crates/xserver-core/src/resources.rs:2094-2101 | reports the glyph set exactly when its last reference goes |
| Glyphsets.GlyphsetTable.ReferenceGlyphset | crates/xserver-core/src/resources.rs:2107-2124 | a further alias, or false and no change |
| Glyphsets.GlyphsetTable.ReleaseHost | crates/xserver-core/src/resources.rs:2126-2137 | counts down, or removes the count and says so |
| Glyphsets.GlyphsetTable.RemoveClient | crates/xserver-core/src/resources.rs:2356-2366 | all aliases of the client go, whatever the order of the hash table |
| Glyphsets.ReleaseAllCounts | crates/xserver-core/src/resources.rs:2356-2366 | dropping several references reports a host once, and only if no reference is left |
| Glyphsets.ServeCounts | crates/xserver-core/src/resources.rs:2083-2137 | after each request every count is the number of aliases; exactly the hosts that lost their last alias are reported, once each, but for those lost by a create over an existing id |
| Glyphsets.ServeTable | crates/xserver-core/src/resources.rs:2083-2124 | which ids name which host glyph set for which client after each request; with a client exactly its own ids go |
| Glyphsets.ReusedIdLoses | crates/xserver-core/src/resources.rs:2083-2092 | from the empty table, one id created for two hosts in turn: the first is out of use and not reported |
| Glyphsets.RunBalances | crates/xserver-core/src/resources.rs:2083-2137 | over every run: uses begun equal reports plus losses plus the use going on |
| Glyphsets.FreshRunsLoseNothing | crates/xserver-core/src/resources.rs:2083-2137 | runs that create fresh ids only lose nothing |
| Glyphsets.FreshStartReportsAll | crates/xserver-core/src/resources.rs:2083-2137 | from the empty table on, such runs report a host as often as a use of it has ended |
| Present.PresentScheduler.Enqueue | crates/xserver-core/src/present_scheduler.rs:185-190 | appends to the queue of the frame's window only |
| Present.PresentScheduler.DrainWindow | crates/xserver-core/src/present_scheduler.rs:196-203 | returns the queue in order and forgets the window |
| Present.PresentScheduler.PickAtVblank | crates/xserver-core/src/present_scheduler.rs:237-268 | computes `Pick` for the window and leaves the other queues alone |
| Present.PresentScheduler.RecordFlipped | crates/xserver-core/src/present_scheduler.rs:273-275 | stores the handle and returns the previous one |
| Present.PickIsLatest | crates/xserver-core/src/present_scheduler.rs:237-268 | skipped, chosen and left make up the queue; the chosen frame is due and no frame left is due |
| Present.PickUnique | crates/xserver-core/src/present_scheduler.rs:237-268 | the chosen frame is the latest one due |
| Present.SatisfiedIff | crates/xserver-core/src/present_scheduler.rs:222-230 | without a divisor a frame is due exactly from its target on; with one exactly at its first match and whole periods later, if the remainder is below the divisor |
| Present.DueIff | crates/xserver-core/src/present_scheduler.rs:222-230 | a frame is ever due if and only if it has no divisor, or its remainder is below the divisor and the first match does not overflow; the first match lies within one period of the target |
| Present.LoneFrameIsShown | crates/xserver-core/src/present_scheduler.rs:237-268 | over every run without further frames, a frame alone in its queue is shown by the first vblank of its window at which it is due, and waits until then |
| Present.RunConserves | crates/xserver-core/src/present_scheduler.rs:185-268 | over every run each frame leaves its window's queue exactly once, in the order queued, or is still queued |
| Present.FlipsConserve | crates/xserver-core/src/present_scheduler.rs:196-275 | each flipped handle is handed back by the next flip, forgotten when its window is drained, or still retained: exactly one of these, in order |
| Present.FlipsReturnIff | crates/xserver-core/src/present_scheduler.rs:196-275 | every handle but the one retained is handed back, once and in order, if and only if the window is never drained while it retains one |
| Present.DestroyedWindowLosesHandle | crates/xserver-core/src/present_scheduler.rs:196-203 | a handle flipped in a window that is then drained is returned by neither call and no longer stored |
| InputThread.LibinputThread.constructor | crates/xserver/src/input_thread.rs:74-84 | cursor in the middle, accumulators at zero |
| InputThread.LibinputThread.DrainAxis | crates/xserver/src/input_thread.rs:169-196 | the subtracting loops give the whole clicks and the remainder of the saturated sum |
| InputThread.LibinputThread.DrainScrollInto | crates/xserver/src/input_thread.rs:169-196 | vertical clicks first, then horizontal ones |
| InputThread.LibinputThread.ProcessEvent | crates/xserver/src/input_thread.rs:325-429 | one event extends the coalesced stream by its expansion |
| InputThread.LibinputThread.ProcessBatch | crates/xserver/src/input_thread.rs:325-429 | what is sent and what stays pending is the coalesced expansion of the batch, cut at a zap |
| InputThread.MotionOnScreen | crates/xserver/src/input_thread.rs:95-136 | a motion reports a pixel of the framebuffer, an absolute one the first and last pixel at its extremes; the accumulators stay |
| InputThread.RelativeMotion | crates/xserver/src/input_thread.rs:117-127 | a relative motion moves the cursor by just that much on each axis, or to the edge, and the pixel it is then in is reported |
| InputThread.AbsoluteMotion | crates/xserver/src/input_thread.rs:128-136 | an absolute motion puts the cursor at that fraction of each side and reports that pixel |
| InputThread.KeysAndButtons | crates/xserver/src/input_thread.rs:95-142 | a press is sent at once as a press and a release as a release; a key as its code plus 8 in eight bits, a button as its code |
| InputThread.CommandsSent | crates/xserver/src/input_thread.rs:325-403 | each hotkey and each device change sends the one message that belongs to it |
| InputThread.CoalesceSplit | crates/xserver/src/input_thread.rs:325-429 | what has settled does not depend on what follows |
| InputThread.BatchSplitIff | crates/xserver/src/input_thread.rs:325-429 | cutting a batch in two gives the same result if and only if there is no zap before the cut or nothing comes of the events behind it |
| InputThread.SplitAtZapDiffers | crates/xserver/src/input_thread.rs:335-344 | a zap and a key press behind it: one batch drops the key, two batches send it |
| InputThread.ZapEndsBatch | crates/xserver/src/input_thread.rs:335-344 | a zap drops the pending motion and all later events of its batch and sends the shutdown |
| Scrolling.CoalesceKeeps | crates/xserver/src/input_thread.rs:411-426 | only motions are dropped, no motion is left in front of another, and coalescing again changes nothing |
| Scrolling.DrainExactIff | crates/xserver/src/input_thread.rs:169-196 | an axis loses nothing if and only if the accumulator does not saturate; less than a click remains |
| Scrolling.WheelClicks | crates/xserver/src/input_thread.rs:169-196 | the wheel sends each press followed by its release, vertical clicks before horizontal ones |
| Scrolling.BatchScrolls | crates/xserver/src/input_thread.rs:169-196 | over a batch, per axis: distance in equals 120 times the net clicks sent plus what is kept, for deltas up to i32::MAX - 119 |
| Scrolling.RunScrolls | crates/xserver/src/input_thread.rs:690-726 | the same over any number of batches of the thread's loop, which sends the pending motion after each |
| Properties.ApplyChange | crates/xserver-core/src/properties.rs:80-116 | BadMatch exactly for a prepend or append to another type or format; else BadAlloc exactly when old and new bytes together exceed the cap; otherwise the bytes joined as asked, under the new type and format |
| Properties.ChangeKeepsAlignment | crates/xserver-core/src/properties.rs:80-116 | whole units stay whole units |
| Properties.GrowBuilds | crates/xserver-core/src/properties.rs:80-116 | any mix of prepends and appends succeeds exactly when the whole fits the cap, and is then the prepends reversed, the old data and the appends |
| Properties.SliceCases | crates/xserver-core/src/properties.rs:133-184 | nothing for a missing property, metadata only for another type, BadValue exactly for an offset behind the data, otherwise a prefix of the bytes from the offset on |
| Properties.RepliesAreWholeUnits | crates/xserver-core/src/properties.rs:133-184 | a reply holds a whole number of units |
| Properties.SliceIsWindow | crates/xserver-core/src/properties.rs:133-184 | the bytes from the offset on, as many whole units as asked for and there; bytes_after counts the rest |
| Properties.ChunksReassemble | crates/xserver-core/src/properties.rs:133-184 | reading in chunks of any size reassembles a property of whole units in a bounded number of requests, and never finishes on any other |
| Properties.AppendsReadBack | crates/xserver-core/src/properties.rs:80-184 | what was appended is what is read |

## Left out

- ShapeCombine.SubtractRegions: when a split overflows, the exact condition speaks of the list of pieces; a condition on the operands alone would have to follow every later cut, which may hide the overflow.
- ShapeCombine.UnionRegions: when a strip to the right overflows, its loss can be hidden by another rectangle, so the exact condition then speaks of the accumulated list and not of the operands alone.
- ShapeCombine.ApplyShapeOp: the same for the two operations.
- Resources.ResourceTable.MapWindow: requires that the recursion over the child lists ends; on a cyclic table the source does not terminate, and on a rooted tree, which every run keeps, it always ends.
- Resources.ResourceTable.PromoteUnviewableDescendants: the same.
- Resources.ResourceTable.MaterializeCowResource: requires that there is no overlay window; the source panics otherwise.
- HitTest.PointerTargetAt: requires that the descent over the child lists ends, as for MapWindow.
- HitTest.PointerTargetAtInner: the same.
- WindowRuns.RunKeepsTreeIff: requests that the dispatcher refuses (an id in use, a parent that does not exist) are not part of a run, and a run goes no further than the first table that is no tree.
- LockFile.PidRoundTrip: white space other than ASCII, which `trim` would also remove, makes a lock bogus here.
- DisplayLockRuns.RunSafeIff: inodes and pids are not reused within a run, and processes that are not servers of this kind do not touch the lock.
- LockDirectories.LockDirectory.AcquireLock: during the acquisition no other process moves and no call fails; interleavings and failures are in DisplayLockRuns.
- Scrolling.RunScrolls: suspending and resuming the thread, which drops a pending motion and sends key releases, is not part of a run.
- InputThread.LibinputThread.ProcessBatch: sending always succeeds; the cursor is computed over reals, without the rounding of doubles, and the hotkey detector is an input that labels each event.
- Properties.SliceIsWindow: stated for properties within the cap, where the byte count fits 32 bits.
- Window attributes that do not bear on the tree (pixels, cursors, colormaps, visuals, event masks) and all other resources.
- Restacking or reparenting the overlay window itself, as far as its place on top is concerned.
- Memory sharing of the tables: windows are values in a map, so aliasing of a record is not expressible.
- Present paths (copy, flip, direct scanout) and fences, and draining by client, which is a stub in the source.
- Sockets, file descriptors, clocks, signals, epoll and libinput handles; a socket's answers, a live-pid probe and a timestamp are inputs.
- Event encoding, request dispatch, extension tables, RANDR, back ends and argument parsing.
