# Weston demo clients: a verified model

Weston ships a set of Wayland demo clients. Under their drawing code are algorithms and
state machines that stand on their own; this project models eleven of them in Dafny and
proves what they are for. Code that changes things step by step is modelled by methods
and classes, each proved against a function of the old state; what the clients promise is
then proved about those functions, for every input, every run or every reachable state.

| client | modules | what is proved |
|---|---|---|
| `clients/traceinfo.c` | `TraceInfo`, `TraceTimes`, `TraceReporter` | the tree rebuilt online from an indented post-order log is the tree that was listed; times telescope |
| `clients/smoke.c` | `Smoke`, `SmokeFlow`, `SmokeSolver`, `RowMajor` | zero borders, a maximum principle and geometric decay over every run; what a projection leaves of the outflow |
| `clients/simple-damage.c` | `Reflection`, `SimpleDamage`, `OutputTransforms`, `DamageWindow` | the reflection loop is a triangle wave; painted pixels stay in the buffer and the damage; transforms turn the drawing with the buffer |
| `clients/es2gears.c` | `Gears`, `GearTurns`, `GearFaces`, `GearSurface`, `GearStrips` | when `invert` inverts, rigid motions are closed under the library, rotations follow Rodrigues' formula, every gear drawn is a closed surface |
| `clients/nested.c` | `Nested`, `NestedFrames` | busy counts, destroy listeners and releases; each frame callback is told at most once |
| `clients/editor.c` | `Utf8`, `TextEntry`, `TextEntryRuns`, `TextEntrySerials`, `TextEntrySelection`, `TextEntryEdits`, `TextEntryTold`, `Editor` | when cursor and anchor stay between characters and assertions hold, exactly; stale input is dropped, edits undo one another |
| `clients/keyboard.c` | `KeyboardText`, `KeyboardTyping`, `KeyboardLayout` | the shadow copy follows the editor, and the text is what was typed; hit testing inverts drawing |
| `clients/screenshot.c` | `Screenshot` | outputs are tiled without overlap and all their pixels are shown |
| `clients/simple-dmabuf-egl.c` | `DmabufEgl` | buffer, release object and fence ownership |
| `clients/simple-im.c` | `SimpleIm`, `SimpleImKeys` | the compose-key machine and its table |
| `clients/resizor.c` | `Resizor` | the springs come to rest, after a key press in exactly so many frames |

`Numbers` holds the least, the greatest and the absolute value.

Floating-point numbers are reals; a `uint32_t` that may wrap is taken modulo 2^32.
Calls into Wayland, EGL, GL, Cairo, Pango and xkbcommon are left out or become
parameters: random numbers, clocks, sines and cosines, what a query or an allocation
answered, whether a key has text.

## Where the code falls short

Some properties one would expect do not hold of the code. The code is modelled as it is;
each of these is proved with its exact condition.

- The reflection loop may bounce off both walls in one turn but flips the velocity once:
  the direction is right exactly when the number of double reflections is even
  (`Reflection.VelocityDirectionIff`). It does not end at all in an arena without width,
  unless the ball is already on its one point (`Reflection.TerminatesIff`).
- `invert` documents that it handles pure translation-rotation matrices; it gives a
  two-sided inverse for exactly the matrices with an orthonormal block over (0, 0, 0, 1),
  reflections included, and for orthonormal blocks without a translation over
  (0, 0, 0, -1) (`Gears.InverseIff`).
- A deletion announced by an input method may be committed after the text has changed.
  It fails an assertion exactly when the text became too short for it
  (`TextEntryRuns.StaleDeletionAbortsIff`, `TextEntryEdits.StaleDeletionAborts`).
  Otherwise it leaves well-formed text with the cursor between characters exactly when
  the announced bytes still are whole characters, or what is left of two characters that
  are cut through joins and the cursor was not between the cuts
  (`TextEntryRuns.CommitSoundIff`, `TextEntryEdits.StaleDeletionSplits`). Over whole runs
  this is the only way the invariant is lost (`TextEntryRuns.RunGoodIff`).
- The editor sends its state before a cursor key moves the cursor, or not at all. So its
  last state synchronises a keyboard only when the cursor has not been moved since
  (`KeyboardText.RefreshSyncsIff`, `TextEntryTold.MovesUntold`).
- An input method event from before a reset is dropped only while fewer than 2^32 updates
  have been made since it was sent; counting from the reset is not enough
  (`TextEntrySerials.StaleTakenIff`, `TextEntrySerials.StaleTakenAfterWrap`).
- The keyboard moves the text behind a deleted character without its terminator: its
  shadow is exact exactly when the cursor was at the end (`KeyboardText.DeletedExactIff`).
  Its Backspace takes one byte, not one character, off the preedit
  (`KeyboardText.EraseLeavesTextIff`).
- The compose table is not sorted although it is searched by halving: over all runs,
  exactly the entries other than those for s s and a a are ever composed
  (`SimpleIm.ComposedIff`); no keys whatever lead the search to these two
  (`SimpleIm.UnreachableEntries`).
- The comment in `clients/traceinfo.c:119-134` assumes that indentation shows which
  events belong together; the handler rebuilds a tree exactly for logs whose drops return
  to the level beneath and that end where they began
  (`TraceInfo.ConsistentIffListing`), and overwrites its root when the indentation falls
  below where it began (`TraceInfo.RootUntouchedIff`).

## Model

| member | source | states |
|---|---|---|
| TraceInfo.IndentationIff | clients/traceinfo.c:145-148 | the level of a message is the length of its longest white-space prefix, characterised in both directions |
| TraceInfo.RoundTrip | clients/traceinfo.c:135-215 | folding the handler over the post-order listing of any forest whose sibling lists start with a leaf rebuilds exactly that forest, with only the implicit root open |
| TraceInfo.ConsistentIffListing | clients/traceinfo.c:119-215 | a log is the listing of such a forest if and only if its drops return to the level directly beneath and it ends where it began; and the forest is unique |
| TraceInfo.ArrivalOrder | clients/traceinfo.c:160-215 | for any log that leaves the root alone, the partial trees hold every event once, in arrival order |
| TraceInfo.ClosedListsLog | clients/traceinfo.c:239-258 | the forest below the root lists the log, followed by one empty event for each rise that no drop has matched |
| TraceInfo.RootUntouchedIff | clients/traceinfo.c:226-248 | the end-of-trace assertion on the root's level holds if and only if no prefix of the log has more drops than rises |
| TraceTimes.RowsReportLog | clients/traceinfo.c:91-117 | the printed rows are the log in arrival order; each self time is measured from the event logged just before, each time with children from the one before its subtree |
| TraceTimes.SelfTimesTelescope | clients/traceinfo.c:112-114 | the self times of any stretch of rows add up to the time between its ends |
| TraceTimes.TimesAreConserved | clients/traceinfo.c:91-117 | every time with children is the sum of the self times of its subtree, every total the sum of the self times so far |
| TraceReporter.CountIndentation | clients/traceinfo.c:145-148 | the counting loop returns the indentation |
| TraceReporter.Reporter.Tracepoint | clients/traceinfo.c:135-215 | one message keeps the linked nodes, parents and levels a representation of the trees folded from the log, or overwrites the root when it falls below the first message's indentation |
| TraceReporter.OnlyRootIsTop | clients/traceinfo.c:239-248 | a node has no parent if and only if it is the implicit root, and level -1 if and only if it is a parent still open |
| TraceReporter.Reporter.PrintEvent | clients/traceinfo.c:91-117 | walking the linked children backwards prints the rows of the tree the node stands for, open parents among them |
| TraceReporter.Reporter.TraceEnd | clients/traceinfo.c:225-258 | climbing reaches the root, whose assertion holds if and only if the log leaves the root alone; the rows printed are those of a forest whose listing is the log, followed by an empty event for each parent still open |
| Smoke.Diffuse | clients/smoke.c:47-67 | five in-place sweeps leave a grid in which each interior cell is relaxed from cells already and not yet visited, and the rest is unchanged |
| Smoke.DiffuseCellBound | clients/smoke.c:55-66 | by induction in sweep order every relaxed cell lies between 0 and 0.995 of the bound on both grids |
| Smoke.DiffuseContracts | clients/smoke.c:47-67 | a diffusion keeps every bound and after at least one sweep shrinks it to 0.995 of itself |
| Smoke.Advect | clients/smoke.c:69-105 | every access of the backtracing loop is in range, and the grid becomes the interpolation of the source along the velocity |
| Smoke.AdvectedWithin | clients/smoke.c:69-105 | advection makes no value outside the bounds of its source, whatever the velocity |
| Smoke.Project | clients/smoke.c:107-145 | the projection computes divergence, pressure by five relaxations and the gradient removed, in place in the grids given; the pressure's border starts as the memset of a quarter of its bytes leaves it |
| Smoke.ProjectedKeepsBorder | clients/smoke.c:107-145 | projecting grids with zero borders leaves zero borders in all four grids |
| SmokeFlow.OutflowLeft | clients/smoke.c:113-144 | a projection takes from the outflow of every cell with interior neighbours half the width times the second differences, over two cells, of the pressure it has found |
| SmokeFlow.NothingFlowsOut | clients/smoke.c:113-144 | where that pressure solves its equation, and bends over two cells as it does over one, nothing flows out any more |
| SmokeFlow.RelaxedIff | clients/smoke.c:126-137 | a relaxing sweep leaves the pressure alone if and only if it solves its equation in every interior cell |
| SmokeFlow.RelaxingNoFarther | clients/smoke.c:126-137 | no number of sweeps takes the pressure farther from a solution |
| SmokeFlow.AdvectsWholeCells | clients/smoke.c:69-105 | a velocity of whole cells carries the value of the cell it comes from |
| SmokeFlow.AdvectsEven | clients/smoke.c:69-105 | a field that rises evenly is carried exactly, by any velocity, up to half a cell off the border |
| SmokeSolver.FrameCarriesDensity | clients/smoke.c:196-199 | after a frame a density is the diffused one of the cell that the new velocity, in whole cells, comes from |
| SmokeSolver.StirredNear | clients/smoke.c:210-238 | a motion adds 1 and a kick of 256 to every cell within four of the pointer, and nothing to cells away from it |
| SmokeSolver.FrameKeepsValid | clients/smoke.c:174-208 | a frame keeps the borders of all six grids zero and the densities non-negative |
| SmokeSolver.DensityContracts | clients/smoke.c:174-208 | a frame shrinks any bound on both density grids to 0.995 of itself |
| SmokeSolver.DensityDecays | clients/smoke.c:174-208 | over n frames without input the density decays to 0.995^n of its bound |
| SmokeSolver.StirredKeepsValid | clients/smoke.c:210-240 | a pointer motion touches interior cells only and raises a density bound by at most 1 |
| SmokeSolver.ReachableValid | clients/smoke.c:174-240 | in every run of frames and motions all borders stay zero and the density stays within the bound the events determine |
| SmokeSolver.SteadyDensity | clients/smoke.c:174-240 | in every run stirred at most once a frame no density exceeds 201, nor 200 right after a frame |
| SmokeSolver.Solver.Redraw | clients/smoke.c:174-208 | the redraw sequence on the arrays is a frame, keeps the invariant and shrinks every density bound |
| SmokeSolver.Solver.Motion | clients/smoke.c:210-240 | the motion loops change exactly the cells under the brush, each once |
| Reflection.TurnApproaches | clients/simple-damage.c:272-279 | a turn outside the arena brings the point at least an arena width closer, or inside |
| Reflection.TerminatesIff | clients/simple-damage.c:271-291 | the loop ends if and only if the arena has positive width or is a point the ball lies on |
| Reflection.SettleIsTriangleWave | clients/simple-damage.c:271-291 | the loop ends at the triangle-wave fold of the unreflected position |
| Reflection.DoubleTurnsCount | clients/simple-damage.c:272-279 | how often a turn reflects at both walls, in closed form |
| Reflection.VelocityDirectionIff | clients/simple-damage.c:272-279 | the velocity's direction agrees with the path if and only if that number is even |
| Reflection.VelocityDirectionCounterexample | clients/simple-damage.c:272-279 | a ball one width below the arena comes back moving the wrong way |
| Reflection.Reflect | clients/simple-damage.c:271-291 | the loop as written returns the triangle wave and keeps the speed |
| SimpleDamage.PaintBox | clients/simple-damage.c:463-472 | exactly the pixels of the box are coloured |
| SimpleDamage.PaintCircle | clients/simple-damage.c:474-484 | exactly the pixels whose centres lie in the circle are coloured, in the buffer or not at all |
| SimpleDamage.RotationKeepsDimensions | clients/simple-damage.c:557-560 | rotating the transform keeps the buffer's dimensions |
| SimpleDamage.RegionInBuffer | clients/simple-damage.c:562-660 | under all eight transforms, with or without viewport, the drawn region and its border lie in the buffer |
| SimpleDamage.BallInRegion | clients/simple-damage.c:486-538 | a ball in the arena is drawn clear of the region's edge under every transform |
| SimpleDamage.DamageCoversDisc | clients/simple-damage.c:486-538 | in damage-buffer mode every pixel of the ball lies in the rectangle posted for it, and in the buffer |
| OutputTransforms.NextTurnsPoint | clients/simple-damage.c:486-528 | the next transform takes the ball where a quarter turn of its box takes it |
| OutputTransforms.FlippedMirrorsPoint | clients/simple-damage.c:486-528 | the flipped transforms are the others for the mirrored ball |
| OutputTransforms.NextTurnsOffset | clients/simple-damage.c:600-640 | the drawn region is turned in the same way |
| OutputTransforms.FlippedMirrorsOffset | clients/simple-damage.c:600-640 | and mirrored in the same way |
| OutputTransforms.NextTurnsCentre | clients/simple-damage.c:486-640 | so the disc of the next transform is the disc turned with the buffer |
| OutputTransforms.FlippedMirrorsCentre | clients/simple-damage.c:486-640 | and the flipped disc is the upright one mirrored with it |
| OutputTransforms.UprightCentre | clients/simple-damage.c:486-640 | the upright disc is at the scaled place of the ball, moved with the drawn region |
| OutputTransforms.RotatedTurns | clients/simple-damage.c:557-560 | rotating the damage is a half turn of the buffer, or a mirroring from one half of the transforms to the other |
| OutputTransforms.RotationCycles | clients/simple-damage.c:557-560 | four rotations, and not fewer, lead back |
| OutputTransforms.SurfaceDamageCovers | clients/simple-damage.c:666-708 | without damage-buffer mode, under every transform, the rectangle holds every point of the surface that is drawn at the centre of a pixel of the ball |
| DamageWindow.SecondMoves | clients/simple-damage.c:264-283 | in 1000 milliseconds, also over the wrap of the clock, a coordinate changes by its velocity |
| DamageWindow.Window.AdvanceGame | clients/simple-damage.c:252-293 | the ball moves by velocity times elapsed time, folded into the arena, and its velocity turns with every turn of the loop; the first frame only sets the clock |
| DamageWindow.Window.NextBuffer | clients/simple-damage.c:420-460 | the first free buffer, of the first dimensions, is returned unless both are busy |
| DamageWindow.Window.PaintBackdrop | clients/simple-damage.c:587-660 | the backdrop's boxes are painted in order without leaving the buffer |
| DamageWindow.BackdropCovers | clients/simple-damage.c:587-660 | the boxes of the backdrop cover the buffer: every pixel's colour is determined by its place, whatever was there before |
| DamageWindow.Shown | clients/simple-damage.c:587-677 | a finished frame shows the ball at its place over border, background and, with a viewport, red |
| DamageWindow.FrameIsDamaged | clients/simple-damage.c:659-708 | in damage-buffer mode every pixel in which a frame differs from the frame before it, under one transform, lies in one of the two rectangles posted |
| DamageWindow.Window.Redraw | clients/simple-damage.c:542-733 | a frame draws every pixel of the scene of the new position into the first free buffer and not into the other, posts damage for old and new place, and advances ball, velocity, clock and transform |
| Gears.ProductEntry | clients/es2gears.c:389-406 | each entry of the product is a row times a column, in column-major order |
| Gears.ProductAssociates | clients/es2gears.c:389-406 | the product is associative |
| Gears.IdentityIsNeutral | clients/es2gears.c:455-466 | the identity is neutral on both sides |
| Gears.RotationRigid | clients/es2gears.c:417-431 | about a unit axis, with s*s + c*c = 1, a rotation has orthonormal rows and columns |
| Gears.ProductRigid | clients/es2gears.c:389-406 | products of rigid matrices are rigid |
| Gears.BuiltRigid | clients/es2gears.c:389-466 | every matrix built from the identity by any run of translations and proper rotations is rigid |
| Gears.BuiltOfConcatenation | clients/es2gears.c:389-466 | one run after another builds the product of what they build |
| Gears.InverseIff | clients/es2gears.c:485-510 | what invert computes is a two-sided inverse if and only if its block is orthonormal and its bottom row (0, 0, 0, 1), or (0, 0, 0, -1) without a translation |
| Gears.BuiltInverse | clients/es2gears.c:485-510 | every matrix built by translating and rotating is inverted |
| Gears.NormalMatrixKeepsBlock | clients/es2gears.c:576-583 | the transposed inverse has the rotation block of the original, for any matrix |
| Gears.ModelViewInverse | clients/es2gears.c:558-583 | a gear drawn in a rigidly placed scene has a rigid, correctly inverted model view |
| GearTurns.RotationIsRodrigues | clients/es2gears.c:417-431 | for any axis n, s and c a rotation takes v to c v + (1 - c)(n . v) n + s (n x v) |
| GearTurns.AxisStays | clients/es2gears.c:417-431 | a unit axis stays |
| GearTurns.PerpendicularTurns | clients/es2gears.c:417-431 | what is at right angles to the axis turns towards the third direction |
| GearTurns.TranslationMoves | clients/es2gears.c:442-447 | a translation moves places and leaves directions |
| GearTurns.GearSpinsInPlace | clients/es2gears.c:566-569 | a gear turns about its own axis and is then put in its place |
| GearTurns.CentreStays | clients/es2gears.c:566-569 | at every angle the gear's centre is where it was put |
| Gears.Multiply | clients/es2gears.c:389-406 | the loops through a temporary compute the matrix product, also when both arrays are one |
| Gears.Rotate | clients/es2gears.c:417-431 | the array is multiplied by the rotation |
| Gears.Translate | clients/es2gears.c:442-447 | the array is multiplied by the translation |
| Gears.Identity | clients/es2gears.c:455-466 | the array becomes the identity |
| Gears.Transpose | clients/es2gears.c:473-483 | the array is transposed |
| Gears.Invert | clients/es2gears.c:492-510 | the in-place sequence computes the inverse function |
| GearTurns.DrawGear | clients/es2gears.c:558-584 | the one matrix given to the shader shows every point of the gear spun, put in its place, seen and projected; the other is the normal matrix |
| GearFaces.ToothCircles | clients/es2gears.c:258-321 | the tips of the teeth are half their depth outside the gear's circle, the roots as much inside, and the hole is round |
| GearFaces.RimGoesRound | clients/es2gears.c:274-321 | along the rim of a tooth the directions follow one another |
| GearFaces.AllFacesSize | clients/es2gears.c:89-90 | seven strips and thirty-four vertices a tooth are exactly what the faces need |
| GearStrips.StripShowsFace | clients/es2gears.c:289-297 | the vertices a strip names are its face |
| GearFaces.QuadNormal | clients/es2gears.c:299-305 | a quad's normal is perpendicular to its edge, as long, and to the right of it |
| GearFaces.FlatNormals | clients/es2gears.c:323-350 | the normals of front and back point away from the middle of the gear |
| GearSurface.OutlineIff | clients/es2gears.c:323-333 | a side of the front strip's triangles is walked in one direction only if and only if it is on the outline of seven sides |
| GearSurface.OutlineIsWalled | clients/es2gears.c:323-368 | each of these, but for the two towards other teeth, is the front of a wall, and every wall's front is one |
| GearSurface.ToothNet | clients/es2gears.c:323-368 | front, back and walls of a tooth leave open just the sides towards the teeth before and after it |
| GearSurface.RingIsClosed | clients/es2gears.c:272-369 | any ring of teeth that meet is closed: every edge is walked as often in one direction as in the other |
| GearSurface.GearIsClosed | clients/es2gears.c:272-369 | so is every gear |
| GearStrips.Gear.AddStrip | clients/es2gears.c:287-297 | a strip's vertices are appended, and the strip covers just them |
| GearStrips.CreateGear | clients/es2gears.c:240-379 | both arrays are filled exactly, without overrun, with the faces of all teeth in order, and the triangles drawn from them are a closed surface |
| Nested.OneReturnPerPeriod | clients/nested.c:226-233 | in any history of counts the returns to 0 are the departures, less one while busy |
| Nested.Nested.BusyMeansReferenced | clients/nested.c:221-247 | in every valid state the busy count is the number of references naming the buffer, and one release was sent per finished busy period |
| Nested.NestedBuffer.Drop | clients/nested.c:226-234 | one reference less, with a release exactly when it was the last |
| Nested.Nested.Reference | clients/nested.c:221-247 | a reference moves from one buffer to another: the old one loses it, the new one gains it, nothing happens when they are the same |
| Nested.Nested.DestroyBuffer | clients/nested.c:169-181 | destroying a buffer clears every reference and pending attachment to it and no other |
| Nested.Nested.Attach | clients/nested.c:421-468 | an attached buffer becomes pending on the surface, with its destruction watched; one of unknown format is refused |
| Nested.Nested.Commit | clients/nested.c:549-572 | a newly attached buffer is held by the surface's or the buffer's own reference, all other references stay, and nothing is pending afterwards; a failed image attaches nothing |
| Nested.Nested.BlitAttach | clients/nested.c:917-942 | the surface's reference moves to the buffer |
| Nested.Nested.SubsurfaceAttach | clients/nested.c:1041-1072 | the buffer's own reference holds it while the parent has it |
| Nested.Nested.ParentRelease | clients/nested.c:1011-1017 | the parent's release drops that reference |
| Nested.Nested.DestroySurface | clients/nested.c:391-413 | destroying a surface drops its reference and forgets it |
| NestedFrames.RunConserves | clients/nested.c:249-264 | every callback requested is pending, committed, done or dropped, exactly as often as requested |
| NestedFrames.DoneAtMostOnce | clients/nested.c:249-264 | a callback requested once is done at most once, and never also waiting or dropped |
| NestedFrames.CommitThenFlush | clients/nested.c:549-572 | after a commit and a flush nothing waits, and the newest commit's callbacks were told first |
| NestedFrames.SurfaceFrames.FlushFrames | clients/nested.c:249-264 | each committed callback is told once, in list order, and removed |
| NestedFrames.SurfaceFrames.CommitFrames | clients/nested.c:567-571 | the pending list is put in front of the committed one |
| NestedFrames.SurfaceFrames.RequestFrame | clients/nested.c:511-531 | a callback is added at the end of the pending list |
| NestedFrames.SurfaceFrames.DestroyFrames | clients/nested.c:391-405 | a surface's callbacks are dropped without being told |
| Utf8.BoundaryIff | clients/editor.c:97-121 | in well-formed UTF-8 the places between characters are exactly those not before a continuation byte |
| Utf8.NextPassesCharacter | clients/editor.c:115-121 | one step forward passes exactly one character |
| Utf8.NextThenPrev | clients/editor.c:97-121 | one step back undoes a step forward |
| Utf8.PrevThenNext | clients/editor.c:97-121 | one step forward undoes a step back |
| Utf8.CutIff | clients/editor.c:1083-1100 | cutting bytes out leaves well-formed text if and only if they are whole characters, or two characters that are cut through join to one |
| Utf8.FindEndChar | clients/editor.c:97-103 | the loop finds the next place that does not continue a character |
| Utf8.FindPrevChar | clients/editor.c:105-113 | the loop finds the last such place before the cursor, or none |
| TextEntryRuns.RunGoodIff | clients/editor.c:188-304 | in a run of any plain events cursor and anchor stay between characters of well-formed text and no assertion fails, at any point, if and only if every deletion fits when it is carried out |
| TextEntryRuns.StepGoodIff | clients/editor.c:389-474 | the same for each single event of the input method, the keyboard and the clipboard |
| TextEntryRuns.CommitSoundIff | clients/editor.c:188-225 | committing an announced deletion within the text keeps the invariant if and only if its bytes are whole characters, or two characters cut through join and the cursor is not between |
| TextEntryRuns.RunGood | clients/editor.c:188-304 | so in every admissible run the invariant holds and no assertion fails |
| TextEntryRuns.CreatedRunGood | clients/editor.c:188-304 | from an entry's creation on as well |
| TextEntryRuns.InsertAbortsIff | clients/editor.c:829-830 | the layout assertion after an insertion holds if and only if the cursor offset leads into the text |
| TextEntryRuns.StaleDeletionAbortsIff | clients/editor.c:1079-1081 | committing an announced deletion fails an assertion if and only if it reaches past the text |
| TextEntryRuns.DeleteOutcome | clients/editor.c:1073-1100 | a deletion within the text removes just its bytes and moves the cursor by what was before it |
| TextEntryEdits.StaleDeletionAborts | clients/editor.c:281-304 | a run in which a key shortens the text between announcement and commit ends in a failed assertion |
| TextEntryEdits.StaleDeletionSplits | clients/editor.c:281-304 | a run in which a key types in front of the text between announcement and commit, and half a character is left |
| TextEntrySerials.PassesIff | clients/editor.c:196-200 | an event passes the serial test if and only if its serial is that of a state since the last reset |
| TextEntrySerials.StaleTakenIff | clients/editor.c:196-200 | an event from before the reset passes if and only if its age modulo 2^32 is at most the age of the reset |
| TextEntrySerials.StaleDropped | clients/editor.c:249-254 | with fewer than 2^32 updates since it was sent such an event changes no text |
| TextEntrySerials.StaleDroppedInRun | clients/editor.c:959-976 | the same after any run of events that follows a reset |
| TextEntrySerials.StaleTakenAfterWrap | clients/editor.c:196-200 | a run that wraps the serials, after which an event from before the reset is taken |
| TextEntrySelection.CommitReplacesSelection | clients/editor.c:214-220 | a commit puts its text in place of the selection, and cursor and anchor where its offsets say |
| TextEntrySelection.PlainCommitReplacesSelection | clients/editor.c:214-220 | without offsets the cursor is behind the text and nothing is selected |
| TextEntrySelection.SurroundingReplaced | clients/editor.c:208-220 | bytes announced around the cursor are replaced by the committed text, whatever is selected |
| TextEntrySelection.AnnouncementTakenIff | clients/editor.c:281-304 | an announced deletion is taken up if and only if it lies within the text; otherwise the commit after it is dropped |
| TextEntrySelection.PreeditReplacesSelection | clients/editor.c:262-272 | a preedit takes the selection out and is shown in its place |
| TextEntrySelection.PreeditThenReset | clients/editor.c:959-976 | the next reset puts the text it stands for there |
| TextEntrySelection.ResetOutcome | clients/editor.c:959-976 | a reset puts the preedit's commit text in at the cursor |
| TextEntrySelection.KeysPutIn | clients/editor.c:914-942 | a paste, a symbol and a key put their text in at the cursor, and replace no selection |
| TextEntrySelection.UpAndDownMove | clients/editor.c:123-162 | Up leads to the last carriage return before the cursor, Down behind the first from it on |
| TextEntrySelection.ShiftSelects | clients/editor.c:1439-1475 | Shift leaves the anchor behind; without it nothing is selected, but Left and Right keep a selection where they find no character |
| TextEntryEdits.InsertThenBackspace | clients/editor.c:914-942 | inserting any one character and pressing Backspace restores text and cursor |
| TextEntryEdits.CutThenPaste | clients/editor.c:600-652 | cutting and pasting restores the text, with the cursor at the selection's end |
| TextEntryEdits.BackspacesAgree | clients/editor.c:439-458 | both Backspaces come to the same and delete the character before the cursor |
| TextEntryEdits.DeleteIsRightThenBackspace | clients/editor.c:1431-1438 | the Delete key does what Right and Backspace do |
| TextEntryEdits.LeftAndRight | clients/editor.c:1439-1460 | Left undoes Right and Right undoes Left |
| TextEntryTold.RunTold | clients/editor.c:887-912 | in every run the text sent last is the editor's text |
| TextEntryTold.MovesUntold | clients/editor.c:1439-1460 | a cursor key sends no state, or the state before it moves the cursor |
| Editor.FindUp | clients/editor.c:123-144 | the walk over carriage returns finds the last one before the cursor |
| Editor.FindDown | clients/editor.c:146-162 | the walk finds the place after the first one from the cursor on |
| Editor.TextEntry.InsertAtCursor | clients/editor.c:914-942 | the handler inserts as the value model does, or fails its assertion where it does |
| Editor.TextEntry.DeleteText | clients/editor.c:1073-1100 | the same for deletion, with its three assertions |
| Editor.TextEntry.TakeCommitString | clients/editor.c:188-225 | the commit handler, with serial test, announced deletion, selection, offsets and the pending state cleared |
| Editor.TextEntry.TakePreeditString | clients/editor.c:240-279 | the preedit handler |
| Editor.TextEntry.TakeDeleteSurrounding | clients/editor.c:281-304 | the announcement of a deletion, with its validity test |
| Editor.TextEntry.CommitPreeditAndReset | clients/editor.c:959-976 | the preedit is inserted, the serial counted up and remembered as the reset |
| Editor.TextEntry.BackspaceByKey | clients/editor.c:1422-1430 | the Backspace key |
| Editor.TextEntry.BackspaceByKeysym | clients/editor.c:439-458 | the input method's Backspace |
| Editor.TextEntry.CopyOrCut | clients/editor.c:620-652 | the selection is returned, and deleted when cut |
| KeyboardText.CommitKeepsSync | clients/keyboard.c:425-454 | from a synchronised state a commit leaves shadow and editor with the same text and cursor |
| KeyboardText.DeleteIsBackspace | clients/keyboard.c:487-511 | the deletion request and its empty commit do to the editor what its own Backspace does, also when it shows an empty preedit, and the cursors agree |
| KeyboardText.DeletionKeepsSyncIff | clients/keyboard.c:513-517 | shadow and editor stay synchronised if and only if the cursor was at the end |
| KeyboardText.DeletedExactIff | clients/keyboard.c:513-517 | the shadow loses just the character if and only if the cursor was at the end |
| KeyboardText.TypingStaysSynced | clients/keyboard.c:535-588 | any run of letters, spaces and backspaces at the end of the text is a run of the editor that keeps its text equal to the shadow and in which its assertions hold |
| KeyboardTyping.TypingWrites | clients/keyboard.c:535-588 | after any run of presses at the end, the editor's text followed by the preedit is what the keys say |
| KeyboardText.EraseLeavesTextIff | clients/keyboard.c:566-574 | what Backspace leaves of a preedit is well-formed if and only if its last character has one byte |
| KeyboardText.RefreshSyncsIff | clients/keyboard.c:755-768 | after any run of the editor its last state synchronises a keyboard if and only if the cursor has not moved since and nothing is selected or announced |
| KeyboardText.RefreshThenCommit | clients/keyboard.c:425-454 | then what is committed next is put in at the editor's cursor, and both sides agree |
| KeyboardText.VirtualKeyboard.CommitPreedit | clients/keyboard.c:425-454 | the requests sent and the new shadow |
| KeyboardText.VirtualKeyboard.DeleteBeforeCursor | clients/keyboard.c:487-518 | the same for deletion |
| KeyboardText.VirtualKeyboard.Press | clients/keyboard.c:535-588 | the same for the letter, space and backspace keys |
| KeyboardLayout.HitInvertsDrawIff | clients/keyboard.c:389-398 | every point of every key hits that key if and only if no row but the last key's is filled past its columns |
| KeyboardLayout.TablesFill | clients/keyboard.c:101-243 | the three layouts fill their rows exactly |
| KeyboardLayout.DrawKeys | clients/keyboard.c:389-398 | the row and column walk of drawing |
| KeyboardLayout.KeyAt | clients/keyboard.c:689-697 | subtracting widths finds the key that covers the point's cell, if there is one; a point before the first cell hits the first key |
| KeyboardLayout.FindDrawn | clients/keyboard.c:719-728 | in such a layout the hit test returns key k at every point drawn for k |
| Screenshot.Disjoint | clients/screenshot.c:252-256 | no point belongs to two outputs |
| Screenshot.ImageSize | clients/screenshot.c:257-277 | the image is as wide as all outputs together and is empty only for an empty list |
| Screenshot.BoundsLeast | clients/screenshot.c:257-264 | the bounds are the least box around all outputs |
| Screenshot.EveryPixelShown | clients/screenshot.c:214-229 | every pixel of every output is in the finished image at the output's offset, within range and not drawn over |
| Screenshot.PaintedKeeps | clients/screenshot.c:214-229 | pixels outside all outputs are left as they were |
| Screenshot.SetBufferSize | clients/screenshot.c:247-277 | offsets count from the end of the list, and the bounds follow from them |
| Screenshot.WriteOutput | clients/screenshot.c:214-229 | the row copies draw one output and nothing else, without leaving the image |
| Screenshot.WriteImage | clients/screenshot.c:199-231 | the copy loops draw all outputs in order |
| DmabufEgl.RunKeeps | clients/simple-dmabuf-egl.c:905-1015 | in every run a buffer is busy if and only if it holds a release object, a stored fence means it is free, and each received fence was given to EGL once or is stored |
| DmabufEgl.AbortsIff | clients/simple-dmabuf-egl.c:905-985 | the release handlers' assertions hold; the program aborts if and only if it must draw with every buffer busy |
| DmabufEgl.NoFenceLeft | clients/simple-dmabuf-egl.c:174-206 | when the buffers are freed every fence received was given to EGL or closed exactly once |
| DmabufEgl.NextBuffer | clients/simple-dmabuf-egl.c:776-786 | the first buffer that is not busy |
| DmabufEgl.Window.Redraw | clients/simple-dmabuf-egl.c:969-1015 | a free buffer is drawn after its fence was handed over, and gets a release object |
| DmabufEgl.Window.TakeFencedRelease | clients/simple-dmabuf-egl.c:905-919 | the buffer is free and stores the fence, the assertions hold |
| DmabufEgl.Window.TakeImmediateRelease | clients/simple-dmabuf-egl.c:921-932 | the buffer is free without a fence, the assertions hold |
| DmabufEgl.Window.Destroy | clients/simple-dmabuf-egl.c:622-625 | freeing the buffers closes the stored fences |
| DmabufEgl.Display.UpdateSupportedModifiers | clients/simple-dmabuf-egl.c:1277-1345 | unsupported modifiers are replaced in place, all others kept; a failed query changes nothing |
| DmabufEgl.KeptIsIntersection | clients/simple-dmabuf-egl.c:1317-1336 | what remains is the intersection |
| SimpleIm.CompareIff | clients/simple-im.c:360-377 | keys compare equal to an entry if and only if the entry starts with them |
| SimpleIm.CompareKeys | clients/simple-im.c:360-377 | the comparing loop |
| SimpleIm.SearchIff | clients/simple-im.c:417-419 | where the table is sorted, halving finds an entry if and only if one starts with the keys |
| SimpleIm.RunInv | clients/simple-im.c:387-467 | in every run the recorded keys lead on to some entry, and every episode has one commit, was cut short or is going on |
| SimpleIm.BufferSuffices | clients/simple-im.c:411-415 | so the four places of the buffer always hold the recorded keys, the next one and the final 0 |
| SimpleIm.ThirdKeyEnds | clients/simple-im.c:411-467 | an episode ends at the third symbol at the latest |
| SimpleIm.TableRuns | clients/simple-im.c:81-101 | the real table's runs keep all this |
| SimpleIm.SortedComposes | clients/simple-im.c:387-467 | in a sorted table where no entry starts another, an entry's keys compose it and none before the last ends the episode |
| SimpleIm.InOrderComposes | clients/simple-im.c:81-101 | the first fifteen entries of the real table are composed by their keys |
| SimpleIm.AeComposes | clients/simple-im.c:99-99 | so is the entry for a e |
| SimpleIm.UnreachableEntries | clients/simple-im.c:98-100 | no keys whatever lead the search to the entries for s s and a a |
| SimpleIm.EndsInstead | clients/simple-im.c:98-100 | the first s, and the second a, end composing with the keys committed as they are |
| SimpleIm.ComposedIff | clients/simple-im.c:379-481 | some run of the real table composes an entry if and only if it is neither of these two |
| SimpleImKeys.StrokesType | clients/simple-im.c:467-481 | while not composing, each key with text pressed and released is committed once, in order, on its release |
| SimpleImKeys.StrokeForwards | clients/simple-im.c:467-470 | a key without text is passed on, on press and release |
| SimpleImKeys.PressSwallowed | clients/simple-im.c:399-400 | presses change nothing while composing |
| SimpleImKeys.KeysKept | clients/simple-im.c:407-460 | a symbol released while composing goes behind the recorded ones, and just these are shown, committed as they are, or composed |
| SimpleIm.Im.HandleKey | clients/simple-im.c:379-481 | the key handler is a step of the machine and keeps its invariant |
| SimpleIm.Im.HandleReset | clients/simple-im.c:118-126 | a reset cuts the episode short |
| Resizor.StepCoversATwentieth | clients/resizor.c:63-73 | a step leaves 19/20 of the distance, and previous is where the spring was |
| Resizor.DistanceDecays | clients/resizor.c:63-73 | n steps leave (19/20)^n of it |
| Resizor.NoOvershoot | clients/resizor.c:63-73 | a spring never passes its target nor moves away from it |
| Resizor.ScheduledIff | clients/resizor.c:84-113 | after n frames another is asked for if and only if a distance was still a tenth or more a step before |
| Resizor.AnimationStops | clients/resizor.c:76-113 | from any start rescheduling has stopped after a number of frames computed from the distances |
| Resizor.KeyReachesTarget | clients/resizor.c:154-208 | any key pressed at rest: each frame leaves 19/20 of the way to the new target, no frame passes it, and exactly 149 further frames are asked for when a target moved |
| Resizor.InterruptedGoesOn | clients/resizor.c:165-171 | a spring that is still moving goes on to its old target through any key of the other axis |
| Resizor.OtherAxisKeepsTarget | clients/resizor.c:165-200 | the targets after a key, for each axis moved, at rest or still moving |
| Resizor.ResizorWindow.FrameCallback | clients/resizor.c:84-113 | one frame of the animation; a maximised window stops it |
| Resizor.ResizorWindow.PressKey | clients/resizor.c:154-208 | the new targets, and a frame at once when none is waited for |

## Left out

- Reporter.Tracepoint: a further message after the root was overwritten, for which the source follows a null pointer.
- Reporter.TraceEnd: how the missing message of a parent still open is printed; it is taken as empty.
- Rounding of the printed times in `clients/traceinfo.c`; times are exact microseconds.
- Floating-point rounding everywhere; angles enter as their sines and cosines.
- `render` of `clients/smoke.c`, which only turns densities into colours, and windows whose size changes while running.
- Windows of at most 40 pixels in `clients/simple-damage.c`, which have no arena; for them `Reflection.TerminatesIff` says when the loop ends.
- NextTurnsCentre: with a viewport, for sizes that halving divides; otherwise the buffer's halves round, and `OutputTransforms.NextTurnsPoint` and `OutputTransforms.NextTurnsOffset` hold for what is drawn.
- How a compositor maps damage in surface coordinates to the buffer in `clients/simple-damage.c`; `OutputTransforms.SurfaceDamageCovers` is about the points drawn at the centres of pixels.
- `perspective` of `clients/es2gears.c`, whose result the gears only multiply with.
- Shader, cursor, seat and window code of all clients.
- DestroySurface: only surfaces without a pending buffer.
- Commit: only with a live pending buffer when one was attached.
- Damage regions, drawing and client launching of `clients/nested.c`; callbacks a client destroys by disconnecting.
- Mouse and touch positioning, preedit styling and preedit cursors of `clients/editor.c`, which depend on text layout; presses and releases of keys (an event is taken to be the one the handler acts on).
- RunGood: texts stay below 2^31 bytes, the range of the ints that hold selection indices, and are well-formed; a commit's cursor offsets are 0, and `TextEntryRuns.InsertAbortsIff` says which others pass the assertion.
- The switch, symbol, style, tab, enter and arrow keys of `clients/keyboard.c`; after Enter or Tab the shadow is right again when the editor's state arrives (`KeyboardText.RefreshSyncsIff`).
- KeyAt: points 50 pixels or more above the keyboard, for which the unsigned product wraps and its conversion to an int is out of range.
- Output sizes that are not positive in `clients/screenshot.c`, PNG writing, and image memory no output covers, whose first contents are arbitrary.
- Implicit synchronisation, rendering and setup of `clients/simple-dmabuf-egl.c`; the acquire fences it creates and closes at once.
- The text xkbcommon gives for keys that make no entry in `clients/simple-im.c`; the model says which keys are committed.
- Search: the halving of bsearch is that of common C libraries, and which entries are out of reach depends on it (`SimpleIm.ComposedIff`); the other results on runs use only that an entry found starts with the keys.
- Pointer locking and menus of `clients/resizor.c`.
