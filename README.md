# r.flexure domain reconciliation, modelled in Dafny

`r.flexure` is a GRASS GIS module that runs the gFlex flexural-isostasy
solver on raster maps. The physics is gFlex's. What the module itself does is
bookkeeping between the GIS region and the solver's grid:

- It tags the elastic thickness (Te) option as a number or a raster map name, and converts it from km to m.
- It picks the grid spacing from the current region. A latitude/longitude region is refused unless `-l` is given; with `-l`, degrees are turned into metres.
- It reads the load map and trims one cell off every edge, because the solver's working grid is the interior of the data.
- It shrinks the current region by one cell per edge so that it matches the solver's result, and writes the result into a buffer of that shape.
- It restores the region afterwards.

This project models that bookkeeping and proves properties of it.

Files and modules:

- `grids.dfy` (`Grids`): the numpy operations the driver uses. These are the slice `g[1:-1, 1:-1]`, element-wise scaling, and the bulk assignment `buffer[...] = values` into a 2-D array.
- `regions.dfy` (`Regions`): the region as a value `{n, s, e, w, nsres, ewres, rows, cols}`. It also holds the two forms of `g.region` the driver uses, the one-cell shrink, the restore as written, the restore as intended, and the lemmas relating them.
- `platform.dfy` (`Platform`): the GIS state the driver changes in place. `GisRegion` is the process-wide current region. `Workspace` holds the raster maps, their colour tables and a log of the maps read.
- `gflex.dfy` (`GFlex`): the solver object. It takes named parameters set one at a time (`set_value`), then `run` and `finalize`. Its numerics are an opaque `Engine` function whose only known property is that it returns a grid of the load grid's shape.
- `flexure.dfy` (`Flexure`): the driver `main()`. It is split into its stages: solver set-up, spacing gate, input reads, solve, shrink, write-back and restore.

How the platform's region commands are modelled. These rules belong to GRASS, whose source is not part of this model:

- `g.region n= s= e= w= rows= cols=` sets the bounds and counts. The cell sizes become extent / count.
- `g.region n= s= e= w=` keeps the cell sizes and recomputes each count as the nearest whole number of cells, at least one. It then re-derives the cell sizes so that the cells span the bounds exactly.
- A region is valid when its cell sizes and counts are positive and its bounds equal counts × cell sizes. Every operation keeps this invariant.

Behaviour as written that the model keeps:

- The run reads the maps `q0resamp` and `Teresamp`, whatever the `q` and `te` options say. The `q` option is never used.
- With `-l`, both spacings are cell size × 111000. The console messages and the flag's help text say 111,320 (111.32 km). The model follows the code, `Flexure.MetresPerDegree`.
- `obj.initialize` is commented out (r.flexure.py:200). `run` and `finalize` are called without it, and the model does not require it.
- The restore at r.flexure.py:221-222 moves north and south by `ewres`. The shrink moved them by `nsres`. See Findings. `Flexure.WriteDeflection` and `Flexure.RunFlexure` take a flag `asWritten`. With it set, they restore as lines 221-225 do (`Flexure.RestoreCurrentRegionAsWritten`, `Regions.RestoreAsWritten`). Without it, they use the corrected restore (`Flexure.RestoreCurrentRegion`, `Regions.RestoreRegion`), which gives the original region back.

## Model

| member | source | states |
|---|---|---|
| Grids.InnerRow | r.flexure.py:192 | Python's `row[1:-1]` has length max(0, n-2), and its element j is row element j+1 |
| Grids.Interior | r.flexure.py:192 | `g[1:-1, 1:-1]` has max(0, rows-2) rows, each row trimmed the same way, and its element (i, j) is g's element (i+1, j+1) |
| Grids.InteriorOfMatrix | r.flexure.py:192 | on a rows x cols grid (rows, cols >= 2) the trimmed load grid is a (rows-2) x (cols-2) matrix with element (i, j) equal to input element (i+1, j+1) |
| Grids.Scaled | r.flexure.py:187 | element-wise multiplication keeps the shape and multiplies every cell by the factor |
| Grids.Values | r.flexure.py:214-216 | the grid read out of a 2-D buffer has the buffer's shape and its cells |
| Grids.AssignAll | r.flexure.py:215 | `outbuffer[...] = obj.w` with a right-hand side of the buffer's shape leaves the buffer holding exactly that grid |
| Regions.WithCounts | r.flexure.py:212 | `g.region` with bounds and counts gives a valid region with exactly those bounds and counts |
| Regions.CellCount | r.flexure.py:225 | the count the platform derives from bounds alone is at least one |
| Regions.CellCountNearest | r.flexure.py:225 | that count is the nearest whole number of cells: the cells overshoot the extent by less than half a cell, and fall short by at most half a cell unless one cell is already too big |
| Regions.CellCountExact | r.flexure.py:220 | an extent of exactly k cells is counted as k |
| Regions.WithBounds | r.flexure.py:220-225 | `g.region` with bounds only gives a valid region with those bounds, and counts derived from the previous cell sizes |
| Regions.SameBounds | r.flexure.py:220 | setting the current bounds again (line 220) leaves a valid region unchanged |
| Regions.BoundsOrdered | r.flexure.py:206-212 | a valid region has n > s and e > w, so the shrunk bounds can be set |
| Regions.ShrinkRegion | r.flexure.py:206-212 | the shrink moves n down and s up by nsres and e down and w up by ewres, sets rows-2 and cols-2, keeps both cell sizes, and keeps n-s = rows·nsres and e-w = cols·ewres |
| Regions.RestoreAsWritten | r.flexure.py:220-225 | as written, the restore gives a valid region with all four bounds moved outward by ewres, and the counts re-derived |
| Regions.RestoreRegion | r.flexure.py:219-225 | as intended, the restore moves n and s outward by nsres and e and w by ewres |
| Regions.ShrinkRestoreRoundTrip | r.flexure.py:206-225 | the corrected restore after the shrink gives back the original region exactly: bounds, cell sizes and counts |
| Regions.AsWrittenKeepsEastWest | r.flexure.py:206-225 | as written, shrink then restore always gives back e, w, cols and ewres |
| Regions.AsWrittenNorthSouth | r.flexure.py:206-207 | as written, shrink then restore gives back n exactly when nsres = ewres, and likewise s (restore at lines 221-222) |
| Regions.AsWrittenSquareCells | r.flexure.py:219-225 | as written, with nsres = ewres, shrink then restore is a full round trip |
| Regions.AsWrittenCounterexample | r.flexure.py:221-222 | for a 10 x 10 region with nsres = 100 and ewres = 50, the code as written restores n to 950 instead of 1000, s to 50 instead of 0, and 9 rows instead of 10 |
| Platform.GisRegion.SetWithCounts | r.flexure.py:212 | the current region becomes `Regions.WithCounts` of the arguments and stays valid |
| Platform.GisRegion.SetBounds | r.flexure.py:220-225 | the current region becomes `Regions.WithBounds` of the old region and the arguments, and stays valid |
| Platform.Workspace.Read | r.flexure.py:178-182 | a raster read logs the name, and returns the map's values or nothing if the map is missing |
| Platform.Workspace.Write | r.flexure.py:216 | a write stores the grid under the output name and leaves the other maps alone |
| Platform.Workspace.SetColors | r.flexure.py:218 | `r.colors` sets the colour table of the named map only |
| GFlex.Solver.SetValue | r.flexure.py:131-194 | `set_value` replaces that key's parameter and keeps the others |
| GFlex.Solver.Run | r.flexure.py:201 | `run` stores the engine's result for the current configuration, which has the shape of the loads |
| GFlex.Solver.Finalize | r.flexure.py:202 | `finalize` moves a solved object to the finalized phase |
| Flexure.ClassifyThickness | r.flexure.py:122-127 | Te is tagged as a raster exactly when `float()` fails. The raster tag keeps the option text as its name, and a numeric Te is the parsed number |
| Flexure.ThicknessInMetres | r.flexure.py:186-189 | the thickness given to the solver is km × 1000: once for a number, and cell by cell, with the shape kept, for a raster |
| Flexure.ThicknessKeepsShape | r.flexure.py:186-187 | a rows x cols thickness raster gives a rows x cols grid in metres |
| Flexure.GridSpacing | r.flexure.py:161-174 | the spacing is refused exactly when the region is latitude/longitude (code 3) and `-l` is not set. With `-l` it is (ewres × 111000, nsres × 111000); in a projected region it is (ewres, nsres) |
| Flexure.ExpectedReads | r.flexure.py:178-182 | the run reads `q0resamp` first, then `Teresamp` exactly when Te did not parse as a number, and nothing else: two reads for a raster Te, one for a number |
| Flexure.LoadsFitShrunkRegion | r.flexure.py:192-216 | the trimmed load grid has exactly the shrunk region's rows and cols, so the solver's result fits the output buffer |
| Flexure.TenByTenScenario | r.flexure.py:192-225 | a 10 x 10 projected region of 100 m cells gives an 8 x 8 working grid and the 8 x 8 shrunk region [100, 900]², and restores to the original region |
| Flexure.NewSolver | r.flexure.py:130-159 | a fresh solver holding the fixed constants (g 9.8, E 65e9, ν 0.25, mantle density 3300) and the four boundary conditions |
| Flexure.ReadInputs | r.flexure.py:177-182 | the run reports a missing load map, or a missing thickness map when Te is a raster, and the read log then ends with the reads attempted up to the missing map. Otherwise it returns the maps, and the read log grows by exactly `ExpectedReads` |
| Flexure.Solve | r.flexure.py:192-202 | the solver gets the interior of the loads, the thickness and the infill density, and drho = mantle density − infill density. After `run` and `finalize` its result has the trimmed loads' shape |
| Flexure.ShrinkCurrentRegion | r.flexure.py:205-212 | the current region becomes `Regions.ShrinkRegion` of the old one |
| Flexure.RestoreCurrentRegionAsWritten | r.flexure.py:219-225 | as written, the current region becomes `Regions.RestoreAsWritten` of the shrunk one |
| Flexure.RestoreCurrentRegion | r.flexure.py:219-225 | with the correction, the current region becomes `Regions.RestoreRegion` of the shrunk one |
| Flexure.WriteDeflection | r.flexure.py:204-225 | the deflection is written under the output name with the rainbow table, and nothing is read. After the restore, the region is `Regions.RestoreAsWritten` of the shrunk region with `asWritten` set, and the original region otherwise |
| Flexure.ReadSolveWrite | r.flexure.py:177-225 | a missing input map stops the stage with the maps, colour tables, solver parameters and phase, and region unchanged and the read log showing the attempted reads. Otherwise the solver gets the interior loads, Te in metres (a raster of the full region's shape), the infill density and drho = 3300 − infill density; it keeps its set-up and spacing; the engine's result for that configuration is written and coloured; and the region is restored as `WriteDeflection` says |
| Flexure.RunFlexure | r.flexure.py:103-225 | see below |

`Flexure.RunFlexure` states four things:

- A latitude/longitude region without `-l` ends the run before any raster read or solver run, with the workspace and the region unchanged. No other case ends this way.
- A missing input map ends the run before the solver runs, with the maps and the region unchanged.
- Otherwise the run completes:
  - The solver gets the interior of `q0resamp` as a (rows-2) x (cols-2) grid, Te in metres, and the chosen spacing.
  - `Teresamp` is read only for a raster Te.
  - A raster Te reaches the solver as a rows x cols grid, one cell bigger on each edge than the loads (line 192).
  - The result is the engine's deflection for the solver's final configuration. It is a (rows-2) x (cols-2) grid, written under the output name.
  - The solver also holds the fixed settings of lines 131-134 and 150-153, the four boundary conditions, the infill density, and drho = 3300 − infill density.
- A stopped run leaves the colour tables unchanged. After a missing map, the read log shows exactly the reads attempted.
- After line 225 the region is the original one with the corrected restore. With `asWritten` set it is `Regions.RestoreAsWritten(Regions.ShrinkRegion(original))`. Line 228, which sets the region again from Te, is not part of this model.

## Left out

- Lines 135-142 (method selection) are not modelled. They compare the method option with `SAs` and `SAS`, which are not defined in this file and come from `from base import *`. The `SAS` branch selects `'FD'`, `direct` and `vWC1994`. Which branch runs, or whether the lookup fails, depends on code that is not part of this model.
- Lines 228-230 are not modelled: `g.region rast=Te`, `r.resamp.interp` with Lanczos resampling, and the colour table of `<output>_interp`. They are platform commands with floating-point resampling. For a numeric Te, line 228 passes a number where a raster name is expected.
- The console messages (lines 165-168) are not modelled. The `sys.exit` at line 171 is the `NeedProjected` status.
- Option parsing (lines 9-81, 235) is done by `grass.parser()`. `Options` holds the values it hands over, with `rho_fill` already a number.
- Python's `float()` on strings is the parameter `parseFloat` of `Flexure.RunFlexure`. The solver's numerics are the parameter `engine`.
- The projection test reads character 6 of `grass.region_env()`. It is modelled as the region's projection code compared with 3. For the platform's projection codes, that character is the code's only or first digit.
- Bounds and cell sizes are `real`. Floating-point rounding is not modelled.
- Platform.Workspace.Read: maps are taken to be aligned to the current region (`Workspace.AlignedTo`). The platform's resampling of a map on read is not modelled. The script ignores the result of `read` at lines 179 and 182. The model assumes the platform's `garray` read fails on a missing map and so stops the run; `MissingRaster` stands for that failure.
- Platform.GisRegion.SetBounds: the nearest-count rule (`Regions.CellCount`) stands in for the platform's recomputation of rows and cols. The platform's own code is not part of this model.
- Flexure.RunFlexure: requires at least three rows and three columns. The source does not check this. With fewer, the trimmed load grid is empty and `g.region` is asked for zero rows or columns. What the solver and the platform then do is outside this model.
- Flexure.RunFlexure: no collaborator failure other than a missing input map is modelled. If the solver or a platform command fails after the shrink, the region is left shrunk. The model does not represent that.
- input/run_in_script_1D.py sets attributes on a gFlex 1-D object and calls its lifecycle and plotting. It has no logic of its own and is not modelled.

## Findings

| source | as written | input that shows it | evidently intended | confidence | as-written member | corrected member |
|---|---|---|---|---|---|---|
| r.flexure.py:221-222 | north and south move outward by `ewres` when the region is restored | a 1000 m x 500 m region of 10 x 10 cells (nsres 100, ewres 50): after line 225 the region has n = 950, s = 50 and 9 rows instead of 1000, 0 and 10. Line 228 then sets the region from Te; the wrong region remains only when that command fails, as it does for a numeric Te | move north and south by `nsres`, undoing lines 206-207, as the comment at line 219 ("revert to the old region") says | high, not executed | Regions.AsWrittenCounterexample | Regions.ShrinkRestoreRoundTrip |
