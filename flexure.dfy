/** The domain-reconciliation bookkeeping of `main()` in r.flexure.py:
    deciding whether the elastic thickness is a number or a raster map,
    choosing the grid spacing (with the latitude/longitude gate), trimming
    the load grid to the solver's interior working grid, shrinking the
    region to the solver's result, writing the result back, and restoring
    the region. */
module Flexure {
  import opened Grids
  import opened GFlex
  import opened Platform
  import Regions

  /** Metres per degree used to approximate a latitude/longitude spacing. */
  const MetresPerDegree: real := 111000.0

  /** Kilometres to metres. */
  const MetresPerKm: real := 1000.0

  /** The elastic thickness option, tagged: a number of kilometres, or the
      name of a raster map. */
  datatype ThicknessInput = ScalarKm(km: real) | RasterName(name: string)

  /** Lines 122-127: the option is a number exactly when `float()` accepts
      it; `parsed` is what `float()` returned, `None` for an exception. */
  function ClassifyThickness(te: string, parsed: Option<real>): (t: ThicknessInput)
    ensures t.RasterName? <==> parsed.None?
    ensures t.RasterName? ==> t.name == te
    ensures t.ScalarKm? ==> parsed == Some(t.km)
  {
    match parsed
    case Some(x) => ScalarKm(x)
    case None => RasterName(te)
  }

  /** Lines 186-189: the elastic thickness handed to the solver, in metres.
      A number is scaled once; a raster (`teKm`, read only in that case) is
      scaled cell by cell. */
  function ThicknessInMetres(t: ThicknessInput, teKm: Grid): (p: Param)
    ensures t.ScalarKm? ==> p == Number(t.km * 1000.0)
    ensures t.RasterName? ==> p.Array? && SameShape(p.g, teKm)
    ensures t.RasterName? ==> forall i, j :: 0 <= i < |teKm| && 0 <= j < |teKm[i]| ==>
      p.g[i][j] == 1000.0 * teKm[i][j]
  {
    match t
    case ScalarKm(km) => Number(km * MetresPerKm)
    case RasterName(_) => Array(Scaled(teKm, MetresPerKm))
  }

  /** A thickness raster keeps its shape when converted to metres, so the
      solver gets an elastic-thickness grid of the shape it was read in. */
  lemma {:induction false} ThicknessKeepsShape(t: ThicknessInput, teKm: Grid, rows: int, cols: int)
    requires t.RasterName? && IsMatrix(teKm, rows, cols)
    ensures ThicknessInMetres(t, teKm).Array?
    ensures IsMatrix(ThicknessInMetres(t, teKm).g, rows, cols)
  {
    var g := ThicknessInMetres(t, teKm).g;
    forall i | 0 <= i < |g| ensures |g[i]| == cols {
      assert |teKm[i]| == cols;
    }
  }

  /** Lines 161-174: the grid spacing (x, y) handed to the solver. A
      latitude/longitude region is refused unless the `-l` flag is set, in
      which case both cell sizes in degrees are turned into metres. */
  function GridSpacing(r: Regions.Region, proj: int, latlonOverride: bool): (sp: Option<(real, real)>)
    ensures sp.None? <==> proj == LatLon && !latlonOverride
    ensures sp.Some? && proj == LatLon ==> sp.value == (r.ewres * 111000.0, r.nsres * 111000.0)
    ensures sp.Some? && proj != LatLon ==> sp.value == (r.ewres, r.nsres)
  {
    if proj == LatLon then
      if latlonOverride then Some((r.ewres * MetresPerDegree, r.nsres * MetresPerDegree)) else None
    else
      Some((r.ewres, r.nsres))
  }

  /** The solver's x and y spacing parameters hold the chosen spacing. */
  predicate SpacingParams(sp: Option<(real, real)>, x: Param, y: Param) {
    sp.Some? && x == Number(sp.value.0) && y == Number(sp.value.1)
  }

  /** The module's options, as the platform's parser hands them over
      (`q` is among them, but the run reads the map 'q0resamp' instead). */
  datatype Options = Options(q: string, te: string, rhoFill: real,
                             bcn: string, bcs: string, bcw: string, bce: string,
                             output: string)

  /** How a run ends. */
  datatype Status =
    | Completed
      /** `sys.exit` at line 171: latitude/longitude without `-l`. */
    | NeedProjected
      /** A raster map the run reads is missing from the workspace. */
    | MissingRaster(name: string)

  /** The maps the run reads, whatever the options say. */
  const LoadsMap: string := "q0resamp"
  const ThicknessMap: string := "Teresamp"

  /** What the run reads: the loads, and the thickness map only when the
      thickness option did not parse as a number. */
  function ExpectedReads(parsed: Option<real>): (names: seq<string>)
    ensures |names| == (if parsed.None? then 2 else 1) && names[0] == "q0resamp"
    ensures "Teresamp" in names <==> parsed.None?
  {
    [LoadsMap] + (if parsed.None? then [ThicknessMap] else [])
  }

  /** Lines 192 and 206-216: the trimmed load grid, and so the solver's
      result, has exactly the shape of the shrunk region, so the result
      fills the output buffer exactly. */
  lemma {:induction false} LoadsFitShrunkRegion(q0: Grid, r: Regions.Region)
    requires Regions.Valid(r) && r.rows >= 3 && r.cols >= 3
    requires IsMatrix(q0, r.rows, r.cols)
    ensures IsMatrix(Interior(q0), Regions.ShrinkRegion(r).rows, Regions.ShrinkRegion(r).cols)
  {
    InteriorOfMatrix(q0, r.rows, r.cols);
  }

  /** A projected 10 x 10 region of 100 m cells: the solver works on an
      8 x 8 grid, the shrunk region is 8 x 8 with bounds 100 m inside, and
      with square cells even the restore as written gives the region back. */
  lemma TenByTenScenario(q0: Grid)
    requires IsMatrix(q0, 10, 10)
    ensures var r := Regions.Region(1000.0, 0.0, 1000.0, 0.0, 100.0, 100.0, 10, 10);
      Regions.Valid(r) &&
      IsMatrix(Interior(q0), 8, 8) &&
      Regions.ShrinkRegion(r) == Regions.Region(900.0, 100.0, 900.0, 100.0, 100.0, 100.0, 8, 8) &&
      Regions.RestoreAsWritten(Regions.ShrinkRegion(r)) == r
  {
    var r := Regions.Region(1000.0, 0.0, 1000.0, 0.0, 100.0, 100.0, 10, 10);
    InteriorOfMatrix(q0, 10, 10);
    Regions.AsWrittenSquareCells(r);
  }

  /** The fixed settings of lines 131-134 and 150-153 and the
      boundary conditions of lines 156-159. */
  predicate SolverConfigured(params: map<Key, Param>, opts: Options) {
    Model in params && params[Model] == Text("flexure") &&
    Dimension in params && params[Dimension] == Whole(2) &&
    GravAccel in params && params[GravAccel] == Number(9.8) &&
    YoungsModulus in params && params[YoungsModulus] == Number(65000000000.0) &&
    PoissonsRatio in params && params[PoissonsRatio] == Number(0.25) &&
    MantleDensity in params && params[MantleDensity] == Number(3300.0) &&
    BoundaryConditionEast in params && params[BoundaryConditionEast] == Text(opts.bce) &&
    BoundaryConditionWest in params && params[BoundaryConditionWest] == Text(opts.bcw) &&
    BoundaryConditionNorth in params && params[BoundaryConditionNorth] == Text(opts.bcn) &&
    BoundaryConditionSouth in params && params[BoundaryConditionSouth] == Text(opts.bcs)
  }

  /** Setting a parameter the set-up does not touch keeps the set-up. */
  lemma ConfiguredKept(params: map<Key, Param>, opts: Options, key: Key, value: Param)
    requires SolverConfigured(params, opts)
    requires key in {GridSpacingX, GridSpacingY, Loads, ElasticThickness, InfillMaterialDensity}
    ensures SolverConfigured(params[key := value], opts)
  {
  }

  /** Lines 130-159: a new solver object with the fixed material constants
      and the four boundary conditions of the options. (Lines 135-142, the
      choice of method, are not part of this model.) */
  method NewSolver(opts: Options) returns (obj: Solver)
    ensures fresh(obj) && obj.phase == Configuring
    ensures obj.params == map[][Model := Text("flexure")][Dimension := Whole(2)]
                              [GravAccel := Number(9.8)][YoungsModulus := Number(65000000000.0)]
                              [PoissonsRatio := Number(0.25)][GravAccel := Number(9.8)]
                              [MantleDensity := Number(3300.0)]
                              [BoundaryConditionEast := Text(opts.bce)][BoundaryConditionWest := Text(opts.bcw)]
                              [BoundaryConditionNorth := Text(opts.bcn)][BoundaryConditionSouth := Text(opts.bcs)]
    ensures SolverConfigured(obj.params, opts)
  {
    obj := new Solver();
    obj.SetValue(Model, Text("flexure"));
    obj.SetValue(Dimension, Whole(2));
    obj.SetValue(GravAccel, Number(9.8));
    obj.SetValue(YoungsModulus, Number(65000000000.0));
    obj.SetValue(PoissonsRatio, Number(0.25));
    obj.SetValue(GravAccel, Number(9.8));
    obj.SetValue(MantleDensity, Number(3300.0));
    obj.SetValue(BoundaryConditionEast, Text(opts.bce));
    obj.SetValue(BoundaryConditionWest, Text(opts.bcw));
    obj.SetValue(BoundaryConditionNorth, Text(opts.bcn));
    obj.SetValue(BoundaryConditionSouth, Text(opts.bcs));
  }

  /** Lines 177-182: read the loads, and the thickness map only for a raster
      thickness. `missing` names the first map the workspace lacks. */
  method ReadInputs(ws: Workspace, te: ThicknessInput) returns (missing: Option<string>, q0: Grid, teKm: Grid)
    modifies ws`readLog
    ensures missing.None? <==> LoadsMap in ws.rasters && (te.RasterName? ==> ThicknessMap in ws.rasters)
    ensures missing.Some? ==> missing.value !in ws.rasters
    ensures missing.Some? ==> missing.value == LoadsMap || (missing.value == ThicknessMap && te.RasterName?)
    ensures missing.Some? ==>
      ws.readLog == old(ws.readLog) + (if missing.value == LoadsMap then [LoadsMap] else [LoadsMap, ThicknessMap])
    ensures missing.None? ==>
      q0 == ws.rasters[LoadsMap] &&
      teKm == (if te.RasterName? then ws.rasters[ThicknessMap] else []) &&
      ws.readLog == old(ws.readLog) + ExpectedReads(if te.RasterName? then None else Some(te.km))
  {
    teKm := [];
    q0 := [];
    var r := ws.Read(LoadsMap);
    if r.None? {
      missing := Some(LoadsMap);
      return;
    }
    q0 := r.value;
    if te.RasterName? {
      var t := ws.Read(ThicknessMap);
      if t.None? {
        missing := Some(ThicknessMap);
        return;
      }
      teKm := t.value;
    }
    missing := None;
  }

  /** Lines 192-202: hand the trimmed loads, the thickness and the infill
      density to the solver, set the density contrast, run and finalize. */
  method Solve(obj: Solver, q0: Grid, thickness: Param, rhoFill: real, engine: Engine)
    requires obj.phase == Configuring && MantleDensity in obj.params && obj.params[MantleDensity].Number?
    requires ShapePreserving(engine)
    modifies obj
    ensures obj.params == old(obj.params)[Loads := Array(Interior(q0))][ElasticThickness := thickness]
                                         [InfillMaterialDensity := Number(rhoFill)]
    ensures obj.drho == old(obj.params)[MantleDensity].x - rhoFill
    ensures obj.w == engine(obj.params, obj.drho) && obj.phase == Finalized
    ensures SameShape(obj.w, Interior(q0))
  {
    obj.SetValue(Loads, Array(Interior(q0)));
    obj.SetValue(ElasticThickness, thickness);
    obj.SetValue(InfillMaterialDensity, Number(rhoFill));
    obj.drho := obj.params[MantleDensity].x - obj.params[InfillMaterialDensity].x;
    obj.Run(engine);
    obj.Finalize();
  }

  /** Lines 205-212: read the current region, move every bound one cell
      inward, drop two rows and two columns, and set the result. */
  method ShrinkCurrentRegion(region: GisRegion)
    requires region.Valid() && region.rows >= 3 && region.cols >= 3
    modifies region
    ensures region.Valid() && region.proj == old(region.proj)
    ensures region.Value() == Regions.ShrinkRegion(old(region.Value()))
  {
    var n := region.n - region.nsres;
    var s := region.s + region.nsres;
    var e := region.e - region.ewres;
    var w := region.w + region.ewres;
    var nrows := region.rows - 2;
    var ncols := region.cols - 2;
    Regions.BoundsOrdered(Regions.ShrinkRegion(region.Value()));
    region.SetWithCounts(n, s, e, w, nrows, ncols);
  }

  /** Lines 219-225 as written: set the current bounds again, then move
      every bound outward by the east-west cell size. */
  method RestoreCurrentRegionAsWritten(region: GisRegion)
    requires region.Valid()
    modifies region
    ensures region.Valid() && region.proj == old(region.proj)
    ensures region.Value() == Regions.RestoreAsWritten(old(region.Value()))
  {
    Regions.BoundsOrdered(region.Value());
    region.SetBounds(region.n, region.s, region.e, region.w);
    var n := region.n + region.ewres;
    var s := region.s - region.ewres;
    var e := region.e + region.ewres;
    var w := region.w - region.ewres;
    region.SetBounds(n, s, e, w);
  }

  /** Lines 219-225 as intended: as above, but north and south move by the
      north-south cell size. */
  method RestoreCurrentRegion(region: GisRegion)
    requires region.Valid()
    modifies region
    ensures region.Valid() && region.proj == old(region.proj)
    ensures region.Value() == Regions.RestoreRegion(old(region.Value()))
  {
    Regions.BoundsOrdered(region.Value());
    region.SetBounds(region.n, region.s, region.e, region.w);
    var n := region.n + region.nsres;
    var s := region.s - region.nsres;
    var e := region.e + region.ewres;
    var w := region.w - region.ewres;
    region.SetBounds(n, s, e, w);
  }

  /** Lines 204-225: shrink the region so that it matches the solver's
      result, write the result through a buffer of the shrunk region's
      shape, colour it, and restore the region. With `asWritten` the restore
      is the one of lines 221-225 as written (north and south move by the
      east-west cell size); otherwise north and south move by the
      north-south cell size, as intended, and the region comes back. */
  method WriteDeflection(region: GisRegion, ws: Workspace, output: string, deflection: Grid, asWritten: bool)
    requires region.Valid() && region.rows >= 3 && region.cols >= 3
    requires IsMatrix(deflection, region.rows - 2, region.cols - 2)
    modifies region, ws
    ensures region.Valid() && region.proj == old(region.proj)
    ensures region.Value() ==
      if asWritten then Regions.RestoreAsWritten(Regions.ShrinkRegion(old(region.Value())))
      else old(region.Value())
    ensures ws.rasters == old(ws.rasters)[output := deflection]
    ensures ws.colors == old(ws.colors)[output := "rainbow"]
    ensures ws.readLog == old(ws.readLog)
  {
    ghost var original := region.Value();
    ShrinkCurrentRegion(region);

    var outbuffer := new real[region.rows, region.cols];
    AssignAll(outbuffer, deflection);
    ws.Write(output, Values(outbuffer));
    ws.SetColors(output, "rainbow");

    if asWritten {
      RestoreCurrentRegionAsWritten(region);
    } else {
      RestoreCurrentRegion(region);
      Regions.ShrinkRestoreRoundTrip(original);
    }
  }

  /** Lines 177-225, once the solver is set up and the spacing chosen: read
      the inputs, solve, write the result back and restore the region. */
  method ReadSolveWrite(region: GisRegion, ws: Workspace, obj: Solver, opts: Options,
                        te: ThicknessInput, engine: Engine, asWritten: bool)
    returns (status: Status)
    requires region.Valid() && region.rows >= 3 && region.cols >= 3
    requires ws.AlignedTo(LoadsMap, region.rows, region.cols)
    requires ws.AlignedTo(ThicknessMap, region.rows, region.cols)
    requires ShapePreserving(engine)
    requires obj.phase == Configuring && SolverConfigured(obj.params, opts)
    requires GridSpacingX in obj.params && GridSpacingY in obj.params
    modifies region, ws, obj
    ensures region.Valid() && region.proj == old(region.proj)
    ensures !status.NeedProjected?
    ensures status.MissingRaster? ==>
      status.name !in old(ws.rasters) && obj.phase == Configuring &&
      ws.rasters == old(ws.rasters) && ws.colors == old(ws.colors) &&
      region.Value() == old(region.Value()) && obj.params == old(obj.params) &&
      (status.name == LoadsMap || (status.name == ThicknessMap && te.RasterName?)) &&
      ws.readLog == old(ws.readLog) + (if status.name == LoadsMap then [LoadsMap] else [LoadsMap, ThicknessMap])
    ensures status == Completed <==>
      LoadsMap in old(ws.rasters) && (te.RasterName? ==> ThicknessMap in old(ws.rasters))
    ensures status == Completed ==>
      ws.readLog == old(ws.readLog) + ExpectedReads(if te.RasterName? then None else Some(te.km)) &&
      obj.phase == Finalized &&
      Loads in obj.params && ElasticThickness in obj.params &&
      obj.params[Loads] == Array(Interior(old(ws.rasters)[LoadsMap])) &&
      IsMatrix(obj.params[Loads].g, old(region.rows) - 2, old(region.cols) - 2) &&
      obj.params[ElasticThickness] ==
        ThicknessInMetres(te, if te.RasterName? then old(ws.rasters)[ThicknessMap] else []) &&
      (te.RasterName? ==>
         obj.params[ElasticThickness].Array? &&
         IsMatrix(obj.params[ElasticThickness].g, old(region.rows), old(region.cols))) &&
      GridSpacingX in obj.params && GridSpacingY in obj.params &&
      obj.params[GridSpacingX] == old(obj.params[GridSpacingX]) &&
      obj.params[GridSpacingY] == old(obj.params[GridSpacingY]) &&
      SolverConfigured(obj.params, opts) && InfillMaterialDensity in obj.params &&
      obj.params[InfillMaterialDensity] == Number(opts.rhoFill) &&
      obj.drho == 3300.0 - opts.rhoFill &&
      obj.w == engine(obj.params, obj.drho) &&
      IsMatrix(obj.w, old(region.rows) - 2, old(region.cols) - 2) &&
      ws.rasters == old(ws.rasters)[opts.output := obj.w] &&
      ws.colors == old(ws.colors)[opts.output := "rainbow"] &&
      region.Value() ==
        if asWritten then Regions.RestoreAsWritten(Regions.ShrinkRegion(old(region.Value())))
        else old(region.Value())
  {
    var missing, q0, teKm := ReadInputs(ws, te);
    if missing.Some? {
      status := MissingRaster(missing.value);
      return;
    }
    LoadsFitShrunkRegion(q0, region.Value());
    if te.RasterName? {
      ThicknessKeepsShape(te, teKm, region.rows, region.cols);
    }
    ghost var configured := obj.params;
    var thickness := ThicknessInMetres(te, teKm);
    ConfiguredKept(configured, opts, Loads, Array(Interior(q0)));
    ConfiguredKept(configured[Loads := Array(Interior(q0))], opts, ElasticThickness, thickness);
    ConfiguredKept(configured[Loads := Array(Interior(q0))][ElasticThickness := thickness], opts,
                   InfillMaterialDensity, Number(opts.rhoFill));
    Solve(obj, q0, thickness, opts.rhoFill, engine);
    WriteDeflection(region, ws, opts.output, obj.w, asWritten);
    status := Completed;
  }

  /** `main()` of r.flexure.py, lines 103-225. `asWritten` selects the
      restore of lines 221-225 as written; otherwise the restore is the
      corrected one and the region ends as it began. `parseFloat`
      stands for Python's `float()` on strings and `engine` for the
      solver's numerics; the maps the run reads are aligned to the
      current region. */
  method RunFlexure(region: GisRegion, ws: Workspace, opts: Options, latlonOverride: bool,
                    parseFloat: string -> Option<real>, engine: Engine, asWritten: bool)
    returns (status: Status, obj: Solver)
    requires region.Valid() && region.rows >= 3 && region.cols >= 3
    requires ws.AlignedTo(LoadsMap, region.rows, region.cols)
    requires ws.AlignedTo(ThicknessMap, region.rows, region.cols)
    requires ShapePreserving(engine)
    modifies region, ws
    ensures fresh(obj)
    ensures region.Valid() && region.proj == old(region.proj)
    // The latitude/longitude gate: nothing is read, solved or changed.
    ensures status == NeedProjected <==> old(region.proj) == LatLon && !latlonOverride
    ensures status == NeedProjected ==>
      ws.readLog == old(ws.readLog) && ws.rasters == old(ws.rasters) && ws.colors == old(ws.colors) &&
      obj.phase == Configuring && region.Value() == old(region.Value())
    // A missing input map stops the run before the solver and the region.
    ensures status.MissingRaster? ==>
      status.name !in old(ws.rasters) && obj.phase == Configuring &&
      ws.rasters == old(ws.rasters) && ws.colors == old(ws.colors) &&
      region.Value() == old(region.Value())
    ensures status.MissingRaster? ==>
      (status.name == LoadsMap || (status.name == ThicknessMap && parseFloat(opts.te).None?))
    ensures status.MissingRaster? ==>
      ws.readLog == old(ws.readLog) + (if status.name == LoadsMap then [LoadsMap] else [LoadsMap, ThicknessMap])
    // A full run.
    ensures status == Completed <==>
      !(old(region.proj) == LatLon && !latlonOverride) &&
      LoadsMap in old(ws.rasters) && (parseFloat(opts.te).None? ==> ThicknessMap in old(ws.rasters))
    ensures status == Completed ==>
      ws.readLog == old(ws.readLog) + ExpectedReads(parseFloat(opts.te)) &&
      obj.phase == Finalized &&
      // the solver got the interior of the loads, and the thickness in metres
      Loads in obj.params && ElasticThickness in obj.params &&
      GridSpacingX in obj.params && GridSpacingY in obj.params &&
      obj.params[Loads] == Array(Interior(old(ws.rasters)[LoadsMap])) &&
      IsMatrix(obj.params[Loads].g, old(region.rows) - 2, old(region.cols) - 2) &&
      obj.params[ElasticThickness] ==
        ThicknessInMetres(ClassifyThickness(opts.te, parseFloat(opts.te)),
                          if parseFloat(opts.te).None? then old(ws.rasters)[ThicknessMap] else []) &&
      // a raster thickness is one cell bigger on each edge than the loads (line 192)
      (parseFloat(opts.te).None? ==>
         obj.params[ElasticThickness].Array? &&
         IsMatrix(obj.params[ElasticThickness].g, old(region.rows), old(region.cols))) &&
      SpacingParams(GridSpacing(old(region.Value()), old(region.proj), latlonOverride),
                    obj.params[GridSpacingX], obj.params[GridSpacingY]) &&
      // the configuration of lines 131-159, 194 and 197
      SolverConfigured(obj.params, opts) && InfillMaterialDensity in obj.params &&
      obj.params[InfillMaterialDensity] == Number(opts.rhoFill) &&
      obj.drho == 3300.0 - opts.rhoFill &&
      // the solver's deflection fills the shrunk region exactly and is written out
      obj.w == engine(obj.params, obj.drho) &&
      IsMatrix(obj.w, old(region.rows) - 2, old(region.cols) - 2) &&
      ws.rasters == old(ws.rasters)[opts.output := obj.w] &&
      ws.colors == old(ws.colors)[opts.output := "rainbow"] &&
      // and the region is restored
      region.Value() ==
        if asWritten then Regions.RestoreAsWritten(Regions.ShrinkRegion(old(region.Value())))
        else old(region.Value())
  {
    var parsed := parseFloat(opts.te);
    var te := ClassifyThickness(opts.te, parsed);
    obj := NewSolver(opts);

    var spacing := GridSpacing(region.Value(), region.proj, latlonOverride);
    if spacing.None? {
      status := NeedProjected;
      return;
    }
    ConfiguredKept(obj.params, opts, GridSpacingX, Number(spacing.value.0));
    obj.SetValue(GridSpacingX, Number(spacing.value.0));
    ConfiguredKept(obj.params, opts, GridSpacingY, Number(spacing.value.1));
    obj.SetValue(GridSpacingY, Number(spacing.value.1));

    assert parsed == (if te.RasterName? then None else Some(te.km));
    status := ReadSolveWrite(region, ws, obj, opts, te, engine, asWritten);
  }
}
