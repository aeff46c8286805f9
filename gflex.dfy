/** The gFlex solver object as the driver sees it: named parameters set one
    at a time, a run that produces the deflection grid, and a finalize. The
    numerics are an `Engine`, an opaque function of the configuration. */
module GFlex {
  import opened Grids

  /** A parameter value: a name, a whole number, a number or a grid. */
  datatype Param = Text(text: string) | Whole(i: int) | Number(x: real) | Array(g: Grid)

  /** The parameter names the driver passes to `set_value`, one constructor
      per name (`BoundaryConditionEast` is 'BoundaryCondition_East',
      `GridSpacingX` is 'GridSpacing_x', and so on). */
  datatype Key =
    | Model | Dimension | GravAccel | YoungsModulus | PoissonsRatio | MantleDensity
    | BoundaryConditionEast | BoundaryConditionWest | BoundaryConditionNorth | BoundaryConditionSouth
    | GridSpacingX | GridSpacingY | Loads | ElasticThickness | InfillMaterialDensity

  /** Where the solver object is in its lifecycle. */
  datatype Phase = Configuring | Solved | Finalized

  /** The solver's numerics: the deflection grid computed from the named
      parameters and the density contrast. */
  type Engine = (map<Key, Param>, real) -> Grid

  /** Whatever else it does, the engine returns a deflection grid of the
      shape of the load grid it was given. */
  ghost predicate ShapePreserving(engine: Engine) {
    forall p: map<Key, Param>, drho: real ::
      Loads in p && p[Loads].Array? ==> SameShape(engine(p, drho), p[Loads].g)
  }

  /** The `F2D` object. `drho` is the attribute the driver assigns directly;
      `w` is the deflection result. */
  class Solver {
    var params: map<Key, Param>
    var drho: real
    var w: Grid
    var phase: Phase

    constructor ()
      ensures params == map[] && w == [] && phase == Configuring
    {
      params := map[];
      drho := 0.0;
      w := [];
      phase := Configuring;
    }

    /** `set_value(key, value)`: a later value for the same key replaces an
        earlier one. */
    method SetValue(key: Key, value: Param)
      modifies this`params
      ensures params == old(params)[key := value]
    {
      params := params[key := value];
    }

    /** `run()`: the engine computes the deflection from the configuration. */
    method Run(engine: Engine)
      requires phase == Configuring
      requires Loads in params && params[Loads].Array?
      requires ShapePreserving(engine)
      modifies this`w, this`phase
      ensures w == engine(params, drho) && phase == Solved
      ensures SameShape(w, params[Loads].g)
    {
      var p, d := params, drho;
      assert SameShape(engine(p, d), p[Loads].g);
      w := engine(params, drho);
      phase := Solved;
    }

    /** `finalize()`. */
    method Finalize()
      requires phase == Solved
      modifies this`phase
      ensures phase == Finalized
    {
      phase := Finalized;
    }
  }
}
