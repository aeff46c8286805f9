/** The two pieces of GIS platform state the driver touches: the process-wide
    current region, which `g.region` overwrites, and the raster workspace,
    which raster reads, raster writes and `r.colors` act on. */
module Platform {
  import opened Grids
  import Regions

  datatype Option<T> = None | Some(value: T)

  /** The projection code of a latitude/longitude region. */
  const LatLon: int := 3

  /** The current processing region. `proj` is the projection code whose
      digit the driver reads from the region environment string. */
  class GisRegion {
    var n: real
    var s: real
    var e: real
    var w: real
    var nsres: real
    var ewres: real
    var rows: int
    var cols: int
    var proj: int

    /** The region as a value. */
    function Value(): Regions.Region
      reads this
    {
      Regions.Region(n, s, e, w, nsres, ewres, rows, cols)
    }

    ghost predicate Valid()
      reads this
    {
      Regions.Valid(Value())
    }

    constructor (r: Regions.Region, proj: int)
      requires Regions.Valid(r)
      ensures Valid() && Value() == r && this.proj == proj
    {
      n, s, e, w := r.n, r.s, r.e, r.w;
      nsres, ewres := r.nsres, r.ewres;
      rows, cols := r.rows, r.cols;
      this.proj := proj;
    }

    /** `g.region n= s= e= w= rows= cols=`. */
    method SetWithCounts(north: real, south: real, east: real, west: real, nrows: int, ncols: int)
      requires Valid()
      requires north > south && east > west && nrows >= 1 && ncols >= 1
      modifies this
      ensures Valid() && proj == old(proj)
      ensures Value() == Regions.WithCounts(north, south, east, west, nrows, ncols)
    {
      var r := Regions.WithCounts(north, south, east, west, nrows, ncols);
      n, s, e, w := r.n, r.s, r.e, r.w;
      nsres, ewres := r.nsres, r.ewres;
      rows, cols := r.rows, r.cols;
    }

    /** `g.region n= s= e= w=`. */
    method SetBounds(north: real, south: real, east: real, west: real)
      requires Valid()
      requires north > south && east > west
      modifies this
      ensures Valid() && proj == old(proj)
      ensures Value() == Regions.WithBounds(old(Value()), north, south, east, west)
    {
      var r := Regions.WithBounds(Value(), north, south, east, west);
      n, s, e, w := r.n, r.s, r.e, r.w;
      nsres, ewres := r.nsres, r.ewres;
      rows, cols := r.rows, r.cols;
    }
  }

  /** The raster maps of the GIS workspace. `readLog` lists, in order, the maps
      read through the array interface; `colors` holds the colour table
      assigned to each map. */
  class Workspace {
    var rasters: map<string, Grid>
    var colors: map<string, string>
    var readLog: seq<string>

    constructor (rasters: map<string, Grid>)
      ensures this.rasters == rasters && colors == map[] && readLog == []
    {
      this.rasters := rasters;
      colors := map[];
      readLog := [];
    }

    /** The map `name`, if present, holds a rows x cols grid: it is aligned
        to a region of that shape. */
    predicate AlignedTo(name: string, rows: int, cols: int)
      reads this
    {
      name in rasters ==> IsMatrix(rasters[name], rows, cols)
    }

    /** `garray.array().read(name)`: the map's values, or nothing when the
        workspace has no such map. Every attempt is logged. */
    method Read(name: string) returns (g: Option<Grid>)
      modifies this`readLog
      ensures readLog == old(readLog) + [name]
      ensures g == if name in rasters then Some(rasters[name]) else None
    {
      readLog := readLog + [name];
      g := if name in rasters then Some(rasters[name]) else None;
    }

    /** `buffer.write(name, overwrite=True)`. */
    method Write(name: string, values: Grid)
      modifies this`rasters
      ensures rasters == old(rasters)[name := values]
    {
      rasters := rasters[name := values];
    }

    /** `r.colors map=name color=table`. */
    method SetColors(name: string, table: string)
      modifies this`colors
      ensures colors == old(colors)[name := table]
    {
      colors := colors[name := table];
    }
  }
}
