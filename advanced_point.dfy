/** A coloured point whose colour must come from a fixed class-level
    allow-list. The subclass adds no fields and no behaviour besides that
    check: once the colour is accepted it delegates to the coloured-point
    constructor, so an accepted point is the `ColorPoint` that constructor
    builds. */
module AdvancedPoints {
  import opened ColorPoints

  /** The class-level allow-list `COLORS`. */
  const COLORS: seq<string> := ["red", "blue", "green", "yellow", "black", "white", "periwinkle"]

  /** The error raised by a rejected construction; its message lists the
      allowed colours. */
  datatype PointError = InvalidColor(allowed: seq<string>)

  datatype Result<T> = Ok(value: T) | Err(error: PointError)

  /** `AdvancedPoint(x, y, color)`: fails exactly when `color` is not in
      `COLORS`; otherwise builds the point through the parent constructor.
      No other argument is checked. */
  method NewAdvancedPoint(x: int, y: int, color: string) returns (r: Result<ColorPoint>)
    ensures r.Err? <==> color !in COLORS
    ensures r.Err? ==> r.error == InvalidColor(COLORS)
    ensures r.Ok? ==> fresh(r.value)
    ensures r.Ok? ==> r.value.x == x && r.value.y == y && r.value.color == color
  {
    if color !in COLORS {
      return Err(InvalidColor(COLORS));
    }
    var p := new ColorPoint(x, y, color);
    r := Ok(p);
  }

  /** The allow-list holds exactly seven colours, with "red" first and
      "periwinkle" last, and does not hold "rojo". */
  lemma AllowList()
    ensures |COLORS| == 7
    ensures COLORS[0] == "red" && COLORS[6] == "periwinkle"
    ensures "rojo" !in COLORS
  {
  }

  /** `AdvancedPoint(1, 2, "rojo")` raises the point error. */
  method RojoRejected() returns (r: Result<ColorPoint>)
    ensures r == Err(InvalidColor(COLORS))
  {
    AllowList();
    r := NewAdvancedPoint(1, 2, "rojo");
  }
}
