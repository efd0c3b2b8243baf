/** A point with a colour. The subclass stores its three fields without
    any check, has its own string form "<color: x, y>", and inherits the
    distance and the `>` comparison of the base point unchanged. */
module ColorPoints {
  import opened Text
  import opened Points

  class ColorPoint {
    var x: int
    var y: int
    var color: string

    /** Stores all three values as given; construction never fails. */
    constructor (x: int, y: int, color: string)
      ensures this.x == x && this.y == y && this.color == color
    {
      this.x := x;
      this.y := y;
      this.color := color;
    }

    /** Inherited `distance_orig()`. */
    ghost predicate DistanceIs(d: real): (r: bool)
      reads this
      ensures r <==> d >= 0.0 && d * d == (x * x + y * y) as real
      ensures r ==> forall e :: IsDistance(x, y, e) ==> e == d
    {
      DistanceUniqueAll(x, y, d);
      IsDistance(x, y, d)
    }

    /** Inherited `self > other`: decided by the coordinates alone. */
    predicate GreaterThan(other: ColorPoint): (r: bool)
      reads this, other
      ensures forall d1, d2 :: DistanceIs(d1) && other.DistanceIs(d2) ==> (r <==> d1 > d2)
    {
      Farther(x, y, other.x, other.y)
    }

    /** `str(self)`: "<color: x, y>". The colour and both coordinates can be
        read back, whatever characters the colour holds. */
    function ToString(): (s: string)
      reads this
      ensures ParseColorPointString(s) == Some((color, x, y))
    {
      ColorPointStringRoundTrip(color, x, y);
      ColorPointString(color, x, y)
    }

    /** Inherited `repr(self)`: the base class's `__repr__` calls
        `self.__str__()`, which dispatches to this class's string form. */
    function Repr(): (s: string)
      reads this
      ensures s == ToString()
      ensures ParseColorPointString(s) == Some((color, x, y))
    {
      ToString()
    }
  }

  function ColorPointString(color: string, x: int, y: int): string {
    "<" + color + ": " + IntToString(x) + ", " + IntToString(y) + ">"
  }

  /** Reads "<color: x, y>" back, splitting at the last ", " and then at
      the last ": " before it, since rendered integers hold neither. */
  function ParseColorPointString(s: string): Option<(string, int, int)> {
    if |s| < 2 || s[0] != '<' || s[|s| - 1] != '>' then None
    else
      match SplitAtLast(s[1..|s| - 1], ',')
      case None => None
      case Some((head, sy)) =>
        match SplitAtLast(head, ':')
        case None => None
        case Some((color, sx)) =>
          match (ParseInt(sx), ParseInt(sy))
          case (Some(a), Some(b)) => Some((color, a, b))
          case _ => None
  }

  lemma ColorPointStringRoundTrip(color: string, x: int, y: int)
    ensures ParseColorPointString(ColorPointString(color, x, y)) == Some((color, x, y))
  {
    IntToStringHasNoSeparator(x);
    IntToStringHasNoSeparator(y);
    IntToStringRoundTrip(x);
    IntToStringRoundTrip(y);
    ColorFormReadBack(color, IntToString(x), IntToString(y), x, y);
  }

  /** The reading of "<color: sx, sy>" for any two coordinate texts that
      hold no separator and read back as integers. */
  lemma ColorFormReadBack(color: string, sx: string, sy: string, x: int, y: int)
    requires forall k :: 0 <= k < |sx| ==> sx[k] != ':'
    requires forall k :: 0 <= k < |sy| ==> sy[k] != ','
    requires ParseInt(sx) == Some(x) && ParseInt(sy) == Some(y)
    ensures ParseColorPointString("<" + color + ": " + sx + ", " + sy + ">") == Some((color, x, y))
  {
    var s := "<" + color + ": " + sx + ", " + sy + ">";
    var head := color + [':', ' '] + sx;
    var body := head + [',', ' '] + sy;
    assert s[1..|s| - 1] == body;
    SeparatorSplit(head, ',', sy);
    SeparatorSplit(color, ':', sx);
  }

  /** The colour plays no part in the order: two coloured points compare
      exactly as two plain points at the same coordinates do. */
  lemma OrderIgnoresColor(p: ColorPoint, q: ColorPoint, p0: Point, q0: Point)
    requires p.x == p0.x && p.y == p0.y && q.x == q0.x && q.y == q0.y
    ensures p.GreaterThan(q) <==> p0.GreaterThan(q0)
  {
  }

  /** `ColorPoint(1, 2, "red")` prints as "<red: 1, 2>". */
  lemma RedExampleString(p: ColorPoint)
    requires p.x == 1 && p.y == 2 && p.color == "red"
    ensures p.ToString() == "<red: 1, 2>"
  {
  }
}
