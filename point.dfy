/** The base point class: two mutable integer coordinates, the distance
    from the origin, "greater than" meaning "farther from the origin", the
    string form, and the in-place sort of a list of points that relies on
    that comparison. */
module Points {
  import opened Text

  /** The squared distance of (x, y) from the origin. */
  function SqDistance(x: int, y: int): (r: nat)
    ensures r == 0 <==> x == 0 && y == 0
  {
    x * x + y * y
  }

  /** `d` is the Euclidean distance of (x, y) from the origin, that is the
      non-negative square root of x*x + y*y. The source computes it in
      floating point; here it is exact. */
  ghost predicate IsDistance(x: int, y: int, d: real) {
    d >= 0.0 && d * d == SqDistance(x, y) as real
  }

  /** Squaring is strictly monotone on the non-negative reals. */
  lemma SquareMonotone(d1: real, d2: real)
    requires d1 >= 0.0 && d2 >= 0.0
    ensures d1 > d2 <==> d1 * d1 > d2 * d2
  {
    if d1 > d2 {
      ProductPositive(d1 - d2, d1 + d2);
      assert d1 * d1 - d2 * d2 == (d1 - d2) * (d1 + d2);
    } else if d1 < d2 {
      ProductPositive(d2 - d1, d1 + d2);
      assert d2 * d2 - d1 * d1 == (d2 - d1) * (d1 + d2);
    }
  }

  lemma ProductPositive(a: real, b: real)
    requires a > 0.0 && b > 0.0
    ensures a * b > 0.0
  {
  }

  /** A point has at most one distance from the origin. */
  lemma DistanceUnique(x: int, y: int, d1: real, d2: real)
    requires IsDistance(x, y, d1) && IsDistance(x, y, d2)
    ensures d1 == d2
  {
    SquareMonotone(d1, d2);
    SquareMonotone(d2, d1);
  }

  /** Every distance of (x, y) from the origin is the same number. */
  lemma DistanceUniqueAll(x: int, y: int, d: real)
    ensures IsDistance(x, y, d) ==> forall e :: IsDistance(x, y, e) ==> e == d
  {
    forall e | IsDistance(x, y, d) && IsDistance(x, y, e)
      ensures e == d
    {
      DistanceUnique(x, y, d, e);
    }
  }

  /** (x1, y1) is strictly farther from the origin than (x2, y2): the
      comparison behind `>`, done on squared distances. */
  predicate Farther(x1: int, y1: int, x2: int, y2: int): (r: bool)
    ensures forall d1, d2 :: IsDistance(x1, y1, d1) && IsDistance(x2, y2, d2) ==> (r <==> d1 > d2)
  {
    FartherMeansGreaterDistance(x1, y1, x2, y2);
    SqDistance(x1, y1) > SqDistance(x2, y2)
  }

  lemma FartherMeansGreaterDistance(x1: int, y1: int, x2: int, y2: int)
    ensures forall d1, d2 :: IsDistance(x1, y1, d1) && IsDistance(x2, y2, d2) ==>
      (SqDistance(x1, y1) > SqDistance(x2, y2) <==> d1 > d2)
  {
    forall d1, d2 | IsDistance(x1, y1, d1) && IsDistance(x2, y2, d2)
      ensures SqDistance(x1, y1) > SqDistance(x2, y2) <==> d1 > d2
    {
      SquareMonotone(d1, d2);
    }
  }

  class Point {
    var x: int
    var y: int

    /** Stores both coordinates as given. */
    constructor (x: int, y: int)
      ensures this.x == x && this.y == y
    {
      this.x := x;
      this.y := y;
    }

    /** Attribute assignment `p.x = v`. */
    method SetX(v: int)
      modifies this
      ensures x == v && y == old(y)
    {
      x := v;
    }

    /** `distance_orig()`: `d` is this point's distance from the origin. */
    ghost predicate DistanceIs(d: real): (r: bool)
      reads this
      ensures r <==> d >= 0.0 && d * d == (x * x + y * y) as real
      ensures r ==> forall e :: IsDistance(x, y, e) ==> e == d
    {
      DistanceUniqueAll(x, y, d);
      IsDistance(x, y, d)
    }

    /** `self > other`. */
    predicate GreaterThan(other: Point): (r: bool)
      reads this, other
      ensures forall d1, d2 :: DistanceIs(d1) && other.DistanceIs(d2) ==> (r <==> d1 > d2)
    {
      Farther(x, y, other.x, other.y)
    }

    /** `str(self)`: "Point (x, y)". The rendering can be read back. */
    function ToString(): (s: string)
      reads this
      ensures ParsePointString(s) == Some((x, y))
    {
      PointStringRoundTrip(x, y);
      PointString(x, y)
    }

    /** `repr(self)` is the same text as `str(self)`. */
    function Repr(): (s: string)
      reads this
      ensures s == ToString()
      ensures ParsePointString(s) == Some((x, y))
    {
      ToString()
    }
  }

  function PointString(x: int, y: int): string {
    "Point (" + IntToString(x) + ", " + IntToString(y) + ")"
  }

  /** Reads "Point (x, y)" back into its coordinates, splitting at the
      last ", " since a rendered integer holds no comma. */
  function ParsePointString(s: string): Option<(int, int)> {
    if |s| < 8 || s[..7] != "Point (" || s[|s| - 1] != ')' then None
    else
      match SplitAtLast(s[7..|s| - 1], ',')
      case None => None
      case Some((sx, sy)) =>
        match (ParseInt(sx), ParseInt(sy))
        case (Some(a), Some(b)) => Some((a, b))
        case _ => None
  }

  lemma PointStringRoundTrip(x: int, y: int)
    ensures ParsePointString(PointString(x, y)) == Some((x, y))
  {
    IntToStringHasNoSeparator(y);
    IntToStringRoundTrip(x);
    IntToStringRoundTrip(y);
    PointFormReadBack(IntToString(x), IntToString(y), x, y);
  }

  /** The reading of "Point (sx, sy)" for any two coordinate texts that
      read back as integers, the second holding no comma. */
  lemma PointFormReadBack(sx: string, sy: string, x: int, y: int)
    requires forall k :: 0 <= k < |sy| ==> sy[k] != ','
    requires ParseInt(sx) == Some(x) && ParseInt(sy) == Some(y)
    ensures ParsePointString("Point (" + sx + ", " + sy + ")") == Some((x, y))
  {
    var s := "Point (" + sx + ", " + sy + ")";
    var body := sx + [',', ' '] + sy;
    assert s[..7] == "Point (";
    assert s[7..|s| - 1] == body;
    SeparatorSplit(sx, ',', sy);
  }

  /** `>` is a strict order by distance; points at equal distance are
      mutually not greater, and any two points are comparable by distance. */
  lemma GreaterThanIsStrictOrder(p: Point, q: Point, r: Point)
    ensures !p.GreaterThan(p)
    ensures p.GreaterThan(q) ==> !q.GreaterThan(p)
    ensures p.GreaterThan(q) && q.GreaterThan(r) ==> p.GreaterThan(r)
    ensures !p.GreaterThan(q) && !q.GreaterThan(p) <==> SqDistance(p.x, p.y) == SqDistance(q.x, q.y)
  {
  }

  /** Point(3, 4) is at distance 5 from the origin, and at no other. */
  lemma ThreeFourIsFive(p: Point)
    requires p.x == 3 && p.y == 4
    ensures p.DistanceIs(5.0)
    ensures forall d :: p.DistanceIs(d) ==> d == 5.0
  {
    forall d | p.DistanceIs(d)
      ensures d == 5.0
    {
      DistanceUnique(3, 4, d, 5.0);
    }
  }

  /** Point(20, 2) prints as "Point (20, 2)". */
  lemma PointStringExample(p: Point)
    requires p.x == 20 && p.y == 2
    ensures p.ToString() == "Point (20, 2)"
  {
  }

  /** What `list.sort()` leaves behind: since the class defines only `>`,
      `a < b` falls back to `b > a`, and the sort guarantees that no later
      element is smaller than an earlier one. */
  ghost predicate SortedByDistance(s: seq<Point>)
    reads s
  {
    forall i, j :: 0 <= i < j < |s| ==> !s[i].GreaterThan(s[j])
  }

  /** In a sorted list, a point never lies farther from the origin than
      any point after it. */
  lemma SortedMeansNondecreasingDistance(s: seq<Point>, i: nat, j: nat, di: real, dj: real)
    requires SortedByDistance(s)
    requires i < j < |s|
    requires s[i].DistanceIs(di) && s[j].DistanceIs(dj)
    ensures di <= dj
  {
  }

  /** The quantity the sort orders by: the squared distance, which orders
      points as their distances do. */
  ghost function Key(p: Point): nat
    reads p
  {
    SqDistance(p.x, p.y)
  }

  /** The first `n` points are in non-decreasing order of distance. */
  ghost predicate SortedPrefix(s: seq<Point>, n: nat)
    reads s
  {
    forall k, l :: 0 <= k < l < n && l < |s| ==> Key(s[k]) <= Key(s[l])
  }

  /** `points.sort()`: reorders the references in place so that distances
      from the origin never decrease; the points themselves are untouched. */
  method SortByDistance(a: array<Point>)
    modifies a
    ensures SortedByDistance(a[..])
    ensures multiset(a[..]) == old(multiset(a[..]))
  {
    var i := 0;
    while i < a.Length
      invariant i <= a.Length
      invariant SortedPrefix(a[..], i)
      invariant multiset(a[..]) == old(multiset(a[..]))
    {
      Insert(a, i);
      i := i + 1;
    }
  }

  /** One step of the sort: moves `a[i]` left past every element farther
      from the origin than it, so that `a[..i+1]` becomes sorted. */
  method Insert(a: array<Point>, i: nat)
    requires i < a.Length
    requires SortedPrefix(a[..], i)
    modifies a
    ensures SortedPrefix(a[..], i + 1)
    ensures multiset(a[..i + 1]) == old(multiset(a[..i + 1]))
    ensures a[i + 1..] == old(a[i + 1..])
    ensures multiset(a[..]) == old(multiset(a[..]))
  {
    ghost var s0 := a[..];
    var j: nat := i;
    while j > 0 && a[j - 1].GreaterThan(a[j])
      invariant InsertInvariant(a[..], s0, i, j)
    {
      ghost var before := a[..];
      Swap(a, j - 1, j);
      InsertStep(before, a[..], s0, i, j);
      j := j - 1;
    }
    InsertDone(a[..], s0, i, j);
  }

  /** What holds while `a[i]` moves left from `s0`, the array on entry: the
      prefix is sorted but for the moving point at `j`, it holds the same
      points as on entry, and the rest is untouched. */
  ghost predicate InsertInvariant(s: seq<Point>, s0: seq<Point>, n: nat, j: nat)
    reads s
  {
    && |s| == |s0|
    && SortedExcept(s, n, j)
    && multiset(s[..n + 1]) == multiset(s0[..n + 1])
    && s[n + 1..] == s0[n + 1..]
  }

  /** Moving the point at `j` past a farther neighbour keeps the invariant. */
  lemma InsertStep(s: seq<Point>, t: seq<Point>, s0: seq<Point>, n: nat, j: nat)
    requires InsertInvariant(s, s0, n, j) && 0 < j
    requires Key(s[j - 1]) > Key(s[j])
    requires t == s[j - 1 := s[j]][j := s[j - 1]]
    ensures InsertInvariant(t, s0, n, j - 1)
  {
    SwapInPrefix(s, t, j - 1, j, n + 1);
    SwapKeepsSortedExcept(s, t, n, j);
  }

  /** Once the moving point has no farther left neighbour, the prefix is
      sorted and the whole array is a permutation of the entry array. */
  lemma InsertDone(s: seq<Point>, s0: seq<Point>, n: nat, j: nat)
    requires InsertInvariant(s, s0, n, j)
    requires j == 0 || Key(s[j - 1]) <= Key(s[j])
    ensures SortedPrefix(s, n + 1)
    ensures multiset(s) == multiset(s0)
  {
    SortedExceptDone(s, n, j);
    PrefixAndTail(s0, s, n + 1);
  }

  /** `s[..n+1]` is sorted by squared distance except that the element at
      `j` may be out of place: it is the one still moving left. */
  ghost predicate SortedExcept(s: seq<Point>, n: nat, j: nat)
    reads s
  {
    && n < |s| && j <= n
    && (forall k, l :: 0 <= k < l <= n && l != j ==> Key(s[k]) <= Key(s[l]))
    && (0 < j < n ==> Key(s[j - 1]) <= Key(s[j + 1]))
  }

  /** The sortedness half of `InsertStep`. */
  lemma SwapKeepsSortedExcept(s: seq<Point>, t: seq<Point>, n: nat, j: nat)
    requires SortedExcept(s, n, j) && 0 < j
    requires Key(s[j - 1]) > Key(s[j])
    requires t == s[j - 1 := s[j]][j := s[j - 1]]
    ensures SortedExcept(t, n, j - 1)
  {
  }

  /** The sortedness half of `InsertDone`. */
  lemma SortedExceptDone(s: seq<Point>, n: nat, j: nat)
    requires SortedExcept(s, n, j)
    requires j == 0 || Key(s[j - 1]) <= Key(s[j])
    ensures SortedPrefix(s, n + 1)
  {
  }

  /** Exchanges the references at `i` and `j`. */
  method Swap(a: array<Point>, i: nat, j: nat)
    requires i < j < a.Length
    modifies a
    ensures a[..] == old(a[..])[i := old(a[j])][j := old(a[i])]
    ensures multiset(a[..]) == old(multiset(a[..]))
  {
    a[i], a[j] := a[j], a[i];
  }

  /** Permuting a prefix and keeping the rest permutes the whole. */
  lemma PrefixAndTail(s: seq<Point>, t: seq<Point>, n: nat)
    requires n <= |s| == |t|
    requires multiset(t[..n]) == multiset(s[..n])
    requires t[n..] == s[n..]
    ensures multiset(t) == multiset(s)
  {
    assert s == s[..n] + s[n..];
    assert t == t[..n] + t[n..];
  }

  /** Exchanging two elements of a prefix permutes that prefix and leaves
      the rest of the sequence as it was. */
  lemma SwapInPrefix(s: seq<Point>, t: seq<Point>, i: nat, j: nat, n: nat)
    requires i < j < n <= |s|
    requires t == s[i := s[j]][j := s[i]]
    ensures multiset(t[..n]) == multiset(s[..n])
    ensures t[n..] == s[n..]
  {
    assert t[..n] == s[..n][i := s[j]][j := s[i]];
  }
}
