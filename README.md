# Point hierarchy, modelled in Dafny

A model of a small three-level hierarchy of 2D points:

- `Point` (module `Points`, `point.dfy`): a class with two mutable integer
  coordinates. Its distance from the origin is the exact non-negative square
  root of `x*x + y*y`. `p > q` holds when `p` is strictly farther from the
  origin. The string form is `Point (x, y)`, and `repr` equals `str`. The
  example script sorts a list of points in place with `list.sort()`. That
  sort is modelled as an insertion sort over an `array<Point>` that reorders
  references and leaves the points untouched.
- `ColorPoint` (module `ColorPoints`, `color_point.dfy`): adds a `color`
  field. The constructor stores all three values with no check. Its string
  form is `<color: x, y>`. Distance and `>` are inherited, so the order
  depends only on the coordinates.
- `AdvancedPoint` (module `AdvancedPoints`, `advanced_point.dfy`): the only
  addition is a guard against the fixed class-level list `COLORS`. A rejected
  colour gives `Err(InvalidColor(COLORS))`. An accepted one goes through the
  `ColorPoint` constructor.
- `Text` (`text.dfy`): how an f-string renders an `int` (optional `-`, decimal
  digits, no leading zero), and the readings that invert it.

Dafny has no class inheritance here, so the shared geometry lives once at
module level (`SqDistance`, `IsDistance`, `Farther`). Each class's
`GreaterThan` delegates to `Farther`. Python's `list.sort()` compares with `<`.
`Point` defines only `__gt__`, so `a < b` is evaluated as `b > a`. A sorted
list therefore has no `i < j` with `s[i] > s[j]` (`Points.SortedByDistance`).

Each string form is paired with a reader (`ParsePointString`,
`ParseColorPointString`). The proofs show that the reader gives back the
coordinates, and for a coloured point the colour too, for every input.

## Model

| member | source | states |
|---|---|---|
| `Points.SqDistance` | point.py:52 | the squared distance from the origin is zero exactly at the origin |
| `Points.SquareMonotone` | point.py:62-64 | for non-negative distances, `d1 > d2` holds iff `d1*d1 > d2*d2`, so comparing squared distances decides the same as comparing distances |
| `Points.DistanceUnique` | point.py:43-52 | a point has at most one non-negative distance whose square is `x*x + y*y` |
| `Points.Point.DistanceIs` | point.py:43-52 | `d` is the point's distance iff `d >= 0` and `d*d == x*x + y*y`; any two such values are equal, so there is at most one distance |
| `Points.DistanceUniqueAll` | point.py:43-52 | every non-negative root of `x*x + y*y` equals any other, so `distance_orig` has at most one value |
| `Points.Farther` | point.py:54-64 | true iff the first coordinates' distance from the origin is strictly greater than the second's |
| `Points.FartherMeansGreaterDistance` | point.py:62-64 | comparing squared distances agrees with comparing the distances themselves, for all coordinates |
| `Points.Point.constructor` | point.py:14-23 | after construction `x` and `y` equal the arguments, with no validation |
| `Points.Point.SetX` | point.py:80-81 | assigning `x` sets it to the new value and leaves `y` unchanged |
| `Points.Point.GreaterThan` | point.py:54-64 | `p > q` iff p's distance from the origin is strictly greater than q's |
| `Points.Point.ToString` | point.py:25-32 | the string form `Point (x, y)` reads back to exactly `(x, y)` |
| `Points.Point.Repr` | point.py:34-41 | `repr` is the same text as `str`, and it reads back to `(x, y)` |
| `Points.PointStringRoundTrip` | point.py:32 | reading `Point (x, y)` back yields `(x, y)` for every pair of integers |
| `Points.GreaterThanIsStrictOrder` | point.py:54-64 | `>` is irreflexive, asymmetric and transitive; two points are mutually not greater iff they are at equal distance |
| `Points.ThreeFourIsFive` | point.py:94-95 | Point(3, 4) is at distance 5 from the origin and at no other distance |
| `Points.PointStringExample` | point.py:80-83 | a point at (20, 2), as `p` is after `p.x = 20`, prints as `Point (20, 2)` |
| `Points.SortedMeansNondecreasingDistance` | point.py:100-102 | in a sorted list no point is farther from the origin than any point after it |
| `Points.SortByDistance` | point.py:100-102 | sorting leaves the list ordered by non-decreasing distance and a permutation of the input |
| `Points.Insert` | point.py:101 | one insertion step extends the sorted prefix by one element, leaves that prefix holding the same points, leaves the rest of the list unchanged, and so permutes the whole list |
| `Points.InsertStep` | point.py:101 | moving a point left past a farther neighbour keeps the rest sorted, keeps the same points in the prefix and leaves the rest of the list unchanged |
| `Points.InsertDone` | point.py:101 | once the moving point has no farther left neighbour, the prefix is sorted and the list is a permutation of the one the step started from |
| `Text.NatToString` | point.py:32 | a natural number renders as non-empty decimal digits with a leading `0` only for zero, and zero renders as exactly `0` |
| `Text.IntToString` | point.py:32 | an integer renders as a `-` exactly when it is negative, followed by decimal digits with no leading zero; zero renders as exactly `0` |
| `Text.NatToStringRoundTrip` | point.py:32 | the digits of `n` denote `n` |
| `Text.IntToStringRoundTrip` | color_point.py:10 | parsing the rendering of an integer yields that integer |
| `ColorPoints.ColorPoint.constructor` | color_point.py:4-7 | after construction `x`, `y` and `color` equal the arguments verbatim; there is no precondition, so construction never fails |
| `ColorPoints.ColorPoint.DistanceIs` | point.py:43-52 | the inherited `distance_orig`: `d` is the distance iff `d >= 0` and `d*d == x*x + y*y`, and there is at most one such value; the colour plays no part |
| `ColorPoints.ColorPoint.GreaterThan` | color_point.py:3 | the inherited `>` holds iff this point's distance is strictly greater; only `x` and `y` enter |
| `ColorPoints.ColorPoint.ToString` | color_point.py:9-10 | the string form `<color: x, y>` reads back to exactly `(color, x, y)`, for any colour |
| `ColorPoints.ColorPoint.Repr` | point.py:34-41 | the inherited `repr` dispatches to the coloured string form and equals `str` |
| `ColorPoints.ColorPointStringRoundTrip` | color_point.py:10 | reading `<color: x, y>` back yields the colour and both coordinates for every input |
| `ColorPoints.OrderIgnoresColor` | color_point.py:3 | two coloured points compare exactly as plain points at the same coordinates |
| `ColorPoints.RedExampleString` | color_point.py:12-13 | ColorPoint(1, 2, "red") prints as `<red: 1, 2>` |
| `AdvancedPoints.NewAdvancedPoint` | advanced_point.py:5-8 | construction fails with the colour error exactly when `color` is not in `COLORS`; otherwise it returns a fresh point whose `x`, `y`, `color` equal the arguments, with no check on `x` or `y` |
| `AdvancedPoints.AllowList` | advanced_point.py:4 | `COLORS` is the seven-element list from red to periwinkle and does not contain "rojo" |
| `AdvancedPoints.RojoRejected` | advanced_point.py:10 | `AdvancedPoint(1, 2, "rojo")` fails with the colour error |

## Left out

- Floating-point coordinates and the floating-point square root (`**0.5`). Coordinates are integers. The distance is the exact real root, characterised by `IsDistance`. Its value is never computed.
- `Points.Farther`: compares exact squared distances, whereas the source converts the integer `x**2 + y**2` to a float and compares the rounded square roots. Results can differ once the sums exceed about 2**51. With 83886080 = 5·2**24, `Point(83886080, 1) > Point(83886080, 0)` is false in the source but true here: the sums 25·2**48 + 1 and 25·2**48 are both exact floats, yet their square roots round to the same float. From 2**53 on the sum itself can round: `Point(2**27, 1) > Point(2**27, 0)` is false in the source because 2**54 + 1 becomes 2**54. A sum of 2**1024 or more makes the source raise `OverflowError`, which the model does not reproduce.
- `Points.Point.GreaterThan`: its contract relates the result to real distances for every root that exists. That every point has a real root is not proved. A root is exhibited only for (3, 4), by `ThreeFourIsFive`, so the contract is shown to be non-vacuous only where a root is exhibited.
- Rendering of float coordinates in the string forms. Only integer rendering is modelled.
- `Text.IntToString`: renders every integer, whereas Python's `str(int)` by default raises `ValueError` for a value of more than 4300 decimal digits (the `sys.int_max_str_digits` limit). `str` and `repr` of a point with such a coordinate therefore fail in the source, while the model gives a string and its read-back.
- `Points.DistanceUnique`: proves that a point has at most one distance. That every point has one, a real square root of `x*x + y*y`, is not proved.
- Random generation of the example points, the `print` calls and the top-level example code. The list to sort is a parameter of `SortByDistance`.
- `Points.SortByDistance`: does not state stability. Python's sort keeps points at equal distance in their original order; the model proves only ordering and permutation.
- Comparing a `Point` with a `ColorPoint` in one expression. Each class compares with its own kind, and `OrderIgnoresColor` relates the two.
- `AdvancedPoint` as a distinct runtime type. It adds no instance fields: only the class attribute `COLORS` and an overriding `__init__` that guards and then delegates. An accepted point is therefore represented by the `ColorPoint` its parent constructor builds.
- The exception class. `advanced_point.py:1` imports `PointException` from `color_point.py`, but that file does not define it, so as written the import raises `ImportError` and the script never reaches its line 10. Failure is the `PointError` value instead, and `RojoRejected` models line 10 as if the import had succeeded.
- `COLORS` is a constant. The source never changes it, so construction cannot modify it.
- The code has no numeric check in `ColorPoint`, no `add_color`, no `from_tuple` and no distance between two points; neither has the model.
