# RANSAC line fitting, modelled in Dafny

This project models the small RANSAC (random sample consensus) line fitter in
`assets/code/5/ransac.py`. It has three parts:

- `get_coefficients`, the implicit line `a·x + b·y + c = 0` through two points.
- `distance`, the perpendicular distance from a point to such a line.
- `ransac(input_data, iterations, threshold)`. It runs `iterations` rounds. Each round:
  - shuffles a copy of the input;
  - pops the last two points of the copy;
  - builds the line through them;
  - appends every remaining point to `tmp_inliers` (distance below `threshold`) or to `tmp_outliers`.

  A round's result replaces the best so far only when it has strictly more
  inliers. The function returns `a, b, c, inliers, outliers`; before any
  round has replaced it, that state is `0, 0, 0, [], []`.

Two modules:

- `Geometry` (`geometry.dfy`) covers the two helpers:
  - Points and lines are exact reals.
  - `SquaredDistance` is the square of `distance`, because Dafny has no square root.
  - The test `distance < threshold` becomes `IsInlier`: a positive threshold, and a squared distance below the squared threshold. `DistanceTest` proves this agrees with `d < threshold` for `d` the non-negative square root of the squared distance.
  - `FootIsNearest` proves that the formula really is the distance to the nearest point of the line.
- `Ransac` (`ransac.dfy`) covers the search itself:
  - `random.shuffle` becomes an input: round `k` uses `orders[k]`, a permutation of the input's indices.
  - The two exceptions the loop can raise become values of `Result`:
    - `IndexError` when `pop()` runs on a list with fewer than two points;
    - `ZeroDivisionError` when `distance` is taken to the zero line that two identical points produce.
  - `iterations` is a real number. The loop `while iteration_number < iterations` runs `RoundCount(iterations)` rounds, the least whole number not below it (three for 2.5). An integer argument is the special case.
  - `RansacWithDefaults` is the call with the defaults `iterations=10, threshold=0.1`.
  - The method `Ransac` is the loop as written: a `while` over the rounds, with a `for` over the remaining points in `Classify`. It reads the input array without modifying it, like `input_data.copy()`.
  - It is proved equal to `Best(Rounds(...))`. That pure specification separates:
    - `Iteration`, one round;
    - `Keep`, the best-so-far bookkeeping;
    - `Best`, the fold of `Keep` over the rounds.
  - The lemmas about those functions state what the search guarantees.

On these points the model follows the code:

- Two identical popped points make the code raise `ZeroDivisionError`, not treat the distance as infinite. It raises only when at least one point remains to be classified, since `distance` is never called otherwise.
- `ransac` demands nothing of `iterations` or `threshold`:
  - zero or negative `iterations` returns the initial state;
  - a threshold that is not positive admits no inlier.

## Model

| member | source | states |
|---|---|---|
| Geometry.GetCoefficients | assets/code/5/ransac.py:10-15 | both defining points lie on the returned line; the line is degenerate (`a = b = 0`) exactly when the two points coincide, and is then the zero triple |
| Geometry.LineIsCollinearity | assets/code/5/ransac.py:10-15 | the line's equation evaluated at any point is the cross product of `p2 - p1` and `q - p1`, i.e. the line is the set of points collinear with the pair |
| Geometry.SquaredDistance | assets/code/5/ransac.py:6-7 | the squared distance is never negative and is zero exactly when the point is on the line |
| Geometry.FootIsNearest | assets/code/5/ransac.py:6-7 | the distance formula is the perpendicular distance: the foot of the perpendicular is on the line at that distance, and no point of the line is closer |
| Geometry.DistanceTest | assets/code/5/ransac.py:41-43 | for `d` the non-negative square root of the squared distance, `d < threshold` holds exactly when `IsInlier` does, whatever the sign of the threshold |
| Geometry.InlierSquaredTest | assets/code/5/ransac.py:41-43 | the division-free form of the test: `IsInlier` holds exactly when the threshold is positive and `(a·x + b·y + c)² < threshold²·(a² + b²)` |
| Ransac.SplitMembers | assets/code/5/ransac.py:40-46 | a point is in `tmp_inliers` exactly when it is a remaining point below the threshold, and in `tmp_outliers` exactly when it is a remaining point not below it |
| Ransac.SplitIsPartition | assets/code/5/ransac.py:40-46 | the two lists together hold the remaining points, each as often as it occurs |
| Ransac.SplitSizes | assets/code/5/ransac.py:40-46 | the two lists' lengths add up to the number of remaining points |
| Ransac.InliersKeepOrder | assets/code/5/ransac.py:40-44 | `tmp_inliers` keeps the visiting order: the inliers of a concatenation are the concatenation of the inliers |
| Ransac.OutliersKeepOrder | assets/code/5/ransac.py:40-46 | the same for `tmp_outliers` |
| Ransac.InliersStep | assets/code/5/ransac.py:43-44 | visiting one more point appends it to `tmp_inliers` exactly when it is below the threshold |
| Ransac.OutliersStep | assets/code/5/ransac.py:45-46 | visiting one more point appends it to `tmp_outliers` exactly when it is not below the threshold |
| Ransac.ReorderIsPermutation | assets/code/5/ransac.py:29-30 | the shuffled copy has the input's length and holds the input's points, each as often |
| Ransac.PopTwo | assets/code/5/ransac.py:32-33 | the two popped points and the remaining list together are the whole shuffled copy |
| Ransac.Iteration | assets/code/5/ransac.py:29-46 | one round raises `IndexError` exactly when fewer than two points are shuffled; it raises `ZeroDivisionError` exactly when the popped pair coincides and a point remains; otherwise its line is the one through the last and second-to-last points, and its lists hold exactly the other points; when a point remains, the line is not degenerate, the inliers are exactly the remaining points below the threshold and the outliers exactly those not below it |
| Ransac.ErrorEndsSearch | assets/code/5/ransac.py:25-53 | once a round has raised, the search ends with that exception, whatever later rounds would do |
| Ransac.BestOk | assets/code/5/ransac.py:25-53 | the search returns normally exactly when no round raises |
| Ransac.BestFirstError | assets/code/5/ransac.py:25-53 | a failed search raises the exception of the first round that raised, and every earlier round succeeded |
| Ransac.BestIsMaximum | assets/code/5/ransac.py:48-51 | no round found more inliers than the result; with no inlier at all the result is the initial `0, 0, 0, [], []` |
| Ransac.BestIsFirst | assets/code/5/ransac.py:48-51 | with at least one inlier the result is a round's own result, and every earlier round found strictly fewer inliers (the first maximum wins) |
| Ransac.BestMonotone | assets/code/5/ransac.py:48-51 | more rounds never lower the best inlier count |
| Ransac.SearchPartitionsInput | assets/code/5/ransac.py:29-51 | a successful search with inliers returns a non-degenerate line through two input points; its inliers and outliers are exactly the rest of the input, every inlier is below the threshold of that line and every outlier is not |
| Ransac.RoundPartitionsInput | assets/code/5/ransac.py:29-46 | a successful round's line passes through two input points, and its lists hold exactly the other input points; with an inlier, the line is not degenerate, its inliers are below the threshold and its outliers are not |
| Ransac.SearchIndexError | assets/code/5/ransac.py:32-33 | the search raises `IndexError` exactly when at least one round runs and the input has fewer than two points |
| Ransac.Classify | assets/code/5/ransac.py:40-46 | the classification loop returns the split of the remaining points, or `ZeroDivisionError` when it must measure a distance to a degenerate line |
| Ransac.RunIteration | assets/code/5/ransac.py:32-46 | the popping and classification code computes exactly one round as specified by `Iteration` |
| Ransac.RoundCount | assets/code/5/ransac.py:23-25 | the number of rounds is the least whole number not below `iterations`, and zero when `iterations` is not positive |
| Ransac.Ransac | assets/code/5/ransac.py:18-55 | the loop runs `RoundCount(iterations)` rounds and returns the fold of the rounds, `Best(Rounds(...))`, without modifying the input; with no round it returns the initial state |
| Ransac.RansacWithDefaults | assets/code/5/ransac.py:18 | the call with the default arguments runs ten rounds at threshold 0.1 |

## Left out

- `random.shuffle` is not modelled as a random source. Each round's permutation is an input, so every property holds for every possible shuffle.
- Floating point is replaced by exact reals:
  - rounding, overflow, NaN and infinities are not modelled;
  - two distinct points whose line is degenerate only after rounding are not modelled.
- `math.sqrt` is not modelled. The distance is represented by its square, and `distance < threshold` by the equivalent comparison of squares.
- Geometry.SquaredDistance: requires a non-degenerate line. The division by zero the source raises there is modelled where `distance` is called, in `Iteration` and `Classify`.
- NumPy scalar coordinates are not modelled. With them, the distance to a degenerate line is `nan` with a warning instead of a `ZeroDivisionError`, and every remaining point becomes an outlier. The model follows Python `int` and `float` coordinates, which raise.
- `iterations` values that are not numbers (NaN, infinity, other types) are not modelled; `iterations` is any real number.
- Points are pairs of numbers. The source accepts any indexable `point[0]`, `point[1]`; other shapes are not modelled.
- `list.pop()` is modelled on immutable sequences: the copy is sliced rather than shortened in place.
- The unused `numpy` import is not part of this model.
- The other scripts in the repository are not part of this model: the GPIO and keyboard programs, and the named-pipe reader and writer.
