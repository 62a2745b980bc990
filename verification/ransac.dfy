/**
  The consensus search `ransac(input_data, iterations, threshold)`.

  Each of the `iterations` rounds shuffles a copy of the input, pops its last
  two points as the defining pair, splits the rest into inliers and outliers
  of the line through that pair, and keeps the round's result when it has
  strictly more inliers than the best so far.

  The random source is a parameter: round `k` receives `orders[k]`, the
  permutation of indices that `random.shuffle` applies to the copy. The
  Python exceptions the loop can raise (`IndexError` from `pop()` on a short
  list, `ZeroDivisionError` from the distance to a degenerate line) are
  results of the model.
 */
module Ransac {
  import opened Geometry

  /** The five values `ransac` returns: `a, b, c, inliers, outliers`. */
  datatype Fit = Fit(line: Line, inliers: seq<Point>, outliers: seq<Point>)

  /** The exceptions raised inside the loop. */
  datatype Error = IndexError | ZeroDivisionError

  datatype Result<T> = Ok(value: T) | Err(error: Error)

  /** The best-so-far state before any round has replaced it: `0, 0, 0, [], []`. */
  const NoFit := Fit(Line(0.0, 0.0, 0.0), [], [])

  // ---------------------------------------------------------------------------
  // Splitting the remaining points of one round
  // ---------------------------------------------------------------------------

  /** The points appended to `tmp_inliers`, in the order the loop visits them. */
  function Inliers(s: seq<Point>, l: Line, threshold: real): (r: seq<Point>)
    requires s == [] || !Degenerate(l)
    decreases |s|
  {
    if s == [] then []
    else (if IsInlier(s[0], l, threshold) then [s[0]] else []) + Inliers(s[1..], l, threshold)
  }

  /** The points appended to `tmp_outliers`, in the order the loop visits them. */
  function Outliers(s: seq<Point>, l: Line, threshold: real): (r: seq<Point>)
    requires s == [] || !Degenerate(l)
    decreases |s|
  {
    if s == [] then []
    else (if IsInlier(s[0], l, threshold) then [] else [s[0]]) + Outliers(s[1..], l, threshold)
  }

  /** `tmp_inliers` holds exactly the remaining points nearer than the threshold, `tmp_outliers` exactly the others. */
  lemma {:induction false} SplitMembers(s: seq<Point>, l: Line, threshold: real)
    requires s == [] || !Degenerate(l)
    ensures forall p :: p in Inliers(s, l, threshold) <==> p in s && IsInlier(p, l, threshold)
    ensures forall p :: p in Outliers(s, l, threshold) <==> p in s && !IsInlier(p, l, threshold)
    decreases |s|
  {
    if s != [] {
      SplitMembers(s[1..], l, threshold);
      assert s == [s[0]] + s[1..];
    }
  }

  /** Every remaining point goes to exactly one of the two lists, as often as it occurs. */
  lemma {:induction false} SplitIsPartition(s: seq<Point>, l: Line, threshold: real)
    requires s == [] || !Degenerate(l)
    ensures multiset(Inliers(s, l, threshold)) + multiset(Outliers(s, l, threshold)) == multiset(s)
    decreases |s|
  {
    if s != [] {
      SplitIsPartition(s[1..], l, threshold);
      assert s == [s[0]] + s[1..];
    }
  }

  /** No remaining point is lost or duplicated: the two lists together are as long as the rest. */
  lemma SplitSizes(s: seq<Point>, l: Line, threshold: real)
    requires s == [] || !Degenerate(l)
    ensures |Inliers(s, l, threshold)| + |Outliers(s, l, threshold)| == |s|
  {
    SplitIsPartition(s, l, threshold);
    var inl, out := Inliers(s, l, threshold), Outliers(s, l, threshold);
    assert |multiset(inl) + multiset(out)| == |multiset(s)|;
  }

  /** `tmp_inliers` keeps the visiting order: splitting a concatenation concatenates the splits. */
  lemma {:induction false} InliersKeepOrder(s: seq<Point>, t: seq<Point>, l: Line, threshold: real)
    requires !Degenerate(l)
    ensures Inliers(s + t, l, threshold) == Inliers(s, l, threshold) + Inliers(t, l, threshold)
    decreases |s|
  {
    if s == [] {
      assert s + t == t;
    } else {
      assert (s + t)[0] == s[0];
      assert (s + t)[1..] == s[1..] + t;
      InliersKeepOrder(s[1..], t, l, threshold);
    }
  }

  /** `tmp_outliers` keeps the visiting order: splitting a concatenation concatenates the splits. */
  lemma {:induction false} OutliersKeepOrder(s: seq<Point>, t: seq<Point>, l: Line, threshold: real)
    requires !Degenerate(l)
    ensures Outliers(s + t, l, threshold) == Outliers(s, l, threshold) + Outliers(t, l, threshold)
    decreases |s|
  {
    if s == [] {
      assert s + t == t;
    } else {
      assert (s + t)[0] == s[0];
      assert (s + t)[1..] == s[1..] + t;
      OutliersKeepOrder(s[1..], t, l, threshold);
    }
  }

  /** Visiting one more point appends it to `tmp_inliers` exactly when its distance is below the threshold. */
  lemma InliersStep(s: seq<Point>, p: Point, l: Line, threshold: real)
    requires !Degenerate(l)
    ensures Inliers(s + [p], l, threshold)
        == Inliers(s, l, threshold) + if IsInlier(p, l, threshold) then [p] else []
  {
    InliersKeepOrder(s, [p], l, threshold);
    assert [p][1..] == [];
    assert Inliers([p], l, threshold) == if IsInlier(p, l, threshold) then [p] else [];
  }

  /** Visiting one more point appends it to `tmp_outliers` exactly when its distance is not below the threshold. */
  lemma OutliersStep(s: seq<Point>, p: Point, l: Line, threshold: real)
    requires !Degenerate(l)
    ensures Outliers(s + [p], l, threshold)
        == Outliers(s, l, threshold) + if IsInlier(p, l, threshold) then [] else [p]
  {
    OutliersKeepOrder(s, [p], l, threshold);
    assert [p][1..] == [];
    assert Outliers([p], l, threshold) == if IsInlier(p, l, threshold) then [] else [p];
  }

  // ---------------------------------------------------------------------------
  // The shuffled copy
  // ---------------------------------------------------------------------------

  /** `order` is a permutation of the indices `0 .. n-1`. */
  predicate IsShuffle(order: seq<nat>, n: nat) {
    && |order| == n
    && (forall i :: 0 <= i < n ==> order[i] < n)
    && (forall i, j :: 0 <= i < j < n ==> order[i] != order[j])
  }

  /** One permutation per round, each of the input's indices. */
  predicate ValidOrders(orders: seq<seq<nat>>, n: nat) {
    forall k :: 0 <= k < |orders| ==> IsShuffle(orders[k], n)
  }

  /** The copy of `s` after `random.shuffle` has moved `s[order[i]]` to position `i`. */
  function Reorder(s: seq<Point>, order: seq<nat>): (r: seq<Point>)
    requires IsShuffle(order, |s|)
  {
    seq(|s|, i requires 0 <= i < |s| => s[order[i]])
  }

  /** Shuffling only reorders: the shuffled copy holds the input's points, each as often. */
  lemma {:induction false} ReorderIsPermutation(s: seq<Point>, order: seq<nat>)
    requires IsShuffle(order, |s|)
    ensures |Reorder(s, order)| == |s|
    ensures multiset(Reorder(s, order)) == multiset(s)
    decreases |s|
  {
    if |s| > 0 {
      var n := |s|;
      var j := order[n - 1];
      var s' := s[..j] + s[j + 1..];
      var order': seq<nat> := seq(n - 1, i requires 0 <= i < n - 1 =>
        if order[i] > j then order[i] - 1 else order[i]);
      forall i | 0 <= i < n - 1
        ensures order'[i] < n - 1
      {
        assert order[i] != order[n - 1];
      }
      forall i, i' | 0 <= i < i' < n - 1
        ensures order'[i] != order'[i']
      {
        assert order[i] != order[i'];
        assert order[i] != j && order[i'] != j;
      }
      assert IsShuffle(order', n - 1);
      ReorderIsPermutation(s', order');
      forall i | 0 <= i < n - 1
        ensures Reorder(s, order)[i] == Reorder(s', order')[i]
      {
        assert order[i] != j;
      }
      assert Reorder(s, order) == Reorder(s', order') + [s[j]];
      assert s == s[..j] + [s[j]] + s[j + 1..];
    }
  }

  // ---------------------------------------------------------------------------
  // One round and the best-so-far fold
  // ---------------------------------------------------------------------------

  /** Popping the last two points leaves the rest: together they are the whole list. */
  lemma PopTwo(s: seq<Point>)
    requires |s| >= 2
    ensures multiset(s[..|s| - 2]) + multiset{s[|s| - 1], s[|s| - 2]} == multiset(s)
  {
    var n := |s|;
    assert s == s[..n - 2] + [s[n - 2]] + [s[n - 1]];
  }

  /**
    One round on the already shuffled copy: pop the last point, then the one
    before it, build their line and split the rest. The distance to the line
    is only computed when some point remains, so a coincident pair raises only
    then.
   */
  function Iteration(shuffled: seq<Point>, threshold: real): (r: Result<Fit>)
    ensures r == Err(IndexError) <==> |shuffled| < 2
    ensures r == Err(ZeroDivisionError)
        <==> |shuffled| > 2 && shuffled[|shuffled| - 1] == shuffled[|shuffled| - 2]
    ensures r.Ok? ==>
      && |shuffled| >= 2
      && r.value.line == GetCoefficients(shuffled[|shuffled| - 1], shuffled[|shuffled| - 2])
      && multiset(r.value.inliers) + multiset(r.value.outliers)
           + multiset{shuffled[|shuffled| - 1], shuffled[|shuffled| - 2]} == multiset(shuffled)
      && |r.value.inliers| + |r.value.outliers| == |shuffled| - 2
    ensures r.Ok? && |shuffled| > 2 ==>
      && !Degenerate(r.value.line)
      && (forall p :: p in r.value.inliers
            <==> p in shuffled[..|shuffled| - 2] && IsInlier(p, r.value.line, threshold))
      && (forall p :: p in r.value.outliers
            <==> p in shuffled[..|shuffled| - 2] && !IsInlier(p, r.value.line, threshold))
  {
    if |shuffled| < 2 then Err(IndexError)
    else
      var n := |shuffled|;
      var point1, point2 := shuffled[n - 1], shuffled[n - 2];
      var rest := shuffled[..n - 2];
      var line := GetCoefficients(point1, point2);
      if rest != [] && Degenerate(line) then Err(ZeroDivisionError)
      else
        SplitIsPartition(rest, line, threshold);
        SplitSizes(rest, line, threshold);
        SplitMembers(rest, line, threshold);
        PopTwo(shuffled);
        Ok(Fit(line, Inliers(rest, line, threshold), Outliers(rest, line, threshold)))
  }

  /** The outcome of every round: round `k` is one iteration on the `k`-th shuffled copy of the input. */
  function Rounds(input: seq<Point>, orders: seq<seq<nat>>, threshold: real): (rounds: seq<Result<Fit>>)
    requires ValidOrders(orders, |input|)
  {
    seq(|orders|, k requires 0 <= k < |orders| => Iteration(Reorder(input, orders[k]), threshold))
  }

  /**
    One pass of the loop's bookkeeping: an exception (earlier or in this
    round) ends the search; otherwise the round replaces the best fit so far
    only when it found strictly more inliers.
   */
  function Keep(best: Result<Fit>, round: Result<Fit>): Result<Fit> {
    match best
    case Err(e) => Err(e)
    case Ok(b) =>
      match round
      case Err(e) => Err(e)
      case Ok(c) => if |b.inliers| < |c.inliers| then Ok(c) else Ok(b)
  }

  /**
    The state of `inliers, outliers, a, b, c` after the given rounds, or the
    first exception raised.
   */
  function Best(rounds: seq<Result<Fit>>): Result<Fit>
    decreases |rounds|
  {
    if rounds == [] then Ok(NoFit)
    else Keep(Best(rounds[..|rounds| - 1]), rounds[|rounds| - 1])
  }

  /** Once a round has raised, later rounds do not run: the search ends with that exception. */
  lemma {:induction false} ErrorEndsSearch(rounds: seq<Result<Fit>>, m: nat)
    requires m <= |rounds| && Best(rounds[..m]).Err?
    ensures Best(rounds) == Best(rounds[..m])
    decreases |rounds|
  {
    if m < |rounds| {
      var before := rounds[..|rounds| - 1];
      assert before[..m] == rounds[..m];
      ErrorEndsSearch(before, m);
    } else {
      assert rounds[..m] == rounds;
    }
  }

  /** The search succeeds exactly when every round does. */
  lemma {:induction false} BestOk(rounds: seq<Result<Fit>>)
    ensures Best(rounds).Ok? <==> forall k :: 0 <= k < |rounds| ==> rounds[k].Ok?
    decreases |rounds|
  {
    if rounds != [] {
      var last := |rounds| - 1;
      var before := rounds[..last];
      BestOk(before);
      assert forall j :: 0 <= j < last ==> rounds[j] == before[j];
    }
  }

  /** A failed search fails with the exception of the first round that raised. */
  lemma {:induction false} BestFirstError(rounds: seq<Result<Fit>>)
    requires Best(rounds).Err?
    ensures exists k :: (0 <= k < |rounds| && rounds[k] == Best(rounds)
      && forall j :: 0 <= j < k ==> rounds[j].Ok?)
    decreases |rounds|
  {
    var last := |rounds| - 1;
    var before := rounds[..last];
    if Best(before).Err? {
      BestFirstError(before);
      var k :| 0 <= k < |before| && before[k] == Best(before)
        && forall j :: 0 <= j < k ==> before[j].Ok?;
      assert rounds[k] == before[k];
      assert forall j :: 0 <= j < k ==> rounds[j] == before[j];
    } else {
      BestOk(before);
      assert Best(rounds) == rounds[last];
      assert forall j :: 0 <= j < last ==> rounds[j] == before[j];
    }
  }

  /**
    No round found more inliers than the result, and when no round found any
    inlier the result is still the initial zero fit.
   */
  lemma {:induction false} BestIsMaximum(rounds: seq<Result<Fit>>)
    requires Best(rounds).Ok?
    ensures forall k :: 0 <= k < |rounds| ==>
      rounds[k].Ok? && |rounds[k].value.inliers| <= |Best(rounds).value.inliers|
    ensures Best(rounds).value.inliers == [] ==> Best(rounds) == Ok(NoFit)
    decreases |rounds|
  {
    if rounds != [] {
      var last := |rounds| - 1;
      var before := rounds[..last];
      BestIsMaximum(before);
      assert forall j :: 0 <= j < last ==> rounds[j] == before[j];
    }
  }

  /**
    With at least one inlier, the result is the first round that reached the
    largest inlier count: every earlier round found strictly fewer.
   */
  lemma {:induction false} BestIsFirst(rounds: seq<Result<Fit>>)
    requires Best(rounds).Ok? && Best(rounds).value.inliers != []
    ensures exists k :: (0 <= k < |rounds| && rounds[k] == Best(rounds)
      && forall j :: 0 <= j < k ==> rounds[j].Ok? && |rounds[j].value.inliers| < |Best(rounds).value.inliers|)
    decreases |rounds|
  {
    var last := |rounds| - 1;
    var before := rounds[..last];
    var best := Best(before).value;
    BestOk(rounds);
    if |best.inliers| < |rounds[last].value.inliers| {
      BestIsMaximum(before);
      assert rounds[last] == Best(rounds);
      assert forall j :: 0 <= j < last ==> rounds[j] == before[j];
    } else {
      BestIsFirst(before);
      var k :| 0 <= k < last && before[k] == Best(before)
        && forall j :: 0 <= j < k ==> before[j].Ok? && |before[j].value.inliers| < |best.inliers|;
      assert rounds[k] == before[k];
      assert forall j :: 0 <= j < k ==> rounds[j] == before[j];
    }
  }

  /** More rounds never lower the best inlier count found. */
  lemma {:induction false} BestMonotone(rounds: seq<Result<Fit>>, m: nat)
    requires m <= |rounds| && Best(rounds).Ok?
    ensures Best(rounds[..m]).Ok?
    ensures |Best(rounds[..m]).value.inliers| <= |Best(rounds).value.inliers|
    decreases |rounds|
  {
    if m < |rounds| {
      var before := rounds[..|rounds| - 1];
      assert before[..m] == rounds[..m];
      BestMonotone(before, m);
    } else {
      assert rounds[..m] == rounds;
    }
  }

  /**
    A successful search with at least one inlier reports the line through two
    input points, and its two lists hold exactly the other input points.
   */
  lemma SearchPartitionsInput(input: seq<Point>, orders: seq<seq<nat>>, threshold: real)
    returns (point1: Point, point2: Point)
    requires ValidOrders(orders, |input|)
    requires Best(Rounds(input, orders, threshold)).Ok?
    requires Best(Rounds(input, orders, threshold)).value.inliers != []
    ensures Best(Rounds(input, orders, threshold)).value.line == GetCoefficients(point1, point2)
    ensures multiset(Best(Rounds(input, orders, threshold)).value.inliers)
        + multiset(Best(Rounds(input, orders, threshold)).value.outliers)
        + multiset{point1, point2} == multiset(input)
    ensures |Best(Rounds(input, orders, threshold)).value.inliers|
        + |Best(Rounds(input, orders, threshold)).value.outliers| == |input| - 2
    ensures var fit := Best(Rounds(input, orders, threshold)).value;
      && !Degenerate(fit.line)
      && (forall p :: p in fit.inliers ==> IsInlier(p, fit.line, threshold))
      && (forall p :: p in fit.outliers ==> !IsInlier(p, fit.line, threshold))
  {
    var rounds := Rounds(input, orders, threshold);
    BestIsFirst(rounds);
    var k :| 0 <= k < |rounds| && rounds[k] == Best(rounds);
    assert rounds[k] == Iteration(Reorder(input, orders[k]), threshold);
    point1, point2 := RoundPartitionsInput(input, orders[k], threshold);
  }

  /** A successful round splits the whole input, less the two popped points, between its two lists. */
  lemma RoundPartitionsInput(input: seq<Point>, order: seq<nat>, threshold: real)
    returns (point1: Point, point2: Point)
    requires IsShuffle(order, |input|)
    requires Iteration(Reorder(input, order), threshold).Ok?
    ensures var fit := Iteration(Reorder(input, order), threshold).value;
      && fit.line == GetCoefficients(point1, point2)
      && multiset(fit.inliers) + multiset(fit.outliers) + multiset{point1, point2} == multiset(input)
      && |fit.inliers| + |fit.outliers| == |input| - 2
    ensures var fit := Iteration(Reorder(input, order), threshold).value;
      fit.inliers != [] ==>
        && !Degenerate(fit.line)
        && (forall p :: p in fit.inliers ==> IsInlier(p, fit.line, threshold))
        && (forall p :: p in fit.outliers ==> !IsInlier(p, fit.line, threshold))
  {
    var shuffled := Reorder(input, order);
    ReorderIsPermutation(input, order);
    var n := |shuffled|;
    point1, point2 := shuffled[n - 1], shuffled[n - 2];
  }

  /** `pop()` fails exactly when some round runs on fewer than two points. */
  lemma SearchIndexError(input: seq<Point>, orders: seq<seq<nat>>, threshold: real)
    requires ValidOrders(orders, |input|)
    ensures Best(Rounds(input, orders, threshold)) == Err(IndexError) <==> |orders| > 0 && |input| < 2
  {
    var rounds := Rounds(input, orders, threshold);
    BestOk(rounds);
    if |orders| > 0 && |input| < 2 {
      ReorderIsPermutation(input, orders[0]);
      assert rounds[0] == Err(IndexError);
      assert rounds[..1][..0] == [];
      assert Best(rounds[..1]) == Err(IndexError);
      ErrorEndsSearch(rounds, 1);
    }
    if Best(rounds) == Err(IndexError) {
      BestFirstError(rounds);
      var k :| 0 <= k < |rounds| && rounds[k] == Err(IndexError);
      ReorderIsPermutation(input, orders[k]);
    }
  }

  // ---------------------------------------------------------------------------
  // The loop as written
  // ---------------------------------------------------------------------------

  /**
    The `for point in data` loop of one round: each remaining point is
    appended to `tmp_inliers` or `tmp_outliers`; the first distance to a
    degenerate line raises.
   */
  method Classify(rest: seq<Point>, candidate: Line, threshold: real)
    returns (r: Result<Fit>)
    ensures rest != [] && Degenerate(candidate) ==> r == Err(ZeroDivisionError)
    ensures rest == [] || !Degenerate(candidate) ==>
      r == Ok(Fit(candidate, Inliers(rest, candidate, threshold), Outliers(rest, candidate, threshold)))
  {
    var tmpInliers: seq<Point> := [];
    var tmpOutliers: seq<Point> := [];
    for i := 0 to |rest|
      invariant i > 0 ==> !Degenerate(candidate)
      invariant tmpInliers == Inliers(rest[..i], candidate, threshold)
      invariant tmpOutliers == Outliers(rest[..i], candidate, threshold)
    {
      if Degenerate(candidate) {
        return Err(ZeroDivisionError);
      }
      var point := rest[i];
      assert rest[..i + 1] == rest[..i] + [point];
      InliersStep(rest[..i], point, candidate, threshold);
      OutliersStep(rest[..i], point, candidate, threshold);
      if IsInlier(point, candidate, threshold) {
        tmpInliers := tmpInliers + [point];
      } else {
        tmpOutliers := tmpOutliers + [point];
      }
    }
    assert rest[..|rest|] == rest;
    r := Ok(Fit(candidate, tmpInliers, tmpOutliers));
  }

  /**
    The number of rounds `while iteration_number < iterations` runs when the
    counter starts at 0 and steps by 1: the least whole number not below
    `iterations` (none when it is not positive; three for 2.5).
   */
  function RoundCount(iterations: real): (n: nat)
    ensures n as real >= iterations
    ensures n == 0 || (n - 1) as real < iterations
  {
    if iterations <= 0.0 then 0
    else if iterations.Floor as real == iterations then iterations.Floor
    else iterations.Floor + 1
  }

  /** The default number of rounds, `iterations=10`. */
  const DefaultIterations: real := 10.0

  /** The default inlier distance, `threshold=0.1`. */
  const DefaultThreshold: real := 0.1

  /** `ransac(input_data)` with both defaults: ten rounds at threshold 0.1. */
  method RansacWithDefaults(inputData: array<Point>, orders: seq<seq<nat>>) returns (r: Result<Fit>)
    requires |orders| == 10
    requires ValidOrders(orders, inputData.Length)
    ensures r == Best(Rounds(inputData[..], orders, 0.1))
  {
    r := Ransac(inputData, DefaultIterations, DefaultThreshold, orders);
  }

  /**
    The body of one round after the shuffle: two `pop()`s, the line through
    the popped pair, and the split of the remaining points.
   */
  method RunIteration(data: seq<Point>, threshold: real) returns (r: Result<Fit>)
    ensures r == Iteration(data, threshold)
  {
    var rest := data;
    if |rest| == 0 {
      return Err(IndexError);
    }
    var point1 := rest[|rest| - 1];
    rest := rest[..|rest| - 1];
    if |rest| == 0 {
      return Err(IndexError);
    }
    var point2 := rest[|rest| - 1];
    rest := rest[..|rest| - 1];
    assert rest == data[..|data| - 2];

    var candidate := GetCoefficients(point1, point2);
    r := Classify(rest, candidate, threshold);
  }

  /**
    ransac: `iterations` rounds of the loop, each on a fresh shuffled copy.
    The best-so-far state is replaced only by a round with strictly more
    inliers. The input array is only read (no `modifies` clause).
   */
  method Ransac(inputData: array<Point>, iterations: real, threshold: real, orders: seq<seq<nat>>)
    returns (r: Result<Fit>)
    requires |orders| == RoundCount(iterations)
    requires ValidOrders(orders, inputData.Length)
    ensures r == Best(Rounds(inputData[..], orders, threshold))
    ensures iterations <= 0.0 ==> r == Ok(NoFit)
  {
    ghost var rounds := Rounds(inputData[..], orders, threshold);
    var inliers: seq<Point> := [];
    var outliers: seq<Point> := [];
    var line := Line(0.0, 0.0, 0.0);
    var iterationNumber := 0;
    while (iterationNumber as real) < iterations
      invariant 0 <= iterationNumber <= |orders|
      invariant Best(rounds[..iterationNumber]) == Ok(Fit(line, inliers, outliers))
    {
      var data := inputData[..];
      data := Reorder(data, orders[iterationNumber]);
      var round := RunIteration(data, threshold);
      assert rounds[..iterationNumber + 1][..iterationNumber] == rounds[..iterationNumber];
      assert rounds[iterationNumber] == round;

      if round.Err? {
        ErrorEndsSearch(rounds, iterationNumber + 1);
        return round;
      }
      var tmp := round.value;
      if |inliers| < |tmp.inliers| {
        inliers := tmp.inliers;
        outliers := tmp.outliers;
        line := tmp.line;
      }
      iterationNumber := iterationNumber + 1;
    }
    assert rounds[..iterationNumber] == rounds;
    r := Ok(Fit(line, inliers, outliers));
  }
}
