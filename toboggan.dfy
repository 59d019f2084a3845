/** The toboggan map of src/day3.rs: rows of open squares and trees that
    repeat to the right. A slope (right, down) examines every row whose
    index is a multiple of `down`, at column ⌊i·right/down⌋ wrapped to the
    row's length, and counts the trees met. */
module Toboggan {
  import opened Common

  type Grid = seq<seq<bool>>

  /* ---------------------------------------------------------------- generator */

  /** One line: `#` is a tree, any other character open ground. */
  function Row(line: string): (r: seq<bool>)
    ensures |r| == |line| && forall k :: 0 <= k < |line| ==> (r[k] <==> line[k] == '#')
  {
    if |line| == 0 then [] else [line[0] == '#'] + Row(line[1..])
  }

  function Rows(lines: seq<string>): (r: Grid)
    ensures |r| == |lines| && forall k :: 0 <= k < |lines| ==> r[k] == Row(lines[k])
  {
    if |lines| == 0 then [] else [Row(lines[0])] + Rows(lines[1..])
  }

  /** `generator`: one row per `\n`-separated piece (an empty piece is an
      empty row). */
  function Generator(input: string): Grid
  {
    Rows(Split(input, "\n"))
  }

  /** A row drawn with `#` and `.`. */
  function ShowRow(row: seq<bool>): (r: string)
    ensures |r| == |row| && forall k :: 0 <= k < |row| ==> r[k] == (if row[k] then '#' else '.')
  {
    if |row| == 0 then [] else [if row[0] then '#' else '.'] + ShowRow(row[1..])
  }

  function ShowRows(grid: Grid): (r: seq<string>)
    ensures |r| == |grid| && forall k :: 0 <= k < |grid| ==> r[k] == ShowRow(grid[k])
  {
    if |grid| == 0 then [] else [ShowRow(grid[0])] + ShowRows(grid[1..])
  }

  function ShowGrid(grid: Grid): string
  {
    Join(ShowRows(grid), "\n")
  }

  lemma RowOfShown(row: seq<bool>)
    ensures Row(ShowRow(row)) == row
  {
  }

  /** Round trip: a drawn map is read back row by row. */
  lemma GeneratorOfShown(grid: Grid)
    requires |grid| > 0
    ensures Generator(ShowGrid(grid)) == grid
  {
    var lines := ShowRows(grid);
    forall k | 0 <= k < |lines|
      ensures !Contains(lines[k], "\n")
    {
      NoCharNoMatch(lines[k], '\n');
    }
    SplitOfJoin(lines, "\n");
    forall k | 0 <= k < |grid|
      ensures Rows(lines)[k] == grid[k]
    {
      RowOfShown(grid[k]);
    }
  }

  /* ---------------------------------------------------------------- slope */

  /** The column examined in row `i`, before wrapping. */
  function Column(i: nat, right: nat, down: nat): nat
    requires down > 0
  {
    i * right / down
  }

  /** The rows from `i` on that a slope with this `down` examines. */
  function Examined(n: nat, i: nat, down: nat): nat
    requires down > 0
    decreases n - i
  {
    if i >= n then 0 else (if i % down == 0 then 1 else 0) + Examined(n, i + 1, down)
  }

  /** The trees met from row `i` on; `None` where the source panics: a
      remainder by `down == 0`, or an examined row that is empty (the
      remainder by `line.len()`). */
  function SlopeFrom(grid: Grid, i: nat, right: nat, down: nat): (r: Option<nat>)
    ensures r.Some? && down > 0 ==> r.value <= Examined(|grid|, i, down)
    ensures r.None? <==> exists k :: i <= k < |grid| && (down == 0 || (k % down == 0 && |grid[k]| == 0))
    decreases |grid| - i
  {
    if i >= |grid| then Some(0)
    else if down == 0 then None
    else
      var rest := SlopeFrom(grid, i + 1, right, down);
      if i % down != 0 then rest
      else if |grid[i]| == 0 then None
      else
        match rest
        case None => None
        case Some(n) =>
          var row := grid[i];
          Some((if row[Column(i, right, down) % |row|] then 1 else 0) + n)
  }

  /** `slope`. */
  function Slope(grid: Grid, right: nat, down: nat): Option<nat>
  {
    SlopeFrom(grid, 0, right, down)
  }

  /* ---------------------------------------------------------------- the walk */

  /** The slope as a walk: step `k` lands on row `k·down`, column `k·right`
      of the map repeated to the right. */
  function Walk(grid: Grid, right: nat, down: nat, k: nat): Option<nat>
    requires down > 0
    decreases |grid| - k * down
  {
    if k * down >= |grid| then Some(0)
    else if |grid[k * down]| == 0 then None
    else
      assert (k + 1) * down == k * down + down;
      var row := grid[k * down];
      match Walk(grid, right, down, k + 1)
      case None => None
      case Some(n) => Some((if row[(k * right) % |row|] then 1 else 0) + n)
  }

  /** Rows strictly between two examined rows are skipped. */
  lemma {:induction false} SkipBetween(grid: Grid, i: nat, j: nat, right: nat, down: nat)
    requires down > 0 && i <= j
    requires forall m :: i <= m < j ==> m % down != 0
    ensures SlopeFrom(grid, i, right, down) == SlopeFrom(grid, j, right, down)
    decreases j - i
  {
    if i < j && i < |grid| {
      SkipBetween(grid, i + 1, j, right, down);
    }
  }

  lemma StepArithmetic(k: nat, right: nat, down: nat)
    requires down > 0
    ensures (k * down) % down == 0
    ensures Column(k * down, right, down) == k * right
    ensures forall m :: k * down < m < (k + 1) * down ==> m % down != 0
  {
    DivModUnique(k * down, down, k, 0);
    assert k * down * right == down * (k * right);
    DivModUnique(k * down * right, down, k * right, 0);
    forall m | k * down < m < (k + 1) * down
      ensures m % down != 0
    {
      DivModUnique(m, down, k, m - k * down);
    }
  }

  /** The slope of the source is the walk. */
  lemma {:induction false} SlopeIsWalkFrom(grid: Grid, right: nat, down: nat, k: nat)
    requires down > 0
    ensures SlopeFrom(grid, k * down, right, down) == Walk(grid, right, down, k)
    decreases |grid| - k * down
  {
    if k * down < |grid| {
      StepArithmetic(k, right, down);
      assert (k + 1) * down == k * down + down;
      SkipBetween(grid, k * down + 1, (k + 1) * down, right, down);
      SlopeIsWalkFrom(grid, right, down, k + 1);
    }
  }

  lemma SlopeIsWalk(grid: Grid, right: nat, down: nat)
    requires down > 0
    ensures Slope(grid, right, down) == Walk(grid, right, down, 0)
  {
    SlopeIsWalkFrom(grid, right, down, 0);
  }

  /** With `down == 1` every row is examined. */
  lemma {:induction false} EveryRowExamined(n: nat, i: nat)
    ensures Examined(n, i, 1) == if i >= n then 0 else n - i
    decreases n - i
  {
    if i < n {
      EveryRowExamined(n, i + 1);
    }
  }

  /** A map without trees meets none on any slope. */
  lemma {:induction false} OpenGround(grid: Grid, i: nat, right: nat, down: nat)
    requires forall r, c :: 0 <= r < |grid| && 0 <= c < |grid[r]| ==> !grid[r][c]
    requires SlopeFrom(grid, i, right, down).Some?
    ensures SlopeFrom(grid, i, right, down) == Some(0)
    decreases |grid| - i
  {
    if i < |grid| {
      OpenGround(grid, i + 1, right, down);
    }
  }

  /* ---------------------------------------------------------------- answers */

  /** `solve_part1`: slope (3, 1). */
  function SolvePart1(grid: Grid): Option<nat>
  {
    Slope(grid, 3, 1)
  }

  const Slopes: seq<(nat, nat)> := [(1, 1), (3, 1), (5, 1), (7, 1), (1, 2)]

  /** The fold of `solve_part2` from `acc`: multiply the slopes' counts,
      `None` where a slope panics or a `usize` product overflows. */
  function Product(grid: Grid, slopes: seq<(nat, nat)>, acc: nat): (r: Option<nat>)
    ensures r.Some? ==> forall k :: 0 <= k < |slopes| ==> Slope(grid, slopes[k].0, slopes[k].1).Some?
    ensures r.Some? && acc == 0 ==> r.value == 0
  {
    if |slopes| == 0 then Some(acc)
    else
      assert forall k :: 1 <= k < |slopes| ==> slopes[k] == slopes[1..][k - 1];
      match Slope(grid, slopes[0].0, slopes[0].1)
      case None => None
      case Some(n) =>
        if acc * n >= UsizeLimit then None else Product(grid, slopes[1..], acc * n)
  }

  /** `solve_part2`. */
  function SolvePart2(grid: Grid): Option<nat>
  {
    Product(grid, Slopes, 1)
  }

  /** The product of the numbers in `xs`. */
  function SeqProduct(xs: seq<nat>): nat
  {
    if |xs| == 0 then 1 else xs[0] * SeqProduct(xs[1..])
  }

  /** No partial product `acc * xs[0] * ... * xs[k - 1]`, for k from 1 on,
      reaches 2^64. */
  predicate PartialsFit(acc: nat, xs: seq<nat>)
  {
    forall k :: 1 <= k <= |xs| ==> acc * SeqProduct(xs[..k]) < UsizeLimit
  }

  /** When every slope has a count, the fold is `acc` times the product of
      the counts, and it fails exactly when one of its partial products
      reaches 2^64. */
  lemma {:induction false} ProductOfSlopes(grid: Grid, slopes: seq<(nat, nat)>, acc: nat, counts: seq<nat>)
    requires |counts| == |slopes|
    requires forall k :: 0 <= k < |slopes| ==> Slope(grid, slopes[k].0, slopes[k].1) == Some(counts[k])
    ensures Product(grid, slopes, acc).Some? <==> PartialsFit(acc, counts)
    ensures Product(grid, slopes, acc).Some? ==> Product(grid, slopes, acc).value == acc * SeqProduct(counts)
  {
    if |slopes| > 0 {
      var n := counts[0];
      assert Slope(grid, slopes[0].0, slopes[0].1) == Some(n);
      assert forall k :: 0 <= k < |slopes[1..]| ==> slopes[1..][k] == slopes[k + 1] && counts[1..][k] == counts[k + 1];
      ProductOfSlopes(grid, slopes[1..], acc * n, counts[1..]);
      PartialsStep(acc, counts);
      MulAssoc(acc, n, SeqProduct(counts[1..]));
    }
  }

  /** The partial products fit exactly when the first one does and the
      rest fit from it. */
  lemma PartialsStep(acc: nat, xs: seq<nat>)
    requires |xs| > 0
    ensures PartialsFit(acc, xs) <==> acc * xs[0] < UsizeLimit && PartialsFit(acc * xs[0], xs[1..])
  {
    if PartialsFit(acc, xs) {
      PartialsTail(acc, xs);
    }
    if acc * xs[0] < UsizeLimit && PartialsFit(acc * xs[0], xs[1..]) {
      PartialsCons(acc, xs);
    }
  }

  lemma PartialsTail(acc: nat, xs: seq<nat>)
    requires |xs| > 0 && PartialsFit(acc, xs)
    ensures acc * xs[0] < UsizeLimit && PartialsFit(acc * xs[0], xs[1..])
  {
    PartialShift(acc, xs, 1);
    assert acc * SeqProduct(xs[..1]) < UsizeLimit;
    forall k | 1 <= k <= |xs[1..]|
      ensures (acc * xs[0]) * SeqProduct(xs[1..][..k]) < UsizeLimit
    {
      PartialShift(acc, xs, k + 1);
      assert acc * SeqProduct(xs[..k + 1]) < UsizeLimit;
    }
  }

  lemma PartialsCons(acc: nat, xs: seq<nat>)
    requires |xs| > 0 && acc * xs[0] < UsizeLimit && PartialsFit(acc * xs[0], xs[1..])
    ensures PartialsFit(acc, xs)
  {
    forall k | 1 <= k <= |xs|
      ensures acc * SeqProduct(xs[..k]) < UsizeLimit
    {
      PartialShift(acc, xs, k);
      if k > 1 {
        assert (acc * xs[0]) * SeqProduct(xs[1..][..k - 1]) < UsizeLimit;
      }
    }
  }

  /** A partial product of `xs` from `acc` is one of `xs[1..]` from
      `acc * xs[0]`. */
  lemma PartialShift(acc: nat, xs: seq<nat>, k: nat)
    requires 1 <= k <= |xs|
    ensures acc * SeqProduct(xs[..k]) == (acc * xs[0]) * SeqProduct(xs[1..][..k - 1])
    ensures k == 1 ==> acc * SeqProduct(xs[..k]) == acc * xs[0]
  {
    PrefixProduct(xs, k);
    MulAssoc(acc, xs[0], SeqProduct(xs[1..][..k - 1]));
  }

  lemma PrefixProduct(xs: seq<nat>, k: nat)
    requires 1 <= k <= |xs|
    ensures SeqProduct(xs[..k]) == xs[0] * SeqProduct(xs[1..][..k - 1])
  {
    assert xs[..k][1..] == xs[1..][..k - 1];
  }

  lemma MulAssoc(a: nat, b: nat, c: nat)
    ensures a * (b * c) == (a * b) * c
  {
  }

  /** Part two is the product of the five slopes' counts, unless a partial
      product overflows `usize`. */
  lemma Part2IsProduct(grid: Grid, counts: seq<nat>)
    requires |counts| == 5
    requires forall k :: 0 <= k < 5 ==> Slope(grid, Slopes[k].0, Slopes[k].1) == Some(counts[k])
    ensures SolvePart2(grid).Some? <==> PartialsFit(1, counts)
    ensures SolvePart2(grid).Some? ==> SolvePart2(grid).value == SeqProduct(counts)
  {
    ProductOfSlopes(grid, Slopes, 1, counts);
  }

  /** One slope that meets no tree makes the product zero. */
  lemma {:induction false} ZeroFactor(grid: Grid, slopes: seq<(nat, nat)>, acc: nat, k: nat)
    requires k < |slopes| && Slope(grid, slopes[k].0, slopes[k].1) == Some(0)
    requires Product(grid, slopes, acc).Some?
    ensures Product(grid, slopes, acc) == Some(0)
  {
    if k == 0 {
      assert acc * 0 == 0;
    } else {
      var n := Slope(grid, slopes[0].0, slopes[0].1).value;
      assert slopes[1..][k - 1] == slopes[k];
      ZeroFactor(grid, slopes[1..], acc * n, k - 1);
    }
  }

  /* ---------------------------------------------------------------- sample */

  /** The map of the tests of the sources: trees are `true`. */
  const Sample: Grid := [
    [false, false, true, true, false, false, false, false, false, false, false],
    [true, false, false, false, true, false, false, false, true, false, false],
    [false, true, false, false, false, false, true, false, false, true, false],
    [false, false, true, false, true, false, false, false, true, false, true],
    [false, true, false, false, false, true, true, false, false, true, false],
    [false, false, true, false, true, true, false, false, false, false, false],
    [false, true, false, true, false, true, false, false, false, false, true],
    [false, true, false, false, false, false, false, false, false, false, true],
    [true, false, true, true, false, false, false, true, false, false, false],
    [true, false, false, false, true, true, false, false, false, false, true],
    [false, true, false, false, true, false, false, false, true, false, true]
  ]

  /** The sample drawn as text is read back as the sample. */
  lemma SampleText()
    ensures Generator(ShowGrid(Sample)) == Sample
  {
    GeneratorOfShown(Sample);
  }

  /** Eleven rows of eleven squares. */
  predicate Square11(g: Grid)
  {
    |g| == 11 && forall r :: 0 <= r < 11 ==> |g[r]| == 11
  }

  lemma SampleSquare()
    ensures Square11(Sample)
  {
    assert |Sample[0]| == 11;
    assert |Sample[1]| == 11;
    assert |Sample[2]| == 11;
    assert |Sample[3]| == 11;
    assert |Sample[4]| == 11;
    assert |Sample[5]| == 11;
    assert |Sample[6]| == 11;
    assert |Sample[7]| == 11;
    assert |Sample[8]| == 11;
    assert |Sample[9]| == 11;
    assert |Sample[10]| == 11;
  }

  /** One step of the walk, with the count of the rest known. */
  lemma WalkAt(grid: Grid, right: nat, down: nat, k: nat, n: nat)
    requires down > 0 && k * down < |grid| && |grid[k * down]| > 0
    requires Walk(grid, right, down, k + 1) == Some(n)
    ensures Walk(grid, right, down, k) == Some((if grid[k * down][(k * right) % |grid[k * down]|] then 1 else 0) + n)
  {
  }

  /** Slope (1, 1) on any eleven-by-eleven map with these squares. */
  lemma WalkSlope11(g: Grid)
    requires Square11(g)
    requires !g[0][0] && !g[1][1] && !g[2][2] && !g[3][3]
    requires !g[4][4] && g[5][5] && !g[6][6] && !g[7][7]
    requires !g[8][8] && !g[9][9] && g[10][10]
    ensures Slope(g, 1, 1) == Some(2)
  {
    WalkSlope11Rows5(g);
    WalkAt(g, 1, 1, 4, 2);
    WalkAt(g, 1, 1, 3, 2);
    WalkAt(g, 1, 1, 2, 2);
    WalkAt(g, 1, 1, 1, 2);
    WalkAt(g, 1, 1, 0, 2);
    SlopeIsWalk(g, 1, 1);
  }

  /** Rows 5 to 10 of slope (1, 1). */
  lemma WalkSlope11Rows5(g: Grid)
    requires Square11(g)
    requires g[5][5] && !g[6][6] && !g[7][7] && !g[8][8] && !g[9][9] && g[10][10]
    ensures Walk(g, 1, 1, 5) == Some(2)
  {
    assert Walk(g, 1, 1, 11) == Some(0);
    WalkAt(g, 1, 1, 10, 0);
    WalkAt(g, 1, 1, 9, 1);
    WalkAt(g, 1, 1, 8, 1);
    WalkAt(g, 1, 1, 7, 1);
    WalkAt(g, 1, 1, 6, 1);
    WalkAt(g, 1, 1, 5, 1);
  }

  /** Slope (3, 1) on any eleven-by-eleven map with these squares. */
  lemma WalkSlope31(g: Grid)
    requires Square11(g)
    requires !g[0][0] && !g[1][3] && g[2][6] && !g[3][9]
    requires g[4][1] && g[5][4] && !g[6][7] && g[7][10] && g[8][2]
    requires g[9][5] && g[10][8]
    ensures Slope(g, 3, 1) == Some(7)
  {
    WalkSlope31Rows5(g);
    WalkAt(g, 3, 1, 4, 5);
    WalkAt(g, 3, 1, 3, 6);
    WalkAt(g, 3, 1, 2, 6);
    WalkAt(g, 3, 1, 1, 7);
    WalkAt(g, 3, 1, 0, 7);
    SlopeIsWalk(g, 3, 1);
  }

  /** Rows 5 to 10 of slope (3, 1). */
  lemma WalkSlope31Rows5(g: Grid)
    requires Square11(g)
    requires g[5][4] && !g[6][7] && g[7][10] && g[8][2] && g[9][5] && g[10][8]
    ensures Walk(g, 3, 1, 5) == Some(5)
  {
    assert Walk(g, 3, 1, 11) == Some(0);
    WalkAt(g, 3, 1, 10, 0);
    WalkAt(g, 3, 1, 9, 1);
    WalkAt(g, 3, 1, 8, 2);
    WalkAt(g, 3, 1, 7, 3);
    WalkAt(g, 3, 1, 6, 4);
    WalkAt(g, 3, 1, 5, 4);
  }

  /** Slope (5, 1) on any eleven-by-eleven map with these squares. */
  lemma WalkSlope51(g: Grid)
    requires Square11(g)
    requires !g[0][0] && !g[1][5] && !g[2][10] && g[3][4]
    requires g[4][9] && !g[5][3] && !g[6][8] && !g[7][2]
    requires g[8][7] && !g[9][1] && !g[10][6]
    ensures Slope(g, 5, 1) == Some(3)
  {
    WalkSlope51Rows5(g);
    WalkAt(g, 5, 1, 4, 1);
    WalkAt(g, 5, 1, 3, 2);
    WalkAt(g, 5, 1, 2, 3);
    WalkAt(g, 5, 1, 1, 3);
    WalkAt(g, 5, 1, 0, 3);
    SlopeIsWalk(g, 5, 1);
  }

  /** Rows 5 to 10 of slope (5, 1). */
  lemma WalkSlope51Rows5(g: Grid)
    requires Square11(g)
    requires !g[5][3] && !g[6][8] && !g[7][2] && g[8][7] && !g[9][1] && !g[10][6]
    ensures Walk(g, 5, 1, 5) == Some(1)
  {
    assert Walk(g, 5, 1, 11) == Some(0);
    WalkAt(g, 5, 1, 10, 0);
    WalkAt(g, 5, 1, 9, 0);
    WalkAt(g, 5, 1, 8, 0);
    WalkAt(g, 5, 1, 7, 1);
    WalkAt(g, 5, 1, 6, 1);
    WalkAt(g, 5, 1, 5, 1);
  }

  /** Slope (7, 1) on any eleven-by-eleven map with these squares. */
  lemma WalkSlope71(g: Grid)
    requires Square11(g)
    requires !g[0][0] && !g[1][7] && !g[2][3] && g[3][10]
    requires g[4][6] && g[5][2] && !g[6][9] && !g[7][5]
    requires !g[8][1] && !g[9][8] && g[10][4]
    ensures Slope(g, 7, 1) == Some(4)
  {
    WalkSlope71Rows5(g);
    WalkAt(g, 7, 1, 4, 2);
    WalkAt(g, 7, 1, 3, 3);
    WalkAt(g, 7, 1, 2, 4);
    WalkAt(g, 7, 1, 1, 4);
    WalkAt(g, 7, 1, 0, 4);
    SlopeIsWalk(g, 7, 1);
  }

  /** Rows 5 to 10 of slope (7, 1). */
  lemma WalkSlope71Rows5(g: Grid)
    requires Square11(g)
    requires g[5][2] && !g[6][9] && !g[7][5] && !g[8][1] && !g[9][8] && g[10][4]
    ensures Walk(g, 7, 1, 5) == Some(2)
  {
    assert Walk(g, 7, 1, 11) == Some(0);
    WalkAt(g, 7, 1, 10, 0);
    WalkAt(g, 7, 1, 9, 1);
    WalkAt(g, 7, 1, 8, 1);
    WalkAt(g, 7, 1, 7, 1);
    WalkAt(g, 7, 1, 6, 1);
    WalkAt(g, 7, 1, 5, 1);
  }

  /** Slope (1, 2) on any eleven-by-eleven map with these squares. */
  lemma WalkSlope12(g: Grid)
    requires Square11(g)
    requires !g[0][0] && g[2][1] && !g[4][2] && g[6][3]
    requires !g[8][4] && !g[10][5]
    ensures Slope(g, 1, 2) == Some(2)
  {
    assert Walk(g, 1, 2, 6) == Some(0);
    WalkAt(g, 1, 2, 5, 0);
    WalkAt(g, 1, 2, 4, 0);
    WalkAt(g, 1, 2, 3, 0);
    WalkAt(g, 1, 2, 2, 1);
    WalkAt(g, 1, 2, 1, 1);
    WalkAt(g, 1, 2, 0, 2);
    SlopeIsWalk(g, 1, 2);
  }

  lemma SampleSlopes()
    ensures Slope(Sample, 1, 1) == Some(2)
    ensures Slope(Sample, 3, 1) == Some(7)
    ensures Slope(Sample, 5, 1) == Some(3)
    ensures Slope(Sample, 7, 1) == Some(4)
    ensures Slope(Sample, 1, 2) == Some(2)
  {
    SampleSquare();
    WalkSlope11(Sample);
    WalkSlope31(Sample);
    WalkSlope51(Sample);
    WalkSlope71(Sample);
    WalkSlope12(Sample);
  }

  lemma SamplePart1()
    ensures SolvePart1(Sample) == Some(7)
  {
    SampleSlopes();
  }

  /** The product over the five slopes, given their counts 2, 7, 3, 4 and 2. */
  lemma ProductOfCounts(g: Grid)
    requires Slope(g, 1, 1) == Some(2) && Slope(g, 3, 1) == Some(7) && Slope(g, 5, 1) == Some(3)
    requires Slope(g, 7, 1) == Some(4) && Slope(g, 1, 2) == Some(2)
    ensures SolvePart2(g) == Some(336)
  {
    var s := Slopes;
    assert s[4..][1..] == s[5..] && s[3..][1..] == s[4..] && s[2..][1..] == s[3..] && s[1..][1..] == s[2..];
    assert Product(g, s[5..], 336) == Some(336);
    assert Product(g, s[4..], 168) == Some(336);
    assert Product(g, s[3..], 42) == Some(336);
    assert Product(g, s[2..], 14) == Some(336);
    assert Product(g, s[1..], 2) == Some(336);
  }

  lemma SamplePart2()
    ensures SolvePart2(Sample) == Some(336)
  {
    SampleSlopes();
    ProductOfCounts(Sample);
  }
}
