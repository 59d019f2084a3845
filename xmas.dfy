/** The XMAS cipher of src/day9.rs: a number is valid when two different
    values among the 25 numbers before it add up to it. Part one finds the
    first invalid number; part two the first contiguous run of at least two
    numbers adding up to it. */
module Xmas {
  import opened Common

  /** The length of the preamble in `solve_part1`. */
  const Preamble: nat := 25

  /** `generator`: the lines that parse as `usize`, in order. */
  function Generator(input: string): (r: seq<int>)
    ensures forall i :: 0 <= i < |r| ==> 0 <= r[i] < UsizeLimit
  {
    Readings(Lines(input))
  }

  /** Round trip: numbers written one per line are read back. */
  lemma GeneratorOfShown(nums: seq<int>)
    requires forall i :: 0 <= i < |nums| ==> 0 <= nums[i] < UsizeLimit
    ensures Generator(Terminated(ShowReadings(nums))) == nums
  {
    ReadingsOfText(nums);
  }

  /* ---------------------------------------------------------------- two_sum */

  /** `x` passes the filter of `two_sum`: it is below `sum`, and `sum - x`
      is in the input and differs from `x`. */
  predicate Partnered(input: seq<int>, x: int, sum: int)
  {
    x < sum && (sum - x) in input && sum - x != x
  }

  /** The search of `two_sum` over `xs`, looking partners up in `input`. */
  function TwoSumFrom(xs: seq<int>, input: seq<int>, sum: int): (r: Option<(int, int)>)
    ensures r.Some? ==> r.value.0 in xs && Partnered(input, r.value.0, sum) && r.value.1 == sum - r.value.0
    ensures r.None? <==> forall i :: 0 <= i < |xs| ==> !Partnered(input, xs[i], sum)
  {
    if |xs| == 0 then None
    else if Partnered(input, xs[0], sum) then Some((xs[0], sum - xs[0]))
    else
      var r := TwoSumFrom(xs[1..], input, sum);
      assert r.None? ==> forall i :: 0 <= i < |xs| ==> !Partnered(input, xs[i], sum) by {
        if r.None? {
          forall i | 0 <= i < |xs|
            ensures !Partnered(input, xs[i], sum)
          {
            if i > 0 {
              assert xs[i] == xs[1..][i - 1];
            }
          }
        }
      }
      r
  }

  /** `two_sum`. */
  function TwoSum(input: seq<int>, sum: int): (r: Option<(int, int)>)
    ensures r.Some? ==> r.value.0 + r.value.1 == sum && r.value.0 != r.value.1
    ensures r.Some? ==> r.value.0 in input && r.value.1 in input && r.value.0 < sum
    ensures r.None? <==> forall i :: 0 <= i < |input| ==> !Partnered(input, input[i], sum)
  {
    TwoSumFrom(input, input, sum)
  }

  /** The pair found starts with the first partnered value in input order. */
  lemma {:induction false} TwoSumFromFirst(xs: seq<int>, input: seq<int>, sum: int)
    requires TwoSumFrom(xs, input, sum).Some?
    ensures exists i :: 0 <= i < |xs| && xs[i] == TwoSumFrom(xs, input, sum).value.0 &&
                        (forall j :: 0 <= j < i ==> !Partnered(input, xs[j], sum))
  {
    if !Partnered(input, xs[0], sum) {
      TwoSumFromFirst(xs[1..], input, sum);
      var i :| 0 <= i < |xs[1..]| && xs[1..][i] == TwoSumFrom(xs, input, sum).value.0 &&
        (forall j :: 0 <= j < i ==> !Partnered(input, xs[1..][j], sum));
      forall j | 0 <= j < i + 1
        ensures !Partnered(input, xs[j], sum)
      {
        if j > 0 {
          assert xs[j] == xs[1..][j - 1];
        }
      }
      assert xs[i + 1] == xs[1..][i];
    } else {
      assert xs[0] == TwoSumFrom(xs, input, sum).value.0;
    }
  }

  lemma TwoSumFirst(input: seq<int>, sum: int)
    requires TwoSum(input, sum).Some?
    ensures exists i :: 0 <= i < |input| && input[i] == TwoSum(input, sum).value.0 &&
                        (forall j :: 0 <= j < i ==> !Partnered(input, input[j], sum))
  {
    TwoSumFromFirst(input, input, sum);
  }

  lemma TwoSumExample()
    ensures TwoSum([35, 20, 15, 25, 47], 40) == Some((15, 25))
  {
    var input := [35, 20, 15, 25, 47];
    assert !Partnered(input, 35, 40) by {
      assert forall i :: 0 <= i < |input| ==> input[i] != 5;
    }
    assert !Partnered(input, 20, 40);
    assert input[3] == 25;
    assert TwoSumFrom(input[2..], input, 40) == Some((15, 25));
    assert TwoSumFrom(input[1..], input, 40) == Some((15, 25)) by {
      assert input[1..][1..] == input[2..];
    }
  }

  /* ---------------------------------------------------------------- part one */

  /** The number at `k` is invalid: no two different values of the
      `Preamble` numbers before it add up to it. */
  predicate Invalid(input: seq<int>, k: nat)
    requires Preamble <= k < |input|
  {
    TwoSum(input[k - Preamble..k], input[k]).None?
  }

  /** The scan of `windows(26)` from the window ending at `k`: the index of
      the first invalid number from `k` on. */
  function FirstInvalidAt(input: seq<int>, k: nat): (r: Option<nat>)
    requires k >= Preamble
    ensures r.Some? ==> k <= r.value < |input| && Invalid(input, r.value)
    ensures r.Some? ==> forall m :: k <= m < r.value ==> !Invalid(input, m)
    ensures r.None? <==> forall m :: k <= m < |input| ==> !Invalid(input, m)
    decreases |input| - k
  {
    if k >= |input| then None
    else if Invalid(input, k) then Some(k)
    else FirstInvalidAt(input, k + 1)
  }

  /** `solve_part1`: the first number after the preamble that is invalid;
      `None` where the source's `unwrap` panics. */
  function SolvePart1(input: seq<int>): Option<int>
  {
    match FirstInvalidAt(input, Preamble)
    case Some(k) => Some(input[k])
    case None => None
  }

  /** What part one answers: the first number after the preamble that is
      invalid, or nothing when every one is valid. */
  lemma SolvePart1Meaning(input: seq<int>)
    ensures SolvePart1(input).Some? ==>
      exists k :: Preamble <= k < |input| && input[k] == SolvePart1(input).value && Invalid(input, k) &&
                  (forall m :: Preamble <= m < k ==> !Invalid(input, m))
    ensures SolvePart1(input).None? <==> forall k :: Preamble <= k < |input| ==> !Invalid(input, k)
  {
  }

  /* ---------------------------------------------------------------- part two */

  function Sum(s: seq<int>): int
  {
    if |s| == 0 then 0 else s[0] + Sum(s[1..])
  }

  /** The window of `length` numbers starting at `j`. */
  function Window(input: seq<int>, j: nat, length: nat): (r: seq<int>)
    requires j + length <= |input|
    ensures |r| == length && forall i :: 0 <= i < length ==> r[i] == input[j + i]
  {
    input[j..j + length]
  }

  /** The scan of `windows(length)` from the window starting at `k`: where
      the first window adding up to `sum` starts. */
  function WindowAt(input: seq<int>, length: nat, sum: int, k: nat): (r: Option<nat>)
    ensures r.Some? ==> k <= r.value && r.value + length <= |input| && Sum(Window(input, r.value, length)) == sum
    ensures r.Some? ==> forall j :: k <= j < r.value ==> Sum(Window(input, j, length)) != sum
    ensures r.None? <==> forall j :: k <= j && j + length <= |input| ==> Sum(Window(input, j, length)) != sum
    decreases |input| - k
  {
    if k + length > |input| then None
    else if Sum(Window(input, k, length)) == sum then Some(k)
    else WindowAt(input, length, sum, k + 1)
  }

  /** `search_window`: a copy of the first window of `length` numbers adding
      up to `sum`. `windows(0)` panics, hence the precondition. */
  function SearchWindow(input: seq<int>, length: nat, sum: int): (r: Option<seq<int>>)
    requires length >= 1
    ensures r.Some? ==> exists j :: 0 <= j && j + length <= |input| && r.value == Window(input, j, length) && Sum(r.value) == sum &&
                                    (forall i :: 0 <= i < j ==> Sum(Window(input, i, length)) != sum)
    ensures r.None? <==> forall j :: 0 <= j && j + length <= |input| ==> Sum(Window(input, j, length)) != sum
  {
    match WindowAt(input, length, sum, 0)
    case Some(j) =>
      assert forall i :: 0 <= i < j ==> Sum(Window(input, i, length)) != sum;
      Some(Window(input, j, length))
    case None => None
  }

  /** The scan over window lengths `from, from + 1, ...` below `|input|`: the
      first length with a window adding up to `sum`. */
  function RunLength(input: seq<int>, sum: int, from: nat): (r: Option<nat>)
    requires from >= 2
    ensures r.Some? ==> from <= r.value < |input| && SearchWindow(input, r.value, sum).Some?
    ensures r.Some? ==> forall n :: from <= n < r.value ==> SearchWindow(input, n, sum).None?
    ensures r.None? <==> forall n :: from <= n < |input| ==> SearchWindow(input, n, sum).None?
    decreases |input| - from
  {
    if from >= |input| then None
    else if SearchWindow(input, from, sum).Some? then Some(from)
    else RunLength(input, sum, from + 1)
  }

  /** The encryption weakness for `target`: the smallest plus the largest
      number of the first run adding up to it, trying lengths from 2 up. */
  function Weakness(input: seq<int>, target: int): Option<int>
  {
    match RunLength(input, target, 2)
    case None => None
    case Some(n) =>
      var w := SearchWindow(input, n, target).value;
      Some(SeqMin(w) + SeqMax(w))
  }

  /** `solve_part2`: the weakness for the answer of part one; `None` where
      an `unwrap` panics. */
  function SolvePart2(input: seq<int>): (r: Option<int>)
    ensures r.Some? ==> SolvePart1(input).Some? && r == Weakness(input, SolvePart1(input).value)
  {
    match SolvePart1(input)
    case None => None
    case Some(target) => Weakness(input, target)
  }

  /** The run of `n` numbers at `j` is the first one adding up to `target`
      in the order part two tries runs. */
  predicate FirstRun(input: seq<int>, target: int, n: nat, j: nat)
  {
    && 2 <= n < |input| && j + n <= |input| && Sum(Window(input, j, n)) == target
    && (forall m :: 2 <= m < n ==> SearchWindow(input, m, target).None?)
    && (forall i :: 0 <= i < j ==> Sum(Window(input, i, n)) != target)
  }

  /** What part two answers: for the shortest length with a run adding up to
      the target, the first such run; its extremes added. */
  lemma WeaknessMeaning(input: seq<int>, target: int)
    requires Weakness(input, target).Some?
    ensures exists n: nat, j: nat :: (FirstRun(input, target, n, j) &&
                                     Weakness(input, target).value == SeqMin(Window(input, j, n)) + SeqMax(Window(input, j, n)))
  {
    var n := RunLength(input, target, 2).value;
    var j := WindowAt(input, n, target, 0).value;
    var w := Window(input, j, n);
    assert SearchWindow(input, n, target) == Some(w);
    assert FirstRun(input, target, n, j);
  }
}
