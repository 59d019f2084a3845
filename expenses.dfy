/** The expense report of src/day1.rs: the entries are sorted ascending
    and the first pair (part one) or triple (part two) of positions, in
    the order `Itertools::combinations` yields them, whose entries sum to
    2020 gives the answer, the product of those entries. */
module Expenses {
  import opened Common

  /** One past the largest `u32`. */
  const U32Limit: int := 0x1_0000_0000

  /** `s.parse::<u32>().ok()`. */
  function ParseU32(s: string): (r: Option<nat>)
    ensures r.Some? ==> r.value < U32Limit
    ensures r.Some? <==> ParseNat(s).Some? && ParseNat(s).value < U32Limit
    ensures r.Some? ==> r == ParseNat(s)
  {
    match ParseNat(s)
    case Some(n) => if n < U32Limit then Some(n) else None
    case None => None
  }

  /** `flat_map(|x| x.parse())`: the pieces that parse, in order. */
  function Entries(pieces: seq<string>): (r: seq<int>)
    ensures |r| <= |pieces|
    ensures forall k :: 0 <= k < |r| ==> 0 <= r[k] < U32Limit
  {
    if |pieces| == 0 then []
    else
      match ParseU32(pieces[0])
      case Some(n) => [n as int] + Entries(pieces[1..])
      case None => Entries(pieces[1..])
  }

  /** `generator`: split at every `\n`. */
  function Generator(input: string): seq<int>
  {
    Entries(Split(input, "\n"))
  }

  function ShowEntries(nums: seq<nat>): (r: seq<string>)
    ensures |r| == |nums| && forall k :: 0 <= k < |nums| ==> r[k] == ShowNat(nums[k])
  {
    if |nums| == 0 then [] else [ShowNat(nums[0])] + ShowEntries(nums[1..])
  }

  lemma {:induction false} EntriesOfShown(nums: seq<nat>)
    requires forall k :: 0 <= k < |nums| ==> nums[k] < U32Limit
    ensures Entries(ShowEntries(nums)) == nums
  {
    if |nums| > 0 {
      ParseNatOfShowNat(nums[0]);
      EntriesOfShown(nums[1..]);
      assert ShowEntries(nums)[1..] == ShowEntries(nums[1..]);
      assert [nums[0]] + nums[1..] == nums;
    }
  }

  /** Round trip: `u32` entries written one per line are read back. */
  lemma GeneratorOfShown(nums: seq<nat>)
    requires |nums| > 0 && forall k :: 0 <= k < |nums| ==> nums[k] < U32Limit
    ensures Generator(Join(ShowEntries(nums), "\n")) == nums
  {
    var lines := ShowEntries(nums);
    forall k | 0 <= k < |lines|
      ensures !Contains(lines[k], "\n")
    {
      assert AllDigits(lines[k]);
      NoCharNoMatch(lines[k], '\n');
    }
    SplitOfJoin(lines, "\n");
    EntriesOfShown(nums);
  }

  /* ---------------------------------------------------------------- pairs */

  /** Position pair (p, q) comes before (a, b) in the order
      `combinations(2)` yields them. */
  predicate PairBefore(p: nat, q: nat, a: nat, b: nat)
  {
    p < a || (p == a && q < b)
  }

  /** The search stops at a pair: its sum is 2020, or the `u32` addition
      overflows (a panic). */
  predicate PairStops(s: seq<int>, p: nat, q: nat)
    requires p < q < |s|
  {
    s[p] + s[q] >= U32Limit || s[p] + s[q] == 2020
  }

  /** The first pair at or after (i, j) where the search stops. */
  function FindPair(s: seq<int>, i: nat, j: nat): (r: Option<(nat, nat)>)
    requires i < j
    ensures r.Some? ==> r.value.0 < r.value.1 < |s| && !PairBefore(r.value.0, r.value.1, i, j) && PairStops(s, r.value.0, r.value.1)
    ensures r.Some? ==> forall p, q :: 0 <= p < q < |s| && !PairBefore(p, q, i, j) && PairBefore(p, q, r.value.0, r.value.1) ==> !PairStops(s, p, q)
    ensures r.None? ==> forall p, q :: 0 <= p < q < |s| && !PairBefore(p, q, i, j) ==> !PairStops(s, p, q)
    decreases |s| - i, |s| - j
  {
    if i >= |s| then None
    else if j >= |s| then
      (if i + 1 >= |s| then None else FindPair(s, i + 1, i + 2))
    else if PairStops(s, i, j) then Some((i, j))
    else FindPair(s, i, j + 1)
  }

  /** A search from the first pair that finds nothing has passed every pair. */
  lemma NoPair(s: seq<int>)
    requires FindPair(s, 0, 1).None?
    ensures forall p, q :: 0 <= p < q < |s| ==> s[p] + s[q] != 2020 && s[p] + s[q] < U32Limit
  {
    forall p, q | 0 <= p < q < |s|
      ensures s[p] + s[q] != 2020 && s[p] + s[q] < U32Limit
    {
      assert !PairBefore(p, q, 0, 1);
      assert !PairStops(s, p, q);
    }
  }

  /** `solve_part1`: sort, take the first stopping pair; `None` where the
      source panics (no pair sums to 2020, or an addition overflows). */
  function SolvePart1(input: seq<int>): (r: Option<int>)
    ensures var s := Sort(input);
      r.Some? ==> exists p, q :: 0 <= p < q < |s| && s[p] <= s[q] && s[p] + s[q] == 2020 && r.value == s[p] * s[q]
    ensures var s := Sort(input);
      (forall p, q :: 0 <= p < q < |s| ==> s[p] + s[q] < U32Limit) ==>
        (r.Some? <==> exists p, q :: 0 <= p < q < |s| && s[p] + s[q] == 2020)
  {
    var s := Sort(input);
    match FindPair(s, 0, 1)
    case None =>
      NoPair(s);
      None
    case Some((p, q)) =>
      assert PairStops(s, p, q) && s[p] <= s[q];
      if s[p] + s[q] >= U32Limit then None else Some(s[p] * s[q])
  }

  /** The product of a pair summing to 2020 fits in a `u32`, so the
      multiplication never overflows. */
  lemma PairProductFits(a: int, b: int)
    requires a >= 0 && b >= 0 && a + b == 2020
    ensures a * b < U32Limit
  {
    assert a <= 2020 && b <= 2020;
    MulBound(a, b, 2020, 2020);
  }

  lemma MulBound(a: int, b: int, x: int, y: int)
    requires 0 <= a <= x && 0 <= b <= y
    ensures a * b <= x * y
  {
    assert a * b <= x * b by { MulNonNegative(x - a, b); }
    assert x * b <= x * y by { MulNonNegative(x, y - b); }
  }

  /** Only the order of the entries is irrelevant: the answer depends on
      their multiset alone. */
  lemma Part1Unordered(a: seq<int>, b: seq<int>)
    requires multiset(a) == multiset(b)
    ensures SolvePart1(a) == SolvePart1(b)
  {
    SortedUnique(Sort(a), Sort(b));
  }

  /** Distinct positions: a single 1010 does not pair with itself, two do. */
  lemma HalfPairs()
    ensures SolvePart1([1010]) == None
    ensures SolvePart1([1010, 1010]) == Some(1020100)
  {
    assert Sort([1010]) == [1010];
    SortedUnique(Sort([1010, 1010]), [1010, 1010]);
    assert FindPair([1010, 1010], 0, 1) == Some((0, 1));
  }

  /* ---------------------------------------------------------------- triples */

  /** Triple (p, q, t) comes before (a, b, c) in the order
      `combinations(3)` yields them. */
  predicate TripleBefore(p: nat, q: nat, t: nat, a: nat, b: nat, c: nat)
  {
    p < a || (p == a && (q < b || (q == b && t < c)))
  }

  /** The search stops at a triple: its sum is 2020, or one of the two
      `u32` additions overflows. */
  predicate TripleStops(s: seq<int>, p: nat, q: nat, t: nat)
    requires p < q < t < |s|
  {
    s[p] + s[q] >= U32Limit || s[p] + s[q] + s[t] >= U32Limit || s[p] + s[q] + s[t] == 2020
  }

  /** The first triple at or after (i, j, k) where the search stops. */
  function FindTriple(s: seq<int>, i: nat, j: nat, k: nat): (r: Option<(nat, nat, nat)>)
    requires i < j < k
    ensures r.Some? ==> r.value.0 < r.value.1 < r.value.2 < |s| && TripleStops(s, r.value.0, r.value.1, r.value.2)
    decreases |s| - i, |s| - j, |s| - k
  {
    if i + 2 >= |s| then None
    else if j + 1 >= |s| then FindTriple(s, i + 1, i + 2, i + 3)
    else if k >= |s| then FindTriple(s, i, j + 1, j + 2)
    else if TripleStops(s, i, j, k) then Some((i, j, k))
    else FindTriple(s, i, j, k + 1)
  }

  /** The triple found lies at or after (i, j, k) and no triple between
      them in combination order stops the search; nothing found means no triple from
      (i, j, k) on stops it. */
  lemma {:induction false} FindTripleMeaning(s: seq<int>, i: nat, j: nat, k: nat)
    requires i < j < k
    ensures var r := FindTriple(s, i, j, k);
      r.Some? ==> !TripleBefore(r.value.0, r.value.1, r.value.2, i, j, k)
    ensures var r := FindTriple(s, i, j, k);
      r.Some? ==> forall p, q, t :: 0 <= p < q < t < |s| && !TripleBefore(p, q, t, i, j, k) && TripleBefore(p, q, t, r.value.0, r.value.1, r.value.2) ==> !TripleStops(s, p, q, t)
    ensures var r := FindTriple(s, i, j, k);
      r.None? ==> forall p, q, t :: 0 <= p < q < t < |s| && !TripleBefore(p, q, t, i, j, k) ==> !TripleStops(s, p, q, t)
    decreases |s| - i, |s| - j, |s| - k
  {
    if i + 2 >= |s| {
    } else if j + 1 >= |s| {
      FindTripleMeaning(s, i + 1, i + 2, i + 3);
    } else if k >= |s| {
      FindTripleMeaning(s, i, j + 1, j + 2);
    } else if TripleStops(s, i, j, k) {
    } else {
      FindTripleMeaning(s, i, j, k + 1);
    }
  }

  lemma NoTriple(s: seq<int>)
    requires FindTriple(s, 0, 1, 2).None?
    ensures forall p, q, t :: 0 <= p < q < t < |s| ==> s[p] + s[q] + s[t] != 2020 && s[p] + s[q] < U32Limit && s[p] + s[q] + s[t] < U32Limit
  {
    FindTripleMeaning(s, 0, 1, 2);
    forall p, q, t | 0 <= p < q < t < |s|
      ensures s[p] + s[q] + s[t] != 2020 && s[p] + s[q] < U32Limit && s[p] + s[q] + s[t] < U32Limit
    {
      assert !TripleBefore(p, q, t, 0, 1, 2);
      assert !TripleStops(s, p, q, t);
    }
  }

  /** `solve_part2`: as part one, for triples. */
  function SolvePart2(input: seq<int>): Option<int>
  {
    var s := Sort(input);
    match FindTriple(s, 0, 1, 2)
    case None => None
    case Some((p, q, t)) =>
      if s[p] + s[q] >= U32Limit || s[p] + s[q] + s[t] >= U32Limit then None else Some(s[p] * s[q] * s[t])
  }

  /** An answer of part two is the product of three entries at distinct
      positions, ascending, summing to 2020; without overflowing sums there
      is an answer iff such a triple exists. */
  lemma Part2Meaning(input: seq<int>)
    ensures var s := Sort(input); var r := SolvePart2(input);
      r.Some? ==> exists p, q, t :: 0 <= p < q < t < |s| && s[p] <= s[q] <= s[t] && s[p] + s[q] + s[t] == 2020 && r.value == s[p] * s[q] * s[t]
    ensures var s := Sort(input);
      (forall p, q, t :: 0 <= p < q < t < |s| ==> s[p] + s[q] + s[t] < U32Limit && s[p] + s[q] < U32Limit) ==>
        (SolvePart2(input).Some? <==> exists p, q, t :: 0 <= p < q < t < |s| && s[p] + s[q] + s[t] == 2020)
  {
    var s := Sort(input);
    match FindTriple(s, 0, 1, 2)
    case None =>
      NoTriple(s);
    case Some((p, q, t)) =>
      assert TripleStops(s, p, q, t) && s[p] <= s[q] <= s[t];
      if s[p] + s[q] < U32Limit && s[p] + s[q] + s[t] < U32Limit {
        assert SolvePart2(input) == Some(s[p] * s[q] * s[t]);
      } else {
        assert SolvePart2(input) == None;
      }
  }

  /** The product of a triple summing to 2020 fits in a `u32` as well:
      a·b is at most 1010², and c at most 2020. */
  lemma TripleProductFits(a: int, b: int, c: int)
    requires a >= 0 && b >= 0 && c >= 0 && a + b + c == 2020
    ensures a * b * c < U32Limit
  {
    PairProductBound(a, b);
    MulNonNegative(a, b);
    MulBound(a * b, c, 1020100, 2020);
  }

  /** Two entries summing to at most 2020 multiply to at most 1010². */
  lemma PairProductBound(a: int, b: int)
    requires a >= 0 && b >= 0 && a + b <= 2020
    ensures a * b <= 1020100
  {
    var m := a + b;
    SquareSplit(a, b);
    MulBound(m, m, 2020, 2020);
  }

  lemma SquareSplit(a: int, b: int)
    ensures (a + b) * (a + b) == (a - b) * (a - b) + 4 * (a * b)
    ensures 4 * (a * b) <= (a + b) * (a + b)
  {
    assert (a - b) * (a - b) >= 0;
  }

  lemma Part2Unordered(a: seq<int>, b: seq<int>)
    requires multiset(a) == multiset(b)
    ensures SolvePart2(a) == SolvePart2(b)
  {
    SortedUnique(Sort(a), Sort(b));
  }

  /* ---------------------------------------------------------------- sample */

  const Sample: seq<int> := [1721, 979, 366, 299, 675, 1456]
  const SampleSorted: seq<int> := [299, 366, 675, 979, 1456, 1721]

  lemma SampleContents()
    ensures multiset(Sample) == multiset(SampleSorted)
  {
    SampleBag();
    SortedBag();
    BagsAgree();
  }

  lemma SampleBag()
    ensures multiset(Sample) == multiset{1721, 979, 366, 299, 675, 1456}
  {
  }

  lemma SortedBag()
    ensures multiset(SampleSorted) == multiset{299, 366, 675, 979, 1456, 1721}
  {
  }

  lemma BagsAgree()
    ensures multiset{1721, 979, 366, 299, 675, 1456} == multiset{299, 366, 675, 979, 1456, 1721}
  {
  }

  lemma SampleSort()
    ensures Sort(Sample) == SampleSorted
  {
    SampleContents();
    assert SortedAsc(SampleSorted);
    SortedUnique(Sort(Sample), SampleSorted);
  }

  lemma PairSkip(s: seq<int>, i: nat, j: nat)
    requires i < j < |s| && !PairStops(s, i, j)
    ensures FindPair(s, i, j) == FindPair(s, i, j + 1)
  {
  }

  lemma PairHit(s: seq<int>, i: nat, j: nat)
    requires i < j < |s| && PairStops(s, i, j)
    ensures FindPair(s, i, j) == Some((i, j))
  {
  }

  lemma SamplePair()
    ensures FindPair(SampleSorted, 0, 1) == Some((0, 5))
  {
    var s := SampleSorted;
    PairSkip(s, 0, 1);
    PairSkip(s, 0, 2);
    PairSkip(s, 0, 3);
    PairSkip(s, 0, 4);
    PairHit(s, 0, 5);
  }

  lemma SamplePart1()
    ensures SolvePart1(Sample) == Some(514579)
  {
    SampleSort();
    SamplePair();
  }

  lemma TripleSkip(s: seq<int>, i: nat, j: nat, k: nat)
    requires i < j < k < |s| && !TripleStops(s, i, j, k)
    ensures FindTriple(s, i, j, k) == FindTriple(s, i, j, k + 1)
  {
  }

  lemma TripleNextMiddle(s: seq<int>, i: nat, j: nat)
    requires i < j && i + 2 < |s| && j + 1 < |s|
    ensures FindTriple(s, i, j, |s|) == FindTriple(s, i, j + 1, j + 2)
  {
  }

  lemma TripleNextFirst(s: seq<int>, i: nat, j: nat, k: nat)
    requires i < j < k && i + 2 < |s| && j + 1 >= |s|
    ensures FindTriple(s, i, j, k) == FindTriple(s, i + 1, i + 2, i + 3)
  {
  }

  lemma TripleHit(s: seq<int>, i: nat, j: nat, k: nat)
    requires i < j < k < |s| && TripleStops(s, i, j, k)
    ensures FindTriple(s, i, j, k) == Some((i, j, k))
  {
  }

  /** No triple starting with the smallest entry stops the search. */
  lemma SampleTripleFirstRow()
    ensures FindTriple(SampleSorted, 0, 1, 2) == FindTriple(SampleSorted, 0, 5, 6)
  {
    var s := SampleSorted;
    TripleSkip(s, 0, 1, 2);
    TripleSkip(s, 0, 1, 3);
    TripleSkip(s, 0, 1, 4);
    TripleSkip(s, 0, 1, 5);
    TripleNextMiddle(s, 0, 1);
    TripleSkip(s, 0, 2, 3);
    TripleSkip(s, 0, 2, 4);
    TripleSkip(s, 0, 2, 5);
    TripleNextMiddle(s, 0, 2);
    TripleSkip(s, 0, 3, 4);
    TripleSkip(s, 0, 3, 5);
    TripleNextMiddle(s, 0, 3);
    TripleSkip(s, 0, 4, 5);
    TripleNextMiddle(s, 0, 4);
  }

  lemma SampleTriple()
    ensures FindTriple(SampleSorted, 0, 1, 2) == Some((1, 2, 3))
  {
    var s := SampleSorted;
    SampleTripleFirstRow();
    TripleNextFirst(s, 0, 5, 6);
    TripleHit(s, 1, 2, 3);
  }

  lemma SamplePart2()
    ensures SolvePart2(Sample) == Some(241861950)
  {
    SampleSort();
    SortedSamplePart2(Sample);
  }

  /** Any report that sorts as the sample does answers 241861950. */
  lemma SortedSamplePart2(input: seq<int>)
    requires Sort(input) == SampleSorted
    ensures SolvePart2(input) == Some(241861950)
  {
    SampleTriple();
    var s := SampleSorted;
    assert s[1] == 366 && s[2] == 675 && s[3] == 979;
    TripleAnswer(input, s, 1, 2, 3);
  }

  /** Part two answers with the product of the triple the search stops at,
      when neither addition overflows. */
  lemma TripleAnswer(input: seq<int>, s: seq<int>, p: nat, q: nat, t: nat)
    requires Sort(input) == s && p < q < t < |s|
    requires FindTriple(s, 0, 1, 2) == Some((p, q, t))
    requires s[p] + s[q] < U32Limit && s[p] + s[q] + s[t] < U32Limit
    ensures SolvePart2(input) == Some(s[p] * s[q] * s[t])
  {
  }

  const SampleLines: seq<string> := ["1721", "979", "366", "299", "675", "1456"]

  lemma SampleShown()
    ensures ShowEntries(Sample) == SampleLines
  {
    SampleShownHigh();
    SampleShownLow();
    var r := ShowEntries(Sample);
    assert forall k :: 0 <= k < 6 ==> r[k] == SampleLines[k];
  }

  lemma SampleShownHigh()
    ensures ShowNat(1721) == "1721" && ShowNat(979) == "979" && ShowNat(366) == "366"
  {
  }

  lemma SampleShownLow()
    ensures ShowNat(299) == "299" && ShowNat(675) == "675" && ShowNat(1456) == "1456"
  {
  }

  lemma SampleJoin4()
    ensures Join(SampleLines[4..], "\n") == "675\n1456"
  {
    assert Join(SampleLines[5..], "\n") == "1456";
    assert SampleLines[4..][1..] == SampleLines[5..];
    assert SampleLines[4..][0] == "675";
  }

  lemma SampleJoin3()
    ensures Join(SampleLines[3..], "\n") == "299\n675\n1456"
  {
    SampleJoin4();
    assert SampleLines[3..][1..] == SampleLines[4..];
    assert SampleLines[3..][0] == "299";
  }

  lemma SampleJoin2()
    ensures Join(SampleLines[2..], "\n") == "366\n299\n675\n1456"
  {
    SampleJoin3();
    assert SampleLines[2..][1..] == SampleLines[3..];
    assert SampleLines[2..][0] == "366";
  }

  lemma SampleJoin1()
    ensures Join(SampleLines[1..], "\n") == "979\n366\n299\n675\n1456"
  {
    SampleJoin2();
    assert SampleLines[1..][1..] == SampleLines[2..];
    assert SampleLines[1..][0] == "979";
  }

  lemma SampleJoin0()
    ensures Join(SampleLines[0..], "\n") == "1721\n979\n366\n299\n675\n1456"
  {
    SampleJoin1();
    assert SampleLines[0..][1..] == SampleLines[1..];
    assert SampleLines[0..][0] == "1721";
  }

  /** The report of the day 1 tests reads as the sample. */
  lemma SampleText()
    ensures Generator("1721\n979\n366\n299\n675\n1456") == Sample
  {
    SampleShown();
    SampleJoin0();
    assert SampleLines[0..] == SampleLines;
    GeneratorOfShown(Sample);
  }
}
