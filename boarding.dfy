/** The boarding passes of src/day5.rs: the first seven characters give the
    row in binary (`B` is a one), the rest the column (`R` is a one); the
    seat ID is `row * 8 + column`. */
module Boarding {
  import opened Common

  /* ---------------------------------------------------------------- bits */

  function Pow2(k: nat): (r: nat)
    ensures r >= 1
  {
    if k == 0 then 1 else 2 * Pow2(k - 1)
  }

  /** Bitwise or on natural numbers, as `|` on `u8`. */
  function BitOr(a: nat, b: nat): nat
    decreases a + b
  {
    if a == 0 then b
    else if b == 0 then a
    else 2 * BitOr(a / 2, b / 2) + (if a % 2 == 1 || b % 2 == 1 then 1 else 0)
  }

  /** Or-ing in a bit below every bit already set adds it. */
  lemma {:induction false} OrFreshBit(a: nat, k: nat)
    requires a % Pow2(k + 1) == 0
    ensures BitOr(a, Pow2(k)) == a + Pow2(k)
  {
    if a > 0 {
      var q := a / Pow2(k + 1);
      assert a == Pow2(k + 1) * q;
      assert a == 2 * (Pow2(k) * q);
      DivModUnique(a, 2, Pow2(k) * q, 0);
      if k > 0 {
        assert Pow2(k) == 2 * Pow2(k - 1);
        MultipleMod(Pow2(k), q);
        OrFreshBit(a / 2, k - 1);
      }
    }
  }

  /* ---------------------------------------------------------------- parse_seat */

  /** A character as the bit the fold shifts in. */
  function Bit(c: char, one: char): nat
  {
    if c == one then 1 else 0
  }

  /** The row fold: `take(7)`, character `i` shifted to bit `6 - i` and
      or-ed into the accumulator. */
  function RowFrom(s: string, i: nat, acc: nat): nat
    requires i <= 7
    decreases 7 - i
  {
    if i == 7 || i >= |s| then acc
    else RowFrom(s, i + 1, BitOr(acc, Bit(s[i], 'B') * Pow2(6 - i)))
  }

  /** The column fold over the characters after the seventh: character `i`
      shifted to bit `2 - i`. A fourth character makes `2 - index`
      underflow, which panics. */
  function ColumnFrom(t: string, i: nat, acc: nat): Option<nat>
    decreases |t| - i
  {
    if i >= |t| then Some(acc)
    else if i > 2 then None
    else ColumnFrom(t, i + 1, BitOr(acc, Bit(t[i], 'R') * Pow2(2 - i)))
  }

  /** The characters `skip(7)` leaves. */
  function AfterRow(s: string): string
  {
    if |s| <= 7 then "" else s[7..]
  }

  /** `parse_seat`; `None` where it panics. */
  function ParseSeat(s: string): Option<(nat, nat)>
  {
    match ColumnFrom(AfterRow(s), 0, 0)
    case None => None
    case Some(col) => Some((RowFrom(s, 0, 0), col))
  }

  /* ---------------------------------------------------------------- reference */

  /** The digit at `j`: one where `s` has `one` there, zero elsewhere and
      past the end. */
  function Digit(s: string, j: nat, one: char): nat
  {
    if j < |s| && s[j] == one then 1 else 0
  }

  /** The first `n` positions of `s` read as a binary number, most
      significant first. */
  function Reading(s: string, one: char, n: nat): (r: nat)
    ensures r < Pow2(n)
  {
    if n == 0 then 0 else 2 * Reading(s, one, n - 1) + Digit(s, n - 1, one)
  }

  /** Shifting in one digit of the reading: the step of both folds. */
  lemma FoldStep(s: string, one: char, i: nat, w: nat)
    requires i < w
    ensures BitOr(Reading(s, one, i) * Pow2(w - i), Digit(s, i, one) * Pow2(w - 1 - i)) ==
            Reading(s, one, i + 1) * Pow2(w - 1 - i)
  {
    var r := Reading(s, one, i);
    var p := Pow2(w - 1 - i);
    var d := Digit(s, i, one);
    assert Pow2(w - i) == 2 * p;
    ShiftIn(r, p, d);
    if d == 1 {
      MultipleMod(2 * p, r);
      assert Pow2(w - 1 - i + 1) == 2 * p;
      OrFreshBit(r * (2 * p), w - 1 - i);
    }
  }

  /** The arithmetic of shifting a digit in below a reading. */
  lemma ShiftIn(r: nat, p: nat, d: nat)
    requires d <= 1
    ensures r * (2 * p) + d * p == (2 * r + d) * p
    ensures d * p == (if d == 1 then p else 0)
    ensures r * (2 * p) == (2 * p) * r
  {
  }

  /** Past the end of `s` every digit is zero. */
  lemma {:induction false} ReadingPastEnd(s: string, one: char, i: nat, w: nat)
    requires |s| <= i <= w
    ensures Reading(s, one, w) == Reading(s, one, i) * Pow2(w - i)
    decreases w - i
  {
    if i < w {
      ReadingPastEnd(s, one, i, w - 1);
      var r := Reading(s, one, i);
      var p := Pow2(w - 1 - i);
      assert Digit(s, w - 1, one) == 0;
      assert Pow2(w - i) == 2 * p;
      Doubling(Reading(s, one, w - 1), r, p);
    }
  }

  lemma Doubling(x: nat, r: nat, p: nat)
    requires x == r * p
    ensures 2 * x + 0 == r * (2 * p)
  {
  }

  /** The row fold reads the first seven characters in binary. */
  lemma {:induction false} RowIsReading(s: string, i: nat)
    requires i <= 7
    ensures RowFrom(s, i, Reading(s, 'B', i) * Pow2(7 - i)) == Reading(s, 'B', 7)
    decreases 7 - i
  {
    if i < 7 && i < |s| {
      FoldStep(s, 'B', i, 7);
      assert Bit(s[i], 'B') == Digit(s, i, 'B');
      RowIsReading(s, i + 1);
    } else if i < 7 {
      ReadingPastEnd(s, 'B', i, 7);
    }
  }

  /** The column fold reads what follows the row in binary, when at most
      three characters do. */
  lemma {:induction false} ColumnIsReading(t: string, i: nat)
    requires i <= |t| <= 3
    ensures ColumnFrom(t, i, Reading(t, 'R', i) * Pow2(3 - i)) == Some(Reading(t, 'R', 3))
    decreases |t| - i
  {
    if i < |t| {
      FoldStep(t, 'R', i, 3);
      assert Bit(t[i], 'R') == Digit(t, i, 'R');
      ColumnIsReading(t, i + 1);
    } else {
      ReadingPastEnd(t, 'R', i, 3);
    }
  }

  /** A fourth character after the row always panics. */
  lemma {:induction false} ColumnTooLong(t: string, i: nat, acc: nat)
    requires i <= 3 < |t|
    ensures ColumnFrom(t, i, acc).None?
    decreases 3 - i
  {
    if i < 3 {
      ColumnTooLong(t, i + 1, BitOr(acc, Bit(t[i], 'R') * Pow2(2 - i)));
    }
  }

  /** What `parse_seat` computes: it fails exactly when more than ten
      characters are given; otherwise the row is the first seven characters
      in binary with `B` as one, the column the rest with `R` as one, and a
      missing character reads as zero. */
  lemma ParseSeatMeaning(s: string)
    ensures ParseSeat(s).None? <==> |s| > 10
    ensures ParseSeat(s).Some? ==> ParseSeat(s).value == (Reading(s, 'B', 7), Reading(AfterRow(s), 'R', 3))
    ensures ParseSeat(s).Some? ==> ParseSeat(s).value.0 < 128 && ParseSeat(s).value.1 < 8
  {
    RowIsReading(s, 0);
    if |AfterRow(s)| > 3 {
      ColumnTooLong(AfterRow(s), 0, 0);
    } else {
      ColumnIsReading(AfterRow(s), 0);
    }
    assert Pow2(3) == 8 && Pow2(7) == 128;
  }

  lemma ParseSeatExample1()
    ensures ParseSeat("FBFBBFFRLR") == Some((44, 5))
  {
    ParseSeatMeaning("FBFBBFFRLR");
  }

  lemma ParseSeatExample2()
    ensures ParseSeat("BFFFBBFRRR") == Some((70, 7))
  {
    ParseSeatMeaning("BFFFBBFRRR");
  }

  lemma ParseSeatExample3()
    ensures ParseSeat("FFFBBBFRRR") == Some((14, 7))
  {
    ParseSeatMeaning("FFFBBBFRRR");
  }

  lemma ParseSeatExample4()
    ensures ParseSeat("BBFFBBFRLL") == Some((102, 4))
  {
    ParseSeatMeaning("BBFFBBFRLL");
  }

  /* ---------------------------------------------------------------- generator */

  /** `generator`: every line parsed as a seat; a line that panics makes the
      whole generator panic. */
  function Generator(input: string): (r: Option<seq<(nat, nat)>>)
    ensures r.Some? <==> forall k :: 0 <= k < |Lines(input)| ==> |Lines(input)[k]| <= 10
    ensures r.Some? ==> |r.value| == |Lines(input)|
    ensures r.Some? ==> forall k :: 0 <= k < |r.value| ==> ParseSeat(Lines(input)[k]) == Some(r.value[k])
  {
    Seats(Lines(input))
  }

  function Seats(lines: seq<string>): (r: Option<seq<(nat, nat)>>)
    ensures r.Some? <==> forall k :: 0 <= k < |lines| ==> |lines[k]| <= 10
    ensures r.Some? ==> |r.value| == |lines| && forall k :: 0 <= k < |lines| ==> ParseSeat(lines[k]) == Some(r.value[k])
  {
    if |lines| == 0 then Some([])
    else
      ParseSeatMeaning(lines[0]);
      var rest := Seats(lines[1..]);
      assert forall k :: 1 <= k < |lines| ==> lines[k] == lines[1..][k - 1];
      match ParseSeat(lines[0])
      case None => None
      case Some(seat) =>
        match rest
        case None => None
        case Some(seats) => Some([seat] + seats)
  }

  /* ---------------------------------------------------------------- seat IDs */

  function SeatId(seat: (nat, nat)): nat
  {
    seat.0 * 8 + seat.1
  }

  /** The ID determines the seat: the row is the ID divided by 8, the column
      the remainder. */
  lemma SeatIdInverse(seat: (nat, nat))
    requires seat.1 < 8
    ensures SeatId(seat) / 8 == seat.0 && SeatId(seat) % 8 == seat.1
  {
    DivModUnique(SeatId(seat), 8, seat.0, seat.1);
  }

  function Ids(seats: seq<(nat, nat)>): (r: seq<int>)
    ensures |r| == |seats| && forall k :: 0 <= k < |seats| ==> r[k] == SeatId(seats[k])
  {
    seq(|seats|, k requires 0 <= k < |seats| => SeatId(seats[k]) as int)
  }

  /** `solve_part1`: the highest seat ID; `None` for no seats, where `max`
      gives nothing to `unwrap`. */
  function SolvePart1(seats: seq<(nat, nat)>): (r: Option<int>)
    ensures r.Some? <==> |seats| > 0
    ensures r.Some? ==> (exists k :: 0 <= k < |seats| && SeatId(seats[k]) == r.value) &&
                        forall k :: 0 <= k < |seats| ==> SeatId(seats[k]) <= r.value
  {
    if |seats| == 0 then None
    else
      var ids := Ids(seats);
      var m := SeqMax(ids);
      assert exists k :: 0 <= k < |ids| && ids[k] == m;
      Some(m)
  }

  /** The first `k` from `from` on with `s[k] + 1 != s[k + 1]`. */
  function GapAt(s: seq<int>, from: nat): (r: Option<nat>)
    ensures r.Some? ==> from <= r.value && r.value + 1 < |s| && s[r.value] + 1 != s[r.value + 1]
    ensures r.Some? ==> forall j :: from <= j < r.value ==> s[j] + 1 == s[j + 1]
    ensures r.None? <==> forall j :: from <= j && j + 1 < |s| ==> s[j] + 1 == s[j + 1]
    decreases |s| - from
  {
    if from + 1 >= |s| then None
    else if s[from] + 1 != s[from + 1] then Some(from)
    else GapAt(s, from + 1)
  }

  /** After the sorted IDs, the first ID whose successor is not the next
      ID, plus one. */
  function AfterFirstGap(ids: seq<int>): Option<int>
  {
    var sorted := Sort(ids);
    match GapAt(sorted, 0)
    case None => None
    case Some(k) => Some(sorted[k] + 1)
  }

  /** `solve_part2`; `None` where there is no such pair to `unwrap`. */
  function SolvePart2(seats: seq<(nat, nat)>): Option<int>
  {
    AfterFirstGap(Ids(seats))
  }

  /** No ID occurs twice. */
  ghost predicate Distinct(ids: seq<int>)
  {
    forall x :: multiset(ids)[x] <= 1
  }

  /** When no two passes share an ID, the seat part two finds is free, the
      seat before it is taken, and so is every seat from the lowest ID up
      to it. */
  lemma MissingSeat(seats: seq<(nat, nat)>)
    requires Distinct(Ids(seats)) && SolvePart2(seats).Some?
    ensures var ids := Ids(seats);
      var v := SolvePart2(seats).value;
      && v !in ids && v - 1 in ids
      && exists k :: 0 <= k < |ids| && TakenFromLowest(ids, k, v)
  {
    MissingId(Ids(seats));
  }

  lemma MissingId(ids: seq<int>)
    requires Distinct(ids) && AfterFirstGap(ids).Some?
    ensures var v := AfterFirstGap(ids).value;
      && v !in ids && v - 1 in ids
      && exists k :: 0 <= k < |ids| && TakenFromLowest(ids, k, v)
  {
    FreeAfterGap(ids);
    TakenBelowGap(ids);
  }

  /** The ID after the first gap is free, and the one before it taken. */
  lemma FreeAfterGap(ids: seq<int>)
    requires Distinct(ids) && AfterFirstGap(ids).Some?
    ensures AfterFirstGap(ids).value !in ids && AfterFirstGap(ids).value - 1 in ids
  {
    var sorted := Sort(ids);
    var k := GapAt(sorted, 0).value;
    GapIsFree(sorted, k);
    assert sorted[k] + 1 !in multiset(ids);
    assert sorted[k] in multiset(ids);
  }

  /** Every ID from the lowest up to the gap is taken. */
  lemma TakenBelowGap(ids: seq<int>)
    requires AfterFirstGap(ids).Some?
    ensures exists k :: 0 <= k < |ids| && TakenFromLowest(ids, k, AfterFirstGap(ids).value)
  {
    var sorted := Sort(ids);
    var k := GapAt(sorted, 0).value;
    var v := sorted[k] + 1;
    BelowGapTaken(sorted, k);
    assert AfterFirstGap(ids) == Some(v);
    var m := FirstIsLeast(ids);
    TakenInBag(ids, sorted, m, v);
  }

  /** Values taken in a sequence are taken in any sequence with the same
      elements. */
  lemma TakenInBag(ids: seq<int>, s: seq<int>, m: nat, v: int)
    requires multiset(s) == multiset(ids)
    requires m < |ids| && forall j :: 0 <= j < |ids| ==> ids[m] <= ids[j]
    requires forall x :: ids[m] <= x < v ==> x in multiset(s)
    ensures TakenFromLowest(ids, m, v)
  {
    var lo := ids[m];
    forall x | lo <= x < v
      ensures x in ids
    {
      assert x in multiset(ids);
    }
  }

  /** `ids[k]` is the lowest ID, and every seat from it up to `v` is
      taken. */
  predicate TakenFromLowest(ids: seq<int>, k: nat, v: int)
    requires k < |ids|
  {
    && (forall j :: 0 <= j < |ids| ==> ids[k] <= ids[j])
    && forall x :: ids[k] <= x < v ==> x in ids
  }

  /** Every value from the first sorted ID up to the gap is present. */
  lemma BelowGapTaken(s: seq<int>, k: nat)
    requires GapAt(s, 0) == Some(k)
    ensures forall x :: s[0] <= x < s[k] + 1 ==> x in multiset(s)
  {
    Contiguous(s, k);
    forall x | s[0] <= x < s[k] + 1
      ensures x in multiset(s)
    {
      assert s[x - s[0]] == x;
    }
  }

  /** The value after the gap is in no position of the sorted IDs. */
  lemma GapIsFree(s: seq<int>, k: nat)
    requires SortedAsc(s) && Distinct(s) && GapAt(s, 0) == Some(k)
    ensures forall j :: 0 <= j < |s| ==> s[j] != s[k] + 1
  {
    AdjacentDistinct(s, k);
    forall j | 0 <= j < |s|
      ensures s[j] != s[k] + 1
    {
      if j > k {
        assert s[k + 1] <= s[j];
      }
    }
  }

  /** The first of the sorted IDs is an ID no other ID is below. */
  lemma FirstIsLeast(ids: seq<int>) returns (m: nat)
    requires |ids| > 0
    ensures m < |ids| && ids[m] == Sort(ids)[0] && forall j :: 0 <= j < |ids| ==> ids[m] <= ids[j]
  {
    var sorted := Sort(ids);
    assert sorted[0] in multiset(ids);
    m :| 0 <= m < |ids| && ids[m] == sorted[0];
    forall j | 0 <= j < |ids|
      ensures ids[m] <= ids[j]
    {
      assert ids[j] in multiset(sorted);
      var i :| 0 <= i < |sorted| && sorted[i] == ids[j];
    }
  }

  /** Neighbours in a sequence without repeats differ. */
  lemma AdjacentDistinct(s: seq<int>, k: nat)
    requires k + 1 < |s| && Distinct(s)
    ensures s[k] != s[k + 1]
  {
    assert s == s[..k] + [s[k], s[k + 1]] + s[k + 2..];
    assert multiset(s)[s[k]] >= multiset([s[k], s[k + 1]])[s[k]];
  }

  /** Up to the first gap the sorted IDs go up by one. */
  lemma {:induction false} Contiguous(s: seq<int>, k: nat)
    requires GapAt(s, 0).Some? && k <= GapAt(s, 0).value
    ensures forall j :: 0 <= j <= k ==> s[j] == s[0] + j
  {
    if k > 0 {
      Contiguous(s, k - 1);
      assert s[k - 1] + 1 == s[k];
    }
  }
}
