/** Building blocks shared by the puzzle solvers: an Option type, the text
    splitting that the solvers do with Rust's `str::split`, `str::split_terminator`
    and `str::lines`, decimal integer parsing as `str::parse` does it, and the
    ascending sort that `Itertools::sorted` performs on integers. */
module Common {

  datatype Option<T> = None | Some(value: T)

  /** A value, or the reason the source would have stopped (a panic or an
      error it reports). */
  datatype Result<T, E> = Ok(value: T) | Err(error: E)

  /** What one application of a parser gives: no match (a recoverable
      parse error, which ends a repetition), a panic (an `unwrap` or an
      `unreachable!` reached while parsing), or a value and the input after it. */
  datatype Outcome<T> = NoMatch | Panic | Parsed(value: T, rest: string)

  /* ---------------------------------------------------------------- search */

  /** `pat` occurs in `s` starting at position `i`. */
  predicate OccursAt(s: string, pat: string, i: nat)
  {
    i + |pat| <= |s| && s[i..i + |pat|] == pat
  }

  /** The earliest position at or after `from` where `pat` occurs in `s`. */
  function FindFrom(s: string, pat: string, from: nat): (r: Option<nat>)
    requires |pat| > 0
    ensures r.Some? ==> from <= r.value && OccursAt(s, pat, r.value)
    ensures r.Some? ==> forall i :: from <= i < r.value ==> !OccursAt(s, pat, i)
    ensures r.None? ==> forall i :: from <= i ==> !OccursAt(s, pat, i)
    decreases |s| - from
  {
    if from + |pat| > |s| then None
    else if s[from..from + |pat|] == pat then Some(from)
    else FindFrom(s, pat, from + 1)
  }

  /** The first occurrence of `pat` in `s` (Rust's `str::find`). */
  function Find(s: string, pat: string): (r: Option<nat>)
    requires |pat| > 0
    ensures r.Some? ==> OccursAt(s, pat, r.value)
    ensures r.Some? ==> forall i :: 0 <= i < r.value ==> !OccursAt(s, pat, i)
    ensures r.None? ==> forall i :: 0 <= i ==> !OccursAt(s, pat, i)
  {
    FindFrom(s, pat, 0)
  }

  predicate Contains(s: string, pat: string)
    requires |pat| > 0
  {
    Find(s, pat).Some?
  }

  /** A pattern does not occur where its first character cannot start it. */
  lemma FirstCharAbsent(s: string, pat: string)
    requires |pat| > 0
    requires forall i :: 0 <= i && i + |pat| <= |s| ==> s[i] != pat[0]
    ensures !Contains(s, pat)
  {
    forall i | 0 <= i && i + |pat| <= |s|
      ensures !OccursAt(s, pat, i)
    {
      assert s[i..i + |pat|][0] == s[i];
    }
  }

  /** No occurrence of `pat` in `pre + pat` starts inside `pre` and ends
      inside the appended `pat`. */
  predicate NoStraddle(pre: string, pat: string)
  {
    forall p: nat :: p < |pre| < p + |pat| ==> !OccursAt(pre + pat, pat, p)
  }

  lemma StraddleAt(pre: string, pat: string, p: nat)
    requires NoStraddle(pre, pat) && p < |pre| < p + |pat|
    ensures !OccursAt(pre + pat, pat, p)
  {
  }

  /** A pattern is found right where it is placed after a prefix that does
      not contain it, when no occurrence straddles the two. */
  lemma FindAtJoinWith(pre: string, rest: string, pat: string)
    requires |pat| > 0 && !Contains(pre, pat) && StartsWith(rest, pat) && NoStraddle(pre, pat)
    ensures Find(pre + rest, pat) == Some(|pre|)
  {
    var s := pre + rest;
    assert s[|pre|..|pre| + |pat|] == rest[..|pat|];
    assert OccursAt(s, pat, |pre|);
    assert s[..|pre| + |pat|] == pre + pat;
    forall p | 0 <= p < |pre|
      ensures !OccursAt(s, pat, p)
    {
      if p + |pat| <= |pre| {
        assert pre[p..p + |pat|] == s[p..p + |pat|];
        assert !OccursAt(pre, pat, p);
      } else {
        StraddleAt(pre, pat, p);
        SliceWithinPrefix(s, pre + pat, p, p + |pat|);
      }
    }
  }

  /** A slice within a prefix of `s` is the same slice of the prefix. */
  lemma SliceWithinPrefix(s: string, t: string, i: nat, j: nat)
    requires i <= j <= |t| <= |s| && s[..|t|] == t
    ensures s[i..j] == t[i..j]
  {
    forall k | 0 <= k < j - i
      ensures s[i..j][k] == t[i..j][k]
    {
      assert s[i + k] == s[..|t|][i + k];
    }
  }

  /** A pattern whose first character does not recur in it never straddles. */
  lemma StraddleFree(pre: string, pat: string)
    requires |pat| > 0 && forall k :: 1 <= k < |pat| ==> pat[k] != pat[0]
    ensures NoStraddle(pre, pat)
  {
    forall p: nat | p < |pre| < p + |pat|
      ensures !OccursAt(pre + pat, pat, p)
    {
      var k := |pre| - p;
      assert (pre + pat)[p..p + |pat|][k] == pat[0];
    }
  }

  /** A pattern that starts with a character it does not repeat is found
      right where it is placed after a prefix that does not contain it. */
  lemma FindAtJoin(pre: string, rest: string, pat: string)
    requires |pat| > 0 && !Contains(pre, pat) && StartsWith(rest, pat)
    requires forall k :: 1 <= k < |pat| ==> pat[k] != pat[0]
    ensures Find(pre + rest, pat) == Some(|pre|)
  {
    StraddleFree(pre, pat);
    FindAtJoinWith(pre, rest, pat);
  }

  /** `s.starts_with(p)`, the test behind nom's `tag`. */
  predicate StartsWith(s: string, p: string)
  {
    |p| <= |s| && s[..|p|] == p
  }

  /* ---------------------------------------------------------------- sets */

  lemma ProperSubsetSmaller<T>(a: set<T>, b: set<T>)
    requires a < b
    ensures |a| < |b|
  {
    assert b - a != {};
    var x :| x in b - a;
    assert a <= b - {x};
    assert |b - {x}| == |b| - 1;
    SubsetNoLarger(a, b - {x});
  }

  lemma {:induction false} SubsetNoLarger<T>(a: set<T>, b: set<T>)
    requires a <= b
    ensures |a| <= |b|
    decreases |b|
  {
    if a != {} {
      var x :| x in a;
      SubsetNoLarger(a - {x}, b - {x});
    }
  }

  /* ---------------------------------------------------------------- splitting */

  /** `s.split(sep)`: the pieces between the non-overlapping occurrences of
      `sep`, scanned from the left; there is always at least one piece. */
  function Split(s: string, sep: string): (r: seq<string>)
    requires |sep| > 0
    ensures |r| >= 1
    ensures forall k :: 0 <= k < |r| ==> !Contains(r[k], sep)
    ensures Join(r, sep) == s
    decreases |s|
  {
    match Find(s, sep)
    case None => [s]
    case Some(i) =>
      var rest := Split(s[i + |sep|..], sep);
      NothingBeforeFirst(s, sep, i);
      assert ([s[..i]] + rest)[1..] == rest;
      assert s == s[..i] + sep + s[i + |sep|..];
      [s[..i]] + rest
  }

  lemma NothingBeforeFirst(s: string, sep: string, i: nat)
    requires |sep| > 0 && Find(s, sep) == Some(i)
    ensures !Contains(s[..i], sep)
  {
    if Contains(s[..i], sep) {
      var j := Find(s[..i], sep).value;
      assert s[..i][j..j + |sep|] == s[j..j + |sep|];
      assert OccursAt(s, sep, j);
    }
  }

  /** Glue the pieces back together with `sep` between consecutive pieces. */
  function Join(parts: seq<string>, sep: string): string
  {
    if |parts| == 0 then ""
    else if |parts| == 1 then parts[0]
    else parts[0] + sep + Join(parts[1..], sep)
  }

  /** Splitting what `Join` glued gives the pieces back, when no piece
      contains the separator and the separator's first character does not
      occur again in it (so no occurrence straddles a piece and a separator). */
  lemma {:induction false} SplitOfJoin(parts: seq<string>, sep: string)
    requires |parts| >= 1 && |sep| >= 1
    requires forall k :: 1 <= k < |sep| ==> sep[k] != sep[0]
    requires forall k :: 0 <= k < |parts| ==> !Contains(parts[k], sep)
    ensures Split(Join(parts, sep), sep) == parts
  {
    if |parts| == 1 {
      assert Find(parts[0], sep).None?;
    } else {
      var tail := Join(parts[1..], sep);
      assert Join(parts, sep) == parts[0] + (sep + tail);
      assert StartsWith(sep + tail, sep);
      StraddleFree(parts[0], sep);
      SplitOfJoin(parts[1..], sep);
      SplitCons(parts[0], tail, sep, parts[1..]);
      assert parts == [parts[0]] + parts[1..];
    }
  }

  /** A piece free of the separator, the separator, then text that splits
      into `rest`: the split is the piece followed by `rest`. */
  lemma SplitCons(piece: string, tail: string, sep: string, rest: seq<string>)
    requires |sep| > 0 && !Contains(piece, sep) && NoStraddle(piece, sep)
    requires Split(tail, sep) == rest
    ensures Split(piece + (sep + tail), sep) == [piece] + rest
  {
    var s := piece + (sep + tail);
    assert StartsWith(sep + tail, sep);
    FindAtJoinWith(piece, sep + tail, sep);
    assert s[|piece| + |sep|..] == tail;
    assert s[..|piece|] == piece;
  }

  /** Two pieces around one separator split back into those pieces. */
  lemma SplitPair(a: string, b: string, sep: string)
    requires |sep| >= 1
    requires forall k :: 1 <= k < |sep| ==> sep[k] != sep[0]
    requires !Contains(a, sep) && !Contains(b, sep)
    ensures Split(a + sep + b, sep) == [a, b]
  {
    assert [a, b][1..] == [b];
    assert Join([a, b], sep) == a + sep + b;
    SplitOfJoin([a, b], sep);
  }

  /** `SplitOfJoin` for any separator, when no occurrence straddles a
      piece and the separator after it. */
  lemma {:induction false} SplitOfJoinWith(parts: seq<string>, sep: string)
    requires |parts| >= 1 && |sep| >= 1
    requires forall k :: 0 <= k < |parts| ==> !Contains(parts[k], sep)
    requires forall k :: 0 <= k < |parts| - 1 ==> NoStraddle(parts[k], sep)
    ensures Split(Join(parts, sep), sep) == parts
  {
    if |parts| == 1 {
      assert Find(parts[0], sep).None?;
    } else {
      var tail := Join(parts[1..], sep);
      assert Join(parts, sep) == parts[0] + (sep + tail);
      SplitOfJoinWith(parts[1..], sep);
      SplitCons(parts[0], tail, sep, parts[1..]);
      assert parts == [parts[0]] + parts[1..];
    }
  }

  /** `s.split_terminator(sep)`: like `Split` but a final empty piece is dropped. */
  function SplitTerminator(s: string, sep: string): seq<string>
    requires |sep| > 0
  {
    DropEmptyLast(Split(s, sep))
  }

  /** The pieces without the last one when that one is empty. */
  function DropEmptyLast(parts: seq<string>): (r: seq<string>)
    requires |parts| >= 1
    ensures |r| <= |parts|
    ensures forall k :: 0 <= k < |r| ==> r[k] == parts[k]
    ensures |r| < |parts| <==> parts[|parts| - 1] == ""
  {
    if parts[|parts| - 1] == "" then parts[..|parts| - 1] else parts
  }

  function StripCarriageReturn(line: string): string
  {
    if |line| > 0 && line[|line| - 1] == '\r' then line[..|line| - 1] else line
  }

  /** `s.lines()`: split at `\n`, ignore one final `\n`, and drop a `\r`
      that ends a line (the Rust standard library of 2020). */
  function Lines(s: string): (r: seq<string>)
    ensures |r| == |SplitTerminator(s, "\n")|
    ensures forall k :: 0 <= k < |r| ==> r[k] == StripCarriageReturn(SplitTerminator(s, "\n")[k])
  {
    var parts := SplitTerminator(s, "\n");
    seq(|parts|, k requires 0 <= k < |parts| => StripCarriageReturn(parts[k]))
  }

  /** Every row followed by a `\n`. */
  function Terminated(rows: seq<string>): string
  {
    if |rows| == 0 then "" else rows[0] + "\n" + Terminated(rows[1..])
  }

  predicate PlainLine(line: string)
  {
    (forall i :: 0 <= i < |line| ==> line[i] != '\n') && StripCarriageReturn(line) == line
  }

  lemma {:induction false} SplitTerminatedRows(rows: seq<string>)
    requires forall k :: 0 <= k < |rows| ==> forall i :: 0 <= i < |rows[k]| ==> rows[k][i] != '\n'
    ensures Split(Terminated(rows), "\n") == rows + [""]
  {
    if |rows| == 0 {
      assert Find("", "\n").None?;
    } else {
      var row := rows[0];
      var tail := Terminated(rows[1..]);
      assert Terminated(rows) == row + ("\n" + tail);
      NoCharNoMatch(row, '\n');
      StraddleFree(row, "\n");
      SplitTerminatedRows(rows[1..]);
      SplitCons(row, tail, "\n", rows[1..] + [""]);
      assert rows + [""] == [row] + (rows[1..] + [""]);
    }
  }

  /** Whatever rows `Terminated` writes, `Lines` reads back. */
  lemma LinesOfTerminated(rows: seq<string>)
    requires forall k :: 0 <= k < |rows| ==> PlainLine(rows[k])
    ensures Lines(Terminated(rows)) == rows
  {
    var text := Terminated(rows);
    SplitTerminatedRows(rows);
    DropFinalEmpty(text, rows);
    var r := Lines(text);
    forall k | 0 <= k < |rows|
      ensures r[k] == rows[k]
    {
      assert PlainLine(rows[k]);
    }
  }

  /** The lines of rows glued with `\n` and no final `\n` are the rows,
      when the last row is not empty. */
  lemma LinesOfJoin(rows: seq<string>)
    requires |rows| >= 1 && rows[|rows| - 1] != ""
    requires forall k :: 0 <= k < |rows| ==> PlainLine(rows[k])
    ensures Lines(Join(rows, "\n")) == rows
  {
    SplitOfPlainRows(rows);
    LinesOfSplit(Join(rows, "\n"), rows);
  }

  lemma SplitOfPlainRows(rows: seq<string>)
    requires |rows| >= 1
    requires forall k :: 0 <= k < |rows| ==> PlainLine(rows[k])
    ensures Split(Join(rows, "\n"), "\n") == rows
  {
    forall k | 0 <= k < |rows|
      ensures !Contains(rows[k], "\n")
    {
      assert PlainLine(rows[k]);
      NoCharNoMatch(rows[k], '\n');
    }
    SplitOfJoin(rows, "\n");
  }

  lemma LinesOfSplit(text: string, rows: seq<string>)
    requires |rows| >= 1 && rows[|rows| - 1] != ""
    requires forall k :: 0 <= k < |rows| ==> PlainLine(rows[k])
    requires Split(text, "\n") == rows
    ensures Lines(text) == rows
  {
    assert SplitTerminator(text, "\n") == rows;
    forall k | 0 <= k < |rows|
      ensures Lines(text)[k] == rows[k]
    {
      assert PlainLine(rows[k]);
    }
  }

  lemma DropFinalEmpty(text: string, rows: seq<string>)
    requires Split(text, "\n") == rows + [""]
    ensures SplitTerminator(text, "\n") == rows
  {
    assert (rows + [""])[..|rows|] == rows;
  }

  /* ---------------------------------------------------------------- scanning */

  /** The characters that nom's `multispace0` consumes. */
  predicate IsMultispace(c: char)
  {
    c == ' ' || c == '\t' || c == '\r' || c == '\n'
  }

  lemma SkipSpaceAfterSpace(t: string)
    requires |t| > 0 && !IsMultispace(t[0])
    ensures SkipSpace(" " + t) == t
  {
    assert (" " + t)[1..] == t;
  }

  /** `multispace0`: drop the leading run of spaces, tabs and line breaks. */
  function SkipSpace(s: string): (r: string)
    ensures |r| <= |s| && r == s[|s| - |r|..]
    ensures forall i :: 0 <= i < |s| - |r| ==> IsMultispace(s[i])
    ensures |r| > 0 ==> !IsMultispace(r[0])
  {
    if |s| > 0 && IsMultispace(s[0]) then SkipSpace(s[1..]) else s
  }

  /* ---------------------------------------------------------------- numbers */

  predicate IsDigit(c: char)
  {
    '0' <= c <= '9'
  }

  predicate AllDigits(s: string)
  {
    forall i :: 0 <= i < |s| ==> IsDigit(s[i])
  }

  function DigitValue(c: char): (d: nat)
    requires IsDigit(c)
    ensures d < 10
  {
    (c as int) - ('0' as int)
  }

  function DigitChar(d: nat): (c: char)
    requires d < 10
    ensures IsDigit(c) && DigitValue(c) == d
  {
    (('0' as int) + d) as char
  }

  /** The value of a string of decimal digits, most significant first. */
  function DigitsValue(s: string): nat
    requires AllDigits(s)
  {
    if |s| == 0 then 0 else 10 * DigitsValue(s[..|s| - 1]) + DigitValue(s[|s| - 1])
  }

  /** The shortest decimal digit string of `n`. */
  function ShowNat(n: nat): (s: string)
    ensures |s| > 0 && AllDigits(s)
  {
    if n < 10 then [DigitChar(n)] else ShowNat(n / 10) + [DigitChar(n % 10)]
  }

  lemma {:induction false} DigitsValueOfShowNat(n: nat)
    ensures DigitsValue(ShowNat(n)) == n
  {
    if n >= 10 {
      DigitsValueOfShowNat(n / 10);
      var s := ShowNat(n);
      assert s[..|s| - 1] == ShowNat(n / 10);
    }
  }

  /** `s.parse::<u32>()` / `s.parse::<usize>()`: an optional `+`, then at
      least one decimal digit and nothing else (widths are not modelled). */
  function ParseNat(s: string): (r: Option<nat>)
    ensures r.Some? <==> (|s| > 0 && s[0] != '+' && AllDigits(s)) || (|s| > 1 && s[0] == '+' && AllDigits(s[1..]))
  {
    if |s| > 0 && s[0] == '+' then
      (if |s| > 1 && AllDigits(s[1..]) then Some(DigitsValue(s[1..])) else None)
    else if |s| > 0 && AllDigits(s) then Some(DigitsValue(s))
    else None
  }

  /** `s.parse::<isize>()` / `s.parse::<i32>()`: an optional `+` or `-`,
      then at least one decimal digit and nothing else. */
  function ParseInt(s: string): (r: Option<int>)
    ensures r.Some? && |s| > 0 && s[0] == '-' ==> r.value <= 0
    ensures r.Some? && |s| > 0 && s[0] != '-' ==> r.value >= 0
    ensures |s| > 0 && s[0] != '-' ==> (r.Some? <==> ParseNat(s).Some?)
  {
    if |s| > 0 && s[0] == '-' then
      (if |s| > 1 && AllDigits(s[1..]) then Some(0 - DigitsValue(s[1..])) else None)
    else
      match ParseNat(s)
      case Some(n) => Some(n as int)
      case None => None
  }

  /** An integer with an explicit sign, as in `+4` or `-99`. */
  function ShowSigned(n: int): string
  {
    (if n < 0 then "-" else "+") + ShowNat(if n < 0 then -n else n)
  }

  lemma ParseNatOfShowNat(n: nat)
    ensures ParseNat(ShowNat(n)) == Some(n)
  {
    DigitsValueOfShowNat(n);
  }

  lemma ParseIntOfShowSigned(n: int)
    ensures ParseInt(ShowSigned(n)) == Some(n)
  {
    var m: nat := if n < 0 then -n else n;
    DigitsValueOfShowNat(m);
    assert ShowSigned(n)[1..] == ShowNat(m);
  }

  /** The range of `isize` on a 64-bit target. */
  const IsizeMin: int := -0x8000_0000_0000_0000
  const IsizeMax: int := 0x7FFF_FFFF_FFFF_FFFF

  /** `s.parse::<isize>().ok()`. */
  function ParseIsize(s: string): (r: Option<int>)
    ensures r.Some? ==> IsizeMin <= r.value <= IsizeMax
    ensures r.Some? <==> ParseInt(s).Some? && IsizeMin <= ParseInt(s).value <= IsizeMax
  {
    match ParseInt(s)
    case Some(v) => if IsizeMin <= v <= IsizeMax then Some(v) else None
    case None => None
  }

  /** The range of `i32`. */
  const I32Min: int := -0x8000_0000
  const I32Max: int := 0x7FFF_FFFF

  /** `s.parse::<i32>().ok()`. */
  function ParseI32(s: string): (r: Option<int>)
    ensures r.Some? ==> I32Min <= r.value <= I32Max
    ensures r.Some? <==> ParseInt(s).Some? && I32Min <= ParseInt(s).value <= I32Max
  {
    match ParseInt(s)
    case Some(v) => if I32Min <= v <= I32Max then Some(v) else None
    case None => None
  }

  /** One past the largest `usize` on a 64-bit target. */
  const UsizeLimit: int := 0x1_0000_0000_0000_0000

  /** The lines that parse as `usize`, in input order; the others are
      dropped by `filter_map(... .ok())`. */
  function Readings(lines: seq<string>): (r: seq<int>)
    ensures forall i :: 0 <= i < |r| ==> 0 <= r[i] < UsizeLimit
  {
    if |lines| == 0 then []
    else
      var rest := Readings(lines[1..]);
      match ParseUsize(lines[0])
      case Some(n) => [n as int] + rest
      case None => rest
  }

  /** `s.parse::<usize>().ok()`. */
  function ParseUsize(s: string): (r: Option<nat>)
    ensures r.Some? ==> r.value < UsizeLimit
    ensures r.Some? <==> ParseNat(s).Some? && ParseNat(s).value < UsizeLimit
    ensures r.Some? ==> r == ParseNat(s)
  {
    match ParseNat(s)
    case Some(n) => if n < UsizeLimit then Some(n) else None
    case None => None
  }

  /** The lines of numbers written one per line. */
  function ShowReadings(nums: seq<int>): (r: seq<string>)
    ensures |r| == |nums|
  {
    if |nums| == 0 then [] else [ShowNat(if nums[0] < 0 then 0 else nums[0])] + ShowReadings(nums[1..])
  }

  /** Round trip: numbers in the `usize` range written one per line are read
      back, in order. */
  lemma {:induction false} ReadingsOfShown(nums: seq<int>)
    requires forall i :: 0 <= i < |nums| ==> 0 <= nums[i] < UsizeLimit
    ensures Readings(ShowReadings(nums)) == nums
  {
    if |nums| > 0 {
      ParseNatOfShowNat(nums[0]);
      ReadingsOfShown(nums[1..]);
      assert ShowReadings(nums)[1..] == ShowReadings(nums[1..]);
      assert [nums[0]] + nums[1..] == nums;
    }
  }

  lemma DigitsPlain(s: string)
    requires AllDigits(s)
    ensures PlainLine(s)
  {
  }

  /** The numbers written one per line, each line ended by `\n`, are read
      back. */
  lemma ReadingsOfText(nums: seq<int>)
    requires forall i :: 0 <= i < |nums| ==> 0 <= nums[i] < UsizeLimit
    ensures Readings(Lines(Terminated(ShowReadings(nums)))) == nums
  {
    var rows := ShowReadings(nums);
    forall k | 0 <= k < |rows|
      ensures PlainLine(rows[k])
    {
      ShownRow(nums, k);
      DigitsPlain(rows[k]);
    }
    LinesOfTerminated(rows);
    ReadingsOfShown(nums);
  }

  lemma {:induction false} ShownRow(nums: seq<int>, k: nat)
    requires k < |nums|
    ensures AllDigits(ShowReadings(nums)[k])
  {
    if k > 0 {
      ShownRow(nums[1..], k - 1);
    }
  }

  /* ---------------------------------------------------------------- arithmetic */

  lemma MulNonNegative(x: int, y: int)
    requires x >= 0 && y >= 0
    ensures x * y >= 0
  {
  }

  /** Quotient and remainder are unique. */
  lemma DivModUnique(a: int, b: int, q: int, r: int)
    requires b >= 1 && a == b * q + r && 0 <= r < b
    ensures a % b == r && a / b == q
  {
    var t := q - a / b;
    assert b * t == a % b - r;
    if t >= 1 {
      MulNonNegative(b, t - 1);
    } else if t <= -1 {
      MulNonNegative(b, -t - 1);
    }
  }

  /** Adding a multiple of `b` does not change the remainder by `b`. */
  lemma ModAddMultiple(a: int, b: int, c: int)
    requires b >= 1
    ensures (a + b * c) % b == a % b
  {
    DivModUnique(a + b * c, b, a / b + c, a % b);
  }

  lemma MultipleMod(b: int, k: int)
    requires b >= 1
    ensures (b * k) % b == 0
  {
    DivModUnique(b * k, b, k, 0);
  }

  /** A string none of whose characters is `c` does not contain `[c]`. */
  lemma NoCharNoMatch(s: string, c: char)
    requires forall i :: 0 <= i < |s| ==> s[i] != c
    ensures !Contains(s, [c])
  {
    forall i | 0 <= i
      ensures !OccursAt(s, [c], i)
    {
      if i + 1 <= |s| {
        assert s[i..i + 1][0] == s[i];
      }
    }
  }

  /* ---------------------------------------------------------------- extremes */

  /** The smallest value of a non-empty sequence. */
  function SeqMin(s: seq<int>): (r: int)
    requires |s| > 0
    ensures r in s && forall i :: 0 <= i < |s| ==> r <= s[i]
  {
    if |s| == 1 then s[0]
    else
      var m := SeqMin(s[1..]);
      assert forall i :: 1 <= i < |s| ==> s[i] == s[1..][i - 1];
      if s[0] <= m then s[0] else m
  }

  /** The largest value of a non-empty sequence. */
  function SeqMax(s: seq<int>): (r: int)
    requires |s| > 0
    ensures r in s && forall i :: 0 <= i < |s| ==> s[i] <= r
  {
    if |s| == 1 then s[0]
    else
      var m := SeqMax(s[1..]);
      assert forall i :: 1 <= i < |s| ==> s[i] == s[1..][i - 1];
      if s[0] >= m then s[0] else m
  }


  lemma {:induction false} Extremes(s: set<int>) returns (lo: int, hi: int)
    requires s != {}
    ensures lo in s && hi in s && forall y :: y in s ==> lo <= y <= hi
  {
    assert exists x :: x in s by {
      if forall x :: x !in s {
        assert false;
      }
    }
    var x :| x in s;
    if s == {x} {
      lo, hi := x, x;
    } else {
      var l, h := Extremes(s - {x});
      lo := if x < l then x else l;
      hi := if x > h then x else h;
      assert forall y :: y in s ==> y == x || y in s - {x};
    }
  }

  lemma HasExtremes(s: set<int>)
    requires s != {}
    ensures exists x :: x in s && forall y :: y in s ==> x <= y
    ensures exists x :: x in s && forall y :: y in s ==> y <= x
  {
    var lo, hi := Extremes(s);
  }

  /** The least element of a non-empty finite set (`keys().min().unwrap()`). */
  function SetMin(s: set<int>): (r: int)
    requires s != {}
    ensures r in s && forall x :: x in s ==> r <= x
  {
    HasExtremes(s);
    var x :| x in s && forall y :: y in s ==> x <= y;
    x
  }

  /** The largest element of a non-empty finite set (`keys().max().unwrap()`). */
  function SetMax(s: set<int>): (r: int)
    requires s != {}
    ensures r in s && forall x :: x in s ==> x <= r
  {
    HasExtremes(s);
    var x :| x in s && forall y :: y in s ==> y <= x;
    x
  }

  /* ---------------------------------------------------------------- sorting */

  predicate SortedAsc(s: seq<int>)
  {
    forall i, j :: 0 <= i < j < |s| ==> s[i] <= s[j]
  }

  /** The last element of the sorted sequence is its maximum. */
  lemma SortLastIsMax(s: seq<int>)
    requires |s| > 0
    ensures Sort(s)[|s| - 1] == SeqMax(s)
  {
    LastIsMax(Sort(s), s);
  }

  lemma LastIsMax(r: seq<int>, s: seq<int>)
    requires |s| > 0 && SortedAsc(r) && multiset(r) == multiset(s)
    ensures |r| == |s| && r[|r| - 1] == SeqMax(s)
  {
    assert |r| == |multiset(r)| == |multiset(s)| == |s|;
    var m := SeqMax(s);
    assert r[|r| - 1] in multiset(s);
    assert m in multiset(r);
    var i :| 0 <= i < |r| && r[i] == m;
  }

  /** Put `x` in front of the first element that is not smaller. */
  function Insert(x: int, s: seq<int>): (r: seq<int>)
    requires SortedAsc(s)
    ensures SortedAsc(r) && multiset(r) == multiset(s) + multiset{x}
    ensures |r| == |s| + 1
  {
    if |s| == 0 then [x]
    else if x <= s[0] then [x] + s
    else
      var t := Insert(x, s[1..]);
      InsertBehind(x, s, t);
      [s[0]] + t
  }

  /** Putting the first element of `s` in front of `x` inserted into the
      rest keeps the order and the contents. */
  lemma InsertBehind(x: int, s: seq<int>, t: seq<int>)
    requires SortedAsc(s) && |s| > 0 && s[0] < x
    requires SortedAsc(t) && multiset(t) == multiset(s[1..]) + multiset{x}
    ensures SortedAsc([s[0]] + t) && multiset([s[0]] + t) == multiset(s) + multiset{x}
  {
    assert s == [s[0]] + s[1..];
    assert multiset(t) == multiset(s[1..] + [x]);
    BoundedAbove(s[0], s[1..] + [x], t);
  }

  /** A lower bound of every element carries over to a rearrangement. */
  lemma BoundedAbove(lo: int, a: seq<int>, b: seq<int>)
    requires multiset(a) == multiset(b)
    requires forall k :: 0 <= k < |a| ==> lo <= a[k]
    ensures forall k :: 0 <= k < |b| ==> lo <= b[k]
  {
    forall k | 0 <= k < |b|
      ensures lo <= b[k]
    {
      assert b[k] in multiset(a);
      var j :| 0 <= j < |a| && a[j] == b[k];
    }
  }

  /** The ascending arrangement of `s` (what `Itertools::sorted` yields). */
  function Sort(s: seq<int>): (r: seq<int>)
    ensures SortedAsc(r) && multiset(r) == multiset(s)
    ensures |r| == |s|
  {
    if |s| == 0 then []
    else
      assert s == s[..|s| - 1] + [s[|s| - 1]];
      Insert(s[|s| - 1], Sort(s[..|s| - 1]))
  }

  /** Sorted sequences with equal contents are equal, so `Sort` is the only
      function its contract allows. */
  lemma {:induction false} SortedUnique(a: seq<int>, b: seq<int>)
    requires SortedAsc(a) && SortedAsc(b) && multiset(a) == multiset(b)
    ensures a == b
  {
    assert |a| == |b| by { assert |multiset(a)| == |multiset(b)|; }
    if |a| > 0 {
      BoundedAbove(a[0], a, b);
      BoundedAbove(b[0], b, a);
      assert a[0] == b[0];
      TailsAgree(a, b);
      SortedUnique(a[1..], b[1..]);
    }
  }

  /** Removing equal first elements leaves equal contents. */
  lemma TailsAgree(a: seq<int>, b: seq<int>)
    requires |a| > 0 && |b| > 0 && a[0] == b[0] && multiset(a) == multiset(b)
    ensures multiset(a[1..]) == multiset(b[1..])
  {
    assert a == [a[0]] + a[1..];
    assert b == [b[0]] + b[1..];
    assert multiset(a) == multiset{a[0]} + multiset(a[1..]);
    assert multiset(b) == multiset{b[0]} + multiset(b[1..]);
    assert multiset(a[1..]) == multiset(a) - multiset{a[0]};
    assert multiset(b[1..]) == multiset(b) - multiset{b[0]};
  }

}
