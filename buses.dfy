/** The shuttle buses of src/day13.rs: a bus with ID `b` departs at every
    multiple of `b`. Part one finds the earliest departure at or after a
    timestamp; part two folds over the list to find a timestamp at which the
    bus at position `i` departs `i` minutes later. */
module Buses {
  import opened Common

  /** The panics of the source: a search range that runs out before
      `unwrap`, a remainder by zero, and arithmetic overflow. */
  datatype Fault = NotFound | DivideByZero | Overflow | Unparsable

  /** The notes: the earliest timestamp and the bus IDs, `None` for `x`. */
  datatype Notes = Notes(timestamp: int, buses: seq<Option<int>>)

  /* ---------------------------------------------------------------- generator */

  /** `generator`: the first line is the timestamp (a panic when it does not
      parse), the second is split at `,`, every entry kept in its position. */
  function Generator(input: string): (r: Result<Notes, Fault>)
    ensures r.Err? <==> |Lines(input)| < 2 || ParseIsize(Lines(input)[0]).None?
    ensures r.Ok? ==> |Lines(input)| >= 2 && |r.value.buses| == |Split(Lines(input)[1], ",")|
    ensures r.Ok? ==> r.value.timestamp == ParseIsize(Lines(input)[0]).value
    ensures r.Ok? ==> forall i :: 0 <= i < |r.value.buses| ==>
      r.value.buses[i] == ParseIsize(Split(Lines(input)[1], ",")[i])
  {
    var lines := Lines(input);
    if |lines| < 2 then Err(Unparsable)
    else
      match ParseIsize(lines[0])
      case None => Err(Unparsable)
      case Some(t) =>
        Ok(Notes(t, ReadEntries(Split(lines[1], ","))))
  }

  /** Each entry parsed as an `isize`; `x` and anything else that does not
      parse becomes `None`. */
  function ReadEntries(entries: seq<string>): (r: seq<Option<int>>)
    ensures |r| == |entries| && forall i :: 0 <= i < |entries| ==> r[i] == ParseIsize(entries[i])
  {
    seq(|entries|, i requires 0 <= i < |entries| => ParseIsize(entries[i]))
  }

  /** A bus entry as the notes write it. */
  function ShowEntry(e: Option<int>): string
  {
    match e
    case None => "x"
    case Some(b) => ShowNat(if b < 0 then 0 else b)
  }

  /** The notes as two lines of text. */
  function ShowNotes(n: Notes): string
  {
    ShowNat(if n.timestamp < 0 then 0 else n.timestamp) + "\n" + Join(ShowEntries(n.buses), ",") + "\n"
  }

  function ShowEntries(buses: seq<Option<int>>): (r: seq<string>)
    ensures |r| == |buses| && forall i :: 0 <= i < |buses| ==> r[i] == ShowEntry(buses[i])
  {
    seq(|buses|, i requires 0 <= i < |buses| => ShowEntry(buses[i]))
  }

  /** Notes the puzzle can write: a timestamp and IDs in range that are not
      negative, and at least one entry. */
  predicate Writable(n: Notes)
  {
    && 0 <= n.timestamp <= IsizeMax && |n.buses| > 0
    && forall i :: 0 <= i < |n.buses| && n.buses[i].Some? ==> 0 <= n.buses[i].value <= IsizeMax
  }

  lemma ShowNatPlain(n: nat)
    ensures forall i :: 0 <= i < |ShowNat(n)| ==> IsDigit(ShowNat(n)[i])
    ensures |ShowNat(n)| > 0
  {
    DigitsValueOfShowNat(n);
  }

  lemma EntryRoundTrip(e: Option<int>)
    requires e.Some? ==> 0 <= e.value <= IsizeMax
    ensures ParseIsize(ShowEntry(e)) == e
    ensures !Contains(ShowEntry(e), ",") && !Contains(ShowEntry(e), "\n")
  {
    match e
    case None =>
      NoSeparatorIn("x");
      assert !IsDigit('x');
    case Some(b) =>
      ParseNatOfShowNat(b);
      NoSeparatorIn(ShowNat(b));
  }

  lemma NoSeparatorIn(s: string)
    requires AllDigits(s) || s == "x"
    ensures !Contains(s, ",") && !Contains(s, "\n")
  {
    NoCharNoMatch(s, ',');
    NoCharNoMatch(s, '\n');
  }

  /** Round trip: the notes written as text are read back. */
  lemma GeneratorOfShown(n: Notes)
    requires Writable(n)
    ensures Generator(ShowNotes(n)) == Ok(n)
  {
    var first := ShowNat(n.timestamp);
    var second := Join(ShowEntries(n.buses), ",");
    ShownLines(n);
    ParseNatOfShowNat(n.timestamp);
    assert ParseIsize(first) == Some(n.timestamp);
    ShownEntriesRead(n);
    assert ReadEntries(Split(second, ",")) == n.buses;
  }

  /** The written notes are two lines: the timestamp and the entries. */
  lemma ShownLines(n: Notes)
    requires Writable(n)
    ensures Lines(ShowNotes(n)) == [ShowNat(n.timestamp), Join(ShowEntries(n.buses), ",")]
  {
    var parts := ShowEntries(n.buses);
    var first := ShowNat(n.timestamp);
    var second := Join(parts, ",");
    forall k | 0 <= k < |parts|
      ensures forall i :: 0 <= i < |parts[k]| ==> NotesChar(parts[k][i])
    {
      match n.buses[k]
      case None =>
      case Some(b) => ShowNatPlain(b);
    }
    JoinChars(parts);
    ShowNatPlain(n.timestamp);
    assert PlainLine(first);
    assert PlainLine(second) by {
      assert forall i :: 0 <= i < |second| ==> second[i] != '\n' && second[i] != '\r';
    }
    assert Terminated([second]) == second + "\n";
    assert ShowNotes(n) == Terminated([first, second]);
    LinesOfTerminated([first, second]);
  }

  /** The second line splits at `,` into the written entries, which parse
      back to the buses. */
  lemma ShownEntriesRead(n: Notes)
    requires Writable(n)
    ensures ReadEntries(Split(Join(ShowEntries(n.buses), ","), ",")) == n.buses
  {
    var parts := ShowEntries(n.buses);
    forall k | 0 <= k < |parts|
      ensures !Contains(parts[k], ",") && ParseIsize(parts[k]) == n.buses[k]
    {
      EntryRoundTrip(n.buses[k]);
    }
    SplitOfJoin(parts, ",");
  }

  /** The characters the notes are written with. */
  predicate NotesChar(c: char)
  {
    IsDigit(c) || c == ',' || c == 'x'
  }

  /** Joining pieces written with notes characters at `,` gives notes
      characters only. */
  lemma {:induction false} JoinChars(parts: seq<string>)
    requires forall k, i :: 0 <= k < |parts| && 0 <= i < |parts[k]| ==> NotesChar(parts[k][i])
    ensures forall i :: 0 <= i < |Join(parts, ",")| ==> NotesChar(Join(parts, ",")[i])
  {
    if |parts| > 1 {
      JoinChars(parts[1..]);
      var tail := Join(parts[1..], ",");
      var j := Join(parts, ",");
      assert j == parts[0] + "," + tail;
      forall i | 0 <= i < |j|
        ensures NotesChar(j[i])
      {
        if i < |parts[0]| {
          assert j[i] == parts[0][i];
        } else if i > |parts[0]| {
          assert j[i] == tail[i - |parts[0]| - 1];
        }
      }
    }
  }

  /* ---------------------------------------------------------------- part one */

  /** `y` departs at `x`. */
  predicate Departs(y: int, x: int)
  {
    y != 0 && x % y == 0
  }

  /** No listed bus departs at `x`. */
  predicate NoneDeparts(buses: seq<Option<int>>, x: int)
  {
    forall i :: 0 <= i < |buses| && buses[i].Some? ==> !Departs(buses[i].value, x)
  }

  /** The first bus in list order that departs at `x`, as the chained
      `filter_map(...).filter(|y| x % y == 0).next()` finds it; a zero ID
      reached before a match, or `isize::MIN % -1`, panics. */
  function FirstBus(x: int, buses: seq<Option<int>>): (r: Result<Option<int>, Fault>)
    ensures r == Ok(None) ==> NoneDeparts(buses, x)
    ensures r.Ok? && r.value.Some? ==> Departs(r.value.value, x)
  {
    if |buses| == 0 then Ok(None)
    else
      match buses[0]
      case None => FirstBus(x, buses[1..])
      case Some(y) =>
        if y == 0 then Err(DivideByZero)
        else if x == IsizeMin && y == -1 then Err(Overflow)
        else if x % y == 0 then Ok(Some(y))
        else
          var r := FirstBus(x, buses[1..]);
          assert r == Ok(None) ==> NoneDeparts(buses, x) by {
            if r == Ok(None) {
              forall i | 0 <= i < |buses| && buses[i].Some?
                ensures !Departs(buses[i].value, x)
              {
                if i > 0 {
                  assert buses[i] == buses[1..][i - 1];
                }
              }
            }
          }
          r
  }

  /** The bus `FirstBus` picks is the first listed bus that departs at `x`. */
  lemma {:induction false} FirstBusIsFirst(x: int, buses: seq<Option<int>>)
    requires FirstBus(x, buses).Ok? && FirstBus(x, buses).value.Some?
    ensures exists i :: 0 <= i < |buses| && buses[i] == FirstBus(x, buses).value &&
                        (forall j :: 0 <= j < i && buses[j].Some? ==> !Departs(buses[j].value, x))
  {
    var y := FirstBus(x, buses).value;
    match buses[0]
    case None =>
      FirstBusIsFirst(x, buses[1..]);
      var i :| 0 <= i < |buses[1..]| && buses[1..][i] == y &&
        forall j :: 0 <= j < i && buses[1..][j].Some? ==> !Departs(buses[1..][j].value, x);
      assert buses[i + 1] == y;
      forall j | 0 <= j < i + 1 && buses[j].Some?
        ensures !Departs(buses[j].value, x)
      {
        assert buses[j] == buses[1..][j - 1];
      }
    case Some(b) =>
      if x % b != 0 {
        FirstBusIsFirst(x, buses[1..]);
        var i :| 0 <= i < |buses[1..]| && buses[1..][i] == y &&
          forall j :: 0 <= j < i && buses[1..][j].Some? ==> !Departs(buses[1..][j].value, x);
        assert buses[i + 1] == y;
        forall j | 0 <= j < i + 1 && buses[j].Some?
          ensures !Departs(buses[j].value, x)
        {
          if j > 0 {
            assert buses[j] == buses[1..][j - 1];
          }
        }
      } else {
        assert buses[0] == y;
      }
  }

  /** Conversely, when no listed bus has a zero ID or departs at `x`, no
      bus is found and nothing panics. */
  lemma {:induction false} FirstBusNoneWhen(x: int, buses: seq<Option<int>>)
    requires forall i :: 0 <= i < |buses| && buses[i].Some? ==> buses[i].value != 0 && x % buses[i].value != 0
    ensures FirstBus(x, buses) == Ok(None)
  {
    if |buses| > 0 {
      forall i | 0 <= i < |buses[1..]| && buses[1..][i].Some?
        ensures buses[1..][i].value != 0 && x % buses[1..][i].value != 0
      {
        assert buses[1..][i] == buses[i + 1];
      }
      FirstBusNoneWhen(x, buses[1..]);
    }
  }

  /** And when bus `buses[k]` departs at `x` and none listed before it has
      a zero ID or departs then, that bus is found. */
  lemma {:induction false} FirstBusAtWhen(x: int, buses: seq<Option<int>>, k: nat)
    requires k < |buses| && buses[k].Some? && Departs(buses[k].value, x)
    requires x != IsizeMin || buses[k].value != -1
    requires forall i :: 0 <= i < k && buses[i].Some? ==> buses[i].value != 0 && x % buses[i].value != 0
    ensures FirstBus(x, buses) == Ok(Some(buses[k].value))
  {
    if k > 0 {
      forall i | 0 <= i < k - 1 && buses[1..][i].Some?
        ensures buses[1..][i].value != 0 && x % buses[1..][i].value != 0
      {
        assert buses[1..][i] == buses[i + 1];
      }
      FirstBusAtWhen(x, buses[1..], k - 1);
    }
  }

  /** The first `t` in `x..isize::MAX` at which some bus departs, with that
      bus. */
  function Earliest(x: int, buses: seq<Option<int>>): (r: Result<(int, int), Fault>)
    ensures r.Ok? ==> x <= r.value.0 < IsizeMax && Departs(r.value.1, r.value.0)
    decreases IsizeMax - x
  {
    if x >= IsizeMax then Err(NotFound)
    else
      match FirstBus(x, buses)
      case Err(e) => Err(e)
      case Ok(Some(y)) => Ok((x, y))
      case Ok(None) => Earliest(x + 1, buses)
  }

  /** No bus departs strictly between the start and the departure found. */
  lemma {:induction false} EarliestIsLeast(x: int, buses: seq<Option<int>>, t: int)
    requires Earliest(x, buses).Ok? && x <= t < Earliest(x, buses).value.0
    ensures NoneDeparts(buses, t)
    decreases IsizeMax - x
  {
    if t > x {
      EarliestIsLeast(x + 1, buses, t);
    }
  }

  /** `solve_part1`: the wait times the bus ID; overflow panics. */
  function SolvePart1(n: Notes): (r: Result<int, Fault>)
    ensures r.Ok? ==> IsizeMin <= r.value <= IsizeMax
  {
    match Earliest(n.timestamp, n.buses)
    case Err(e) => Err(e)
    case Ok((t, bus)) =>
      var wait := t - n.timestamp;
      if wait > IsizeMax || wait * bus < IsizeMin || wait * bus > IsizeMax then Err(Overflow)
      else Ok(wait * bus)
  }

  /** What part one answers: the wait up to the earliest departure at or after
      the timestamp, times the first listed bus leaving then. */
  lemma SolvePart1Meaning(n: Notes)
    requires SolvePart1(n).Ok?
    ensures var (t, bus) := Earliest(n.timestamp, n.buses).value;
      && SolvePart1(n).value == (t - n.timestamp) * bus
      && n.timestamp <= t && Departs(bus, t)
      && (exists i :: 0 <= i < |n.buses| && n.buses[i] == Some(bus))
      && forall s :: n.timestamp <= s < t ==> NoneDeparts(n.buses, s)
  {
    var (t, bus) := Earliest(n.timestamp, n.buses).value;
    EarliestPicksFirst(n.timestamp, n.buses);
    forall s | n.timestamp <= s < t
      ensures NoneDeparts(n.buses, s)
    {
      EarliestIsLeast(n.timestamp, n.buses, s);
    }
  }

  /** The bus found is the first listed one departing at that time. */
  lemma {:induction false} EarliestPicksFirst(x: int, buses: seq<Option<int>>)
    requires Earliest(x, buses).Ok?
    ensures FirstBus(Earliest(x, buses).value.0, buses) == Ok(Some(Earliest(x, buses).value.1))
    ensures exists i :: 0 <= i < |buses| && buses[i] == Some(Earliest(x, buses).value.1)
    decreases IsizeMax - x
  {
    if FirstBus(x, buses) == Ok(None) {
      EarliestPicksFirst(x + 1, buses);
    } else {
      FirstBusIsFirst(x, buses);
    }
  }

  /* ---------------------------------------------------------------- part two */

  /** The first of `x, x + stride, x + 2 stride, ...` below `isize::MAX` at
      which the bus `bus` departs `offset` minutes later. `x + offset`
      overflowing panics, and so does `isize::MIN % -1`. Dafny's remainder is
      zero exactly when Rust's is, whatever the signs. */
  function Search(x: int, stride: int, offset: nat, bus: int): (r: Result<int, Fault>)
    requires stride >= 1 && bus != 0
    ensures r.Ok? ==> x <= r.value < IsizeMax && (r.value + offset) % bus == 0 && (r.value - x) % stride == 0
    decreases IsizeMax - x
  {
    if x >= IsizeMax then Err(NotFound)
    else if x + offset > IsizeMax then Err(Overflow)
    else if x + offset == IsizeMin && bus == -1 then Err(Overflow)
    else if (x + offset) % bus == 0 then Ok(x)
    else
      var r := Search(x + stride, stride, offset, bus);
      assert r.Ok? ==> (r.value - x) % stride == 0 by {
        if r.Ok? {
          ModAddMultiple(r.value - (x + stride), stride, 1);
        }
      }
      r
  }

  /** No earlier candidate of the search works. */
  lemma {:induction false} SearchIsLeast(x: int, stride: int, offset: nat, bus: int, y: int)
    requires stride >= 1 && bus != 0
    requires Search(x, stride, offset, bus).Ok?
    requires x <= y < Search(x, stride, offset, bus).value && (y - x) % stride == 0
    ensures (y + offset) % bus != 0
    decreases IsizeMax - x
  {
    if y > x {
      StrideBack(x, y, stride);
      SearchIsLeast(x + stride, stride, offset, bus, y);
    }
  }

  /** A later candidate is at least one stride further. */
  lemma StrideBack(x: int, y: int, stride: int)
    requires stride >= 1 && x < y && (y - x) % stride == 0
    ensures x + stride <= y && (y - (x + stride)) % stride == 0
  {
    var q := (y - x) / stride;
    assert y - x == stride * q;
    assert q >= 1 by {
      if q <= 0 {
        MulNonNegative(stride, -q);
      }
    }
    assert y - (x + stride) == stride * (q - 1);
    MultipleMod(stride, q - 1);
  }

  /** A stride of at least `2^63` from a start that is not negative leaves
      only the start below `isize::MAX`. */
  lemma WideStride(x: int, stride: int, offset: nat, bus: int)
    requires x >= 0 && stride > IsizeMax && bus != 0
    requires Search(x, stride, offset, bus).Ok?
    ensures Search(x, stride, offset, bus).value == x
  {
    var r := Search(x, stride, offset, bus).value;
    DivModUnique(r - x, stride, 0, r - x);
  }

  function Abs(n: int): nat
  {
    if n < 0 then -n else n
  }

  /** `step as usize`: a negative step wraps around to a large stride. */
  function Stride(step: int): int
  {
    if step < 0 then step + 0x1_0000_0000_0000_0000 else step
  }

  /** The product of the absolute values of the IDs among `buses`. */
  function Product(buses: seq<Option<int>>): int
  {
    if |buses| == 0 then 1
    else (match buses[|buses| - 1] case Some(b) => Abs(b) case None => 1) * Product(buses[..|buses| - 1])
  }

  /** Every processed bus departs `offset` minutes after `solution`. */
  predicate Aligned(buses: seq<Option<int>>, n: int, solution: int)
    requires 0 <= n <= |buses|
  {
    forall j :: 0 <= j < n && buses[j].Some? && buses[j].value != 0 ==> (solution + j) % buses[j].value == 0
  }

  /** The fold of `solve_part2` over `buses[i..]`, starting from
      `(solution, step)`: a remainder by a zero ID panics, and so does a step
      that overflows. */
  function Fold(buses: seq<Option<int>>, i: nat, solution: int, step: int): (r: Result<int, Fault>)
    requires i <= |buses| && step != 0 && IsizeMin <= step <= IsizeMax
    decreases |buses| - i
  {
    if i == |buses| then Ok(solution)
    else
      match buses[i]
      case None => Fold(buses, i + 1, solution, step)
      case Some(b) =>
        if b == 0 then Err(DivideByZero)
        else
          match Search(solution, Stride(step), i, b)
          case Err(e) => Err(e)
          case Ok(x) =>
            if step * b < IsizeMin || step * b > IsizeMax then Err(Overflow)
            else Fold(buses, i + 1, x, step * b)
  }

  /** `solve_part2`. */
  function SolvePart2(buses: seq<Option<int>>): Result<int, Fault>
  {
    Fold(buses, 0, 0, 1)
  }

  /** `a % b` depends only on the magnitude of `b`. */
  lemma ModAbs(a: int, b: int)
    requires b != 0
    ensures a % b == a % Abs(b)
  {
    if b < 0 {
      DivModUnique(a, Abs(b), -(a / b), a % b);
    }
  }

  lemma AbsMul(x: int, y: int)
    ensures Abs(x * y) == Abs(x) * Abs(y)
  {
    if x < 0 && y < 0 {
      assert x * y == Abs(x) * Abs(y);
    } else if x < 0 {
      assert x * y == -(Abs(x) * Abs(y));
      MulNonNegative(Abs(x), Abs(y));
    } else if y < 0 {
      assert x * y == -(Abs(x) * Abs(y));
      MulNonNegative(Abs(x), Abs(y));
    } else {
      MulNonNegative(x, y);
    }
  }

  /** A processed ID divides the product of the processed IDs. */
  lemma {:induction false} DividesProduct(buses: seq<Option<int>>, j: int)
    requires 0 <= j < |buses| && buses[j].Some? && buses[j].value != 0
    ensures Product(buses) % Abs(buses[j].value) == 0
  {
    var init := buses[..|buses| - 1];
    var last := match buses[|buses| - 1] case Some(b) => Abs(b) case None => 1;
    if j == |buses| - 1 {
      assert Product(buses) == last * Product(init);
      MultipleMod(last, Product(init));
    } else {
      assert init[j] == buses[j];
      DividesProduct(init, j);
      assert Product(buses) == last * Product(init);
      ScaleMultiple(Product(init), Abs(buses[j].value), last);
    }
  }

  lemma ScaleMultiple(p: int, b: int, c: int)
    requires b >= 1 && p % b == 0
    ensures (c * p) % b == 0
  {
    var q := p / b;
    assert p == b * q;
    assert c * p == b * (c * q);
    MultipleMod(b, c * q);
  }

  /** Adding a multiple of the product keeps the processed buses aligned. */
  lemma KeepsAligned(buses: seq<Option<int>>, n: int, solution: int, x: int)
    requires 0 <= n <= |buses| && Product(buses[..n]) >= 1
    requires Aligned(buses, n, solution) && x >= solution && (x - solution) % Product(buses[..n]) == 0
    ensures Aligned(buses, n, x)
  {
    forall j | 0 <= j < n && buses[j].Some? && buses[j].value != 0
      ensures (x + j) % buses[j].value == 0
    {
      assert buses[..n][j] == buses[j];
      DividesProduct(buses[..n], j);
      ShiftAligned(solution + j, x - solution, buses[j].value, Product(buses[..n]));
    }
  }

  /** Adding a multiple of `p`, itself a multiple of `b`, to a multiple of
      `b` gives a multiple of `b`. */
  lemma ShiftAligned(a: int, d: int, b: int, p: int)
    requires b != 0 && p >= 1 && p % Abs(b) == 0 && d % p == 0 && a % b == 0
    ensures (a + d) % b == 0
  {
    var k := d / p;
    assert d == p * k;
    var m := p / Abs(b);
    assert p == Abs(b) * m;
    assert d == Abs(b) * (m * k);
    ModAbs(a, b);
    ModAddMultiple(a, Abs(b), m * k);
    ModAbs(a + d, b);
  }

  /** The fold invariant: the magnitude of the step is the product of the
      processed IDs, all processed buses are aligned, and the solution never
      decreases; so the answer of the fold is aligned with every bus. */
  lemma {:induction false} FoldAligns(buses: seq<Option<int>>, i: nat, solution: int, step: int)
    requires i <= |buses| && step != 0 && IsizeMin <= step <= IsizeMax && solution >= 0
    requires Abs(step) == Product(buses[..i]) && Aligned(buses, i, solution)
    requires Fold(buses, i, solution, step).Ok?
    ensures Aligned(buses, |buses|, Fold(buses, i, solution, step).value)
    ensures Fold(buses, i, solution, step).value >= solution
    decreases |buses| - i
  {
    if i < |buses| {
      match buses[i]
      case None =>
        FoldSkip(buses, i, solution, step);
        FoldAligns(buses, i + 1, solution, step);
      case Some(b) =>
        var x := Search(solution, Stride(step), i, b).value;
        FoldStep(buses, i, solution, step);
        FoldAligns(buses, i + 1, x, step * b);
    }
  }

  /** An `x` in the list keeps the invariant as it is. */
  lemma FoldSkip(buses: seq<Option<int>>, i: nat, solution: int, step: int)
    requires i < |buses| && buses[i].None?
    requires Abs(step) == Product(buses[..i]) && Aligned(buses, i, solution)
    ensures Abs(step) == Product(buses[..i + 1]) && Aligned(buses, i + 1, solution)
  {
    assert buses[..i + 1][..i] == buses[..i];
  }

  /** One step of the fold with a bus keeps the invariant. */
  lemma FoldStep(buses: seq<Option<int>>, i: nat, solution: int, step: int)
    requires i < |buses| && step != 0 && IsizeMin <= step <= IsizeMax && solution >= 0
    requires buses[i].Some? && buses[i].value != 0
    requires Abs(step) == Product(buses[..i]) && Aligned(buses, i, solution)
    requires Search(solution, Stride(step), i, buses[i].value).Ok?
    ensures var x := Search(solution, Stride(step), i, buses[i].value).value;
      && x >= solution && Aligned(buses, i + 1, x) && Product(buses[..i + 1]) == Abs(step * buses[i].value)
  {
    var b := buses[i].value;
    var x := Search(solution, Stride(step), i, b).value;
    if step > 0 {
      KeepsAligned(buses, i, solution, x);
    } else {
      WideStride(solution, Stride(step), i, b);
    }
    ExtendAligned(buses, i, x);
    ProductStep(buses, i);
    var p := Product(buses[..i + 1]);
    assert p == Abs(b) * Abs(step);
    AbsMul(step, b);
    assert p == Abs(step * b);
  }

  lemma ExtendAligned(buses: seq<Option<int>>, i: nat, x: int)
    requires i < |buses| && Aligned(buses, i, x)
    requires buses[i].Some? && buses[i].value != 0 ==> (x + i) % buses[i].value == 0
    ensures Aligned(buses, i + 1, x)
  {
  }

  lemma ProductStep(buses: seq<Option<int>>, i: nat)
    requires i < |buses|
    ensures Product(buses[..i + 1]) == (match buses[i] case Some(b) => Abs(b) case None => 1) * Product(buses[..i])
  {
    assert buses[..i + 1][..i] == buses[..i];
    assert buses[..i + 1][i] == buses[i];
  }

  /** What part two answers: a time not before 0 at which the bus at every
      position `j` departs `j` minutes later. */
  lemma SolvePart2Aligned(buses: seq<Option<int>>)
    requires SolvePart2(buses).Ok?
    ensures SolvePart2(buses).value >= 0
    ensures forall j :: 0 <= j < |buses| && buses[j].Some? && buses[j].value != 0 ==>
      (SolvePart2(buses).value + j) % buses[j].value == 0
  {
    assert buses[..0] == [];
    FoldAligns(buses, 0, 0, 1);
  }

  /** Within one fold step with a positive step the solution found is the
      first candidate `solution + k * step` that works. */
  lemma FoldStepIsLeast(buses: seq<Option<int>>, i: nat, solution: int, step: int, y: int)
    requires i < |buses| && step >= 1 && buses[i].Some? && buses[i].value != 0
    requires Search(solution, Stride(step), i, buses[i].value).Ok?
    requires solution <= y < Search(solution, Stride(step), i, buses[i].value).value && (y - solution) % step == 0
    ensures (y + i) % buses[i].value != 0
  {
    SearchIsLeast(solution, step, i, buses[i].value, y);
  }

  /* ---------------------------------------------------------------- samples */

  const Sample: Notes := Notes(939, [Some(7), Some(13), None, None, Some(59), None, Some(31), Some(19)])

  lemma SamplePart1()
    ensures SolvePart1(Sample) == Ok(295)
  {
    var b := Sample.buses;
    SampleQuiet(939);
    SampleQuiet(940);
    SampleQuiet(941);
    SampleQuiet(942);
    SampleQuiet(943);
    SampleDeparts();
    assert Earliest(944, b) == Ok((944, 59));
    assert Earliest(943, b) == Ok((944, 59));
    assert Earliest(942, b) == Ok((944, 59));
    assert Earliest(941, b) == Ok((944, 59));
    assert Earliest(940, b) == Ok((944, 59));
    assert Earliest(939, b) == Ok((944, 59));
  }

  /** At a time that none of the sample's IDs divides, no bus departs. */
  lemma SampleQuiet(x: int)
    requires x % 7 != 0 && x % 13 != 0 && x % 59 != 0 && x % 31 != 0 && x % 19 != 0
    ensures FirstBus(x, Sample.buses) == Ok(None)
  {
    var b := Sample.buses;
    forall i | 0 <= i < |b| && b[i].Some?
      ensures b[i].value != 0 && x % b[i].value != 0
    {
    }
    FirstBusNoneWhen(x, b);
  }

  /** At 944 the bus with ID 59 departs, and none listed before it. */
  lemma SampleDeparts()
    ensures FirstBus(944, Sample.buses) == Ok(Some(59))
  {
    var b := Sample.buses;
    forall i | 0 <= i < 4 && b[i].Some?
      ensures b[i].value != 0 && 944 % b[i].value != 0
    {
    }
    FirstBusAtWhen(944, b, 4);
  }

  const SampleBuses: seq<Option<int>> := Sample.buses

  /** The searches of the sample, each from its last candidate back. */
  lemma SampleSearches()
    ensures Search(0, 1, 0, 7) == Ok(0) && Search(0, 7, 1, 13) == Ok(77)
    ensures Search(77, 91, 4, 59) == Ok(350) && Search(350, 5369, 6, 31) == Ok(70147)
    ensures Search(70147, 166439, 7, 19) == Ok(1068781)
  {
    SampleSearch13();
    SampleSearch59();
    SampleSearch31();
    SampleSearch19();
  }

  lemma SampleSearch13()
    ensures Search(0, 1, 0, 7) == Ok(0) && Search(0, 7, 1, 13) == Ok(77)
  {
    assert Search(0, 1, 0, 7) == Ok(0);
    assert Search(77, 7, 1, 13) == Ok(77);
    assert Search(70, 7, 1, 13) == Ok(77);
    assert Search(63, 7, 1, 13) == Ok(77);
    assert Search(56, 7, 1, 13) == Ok(77);
    assert Search(49, 7, 1, 13) == Ok(77);
    assert Search(42, 7, 1, 13) == Ok(77);
    assert Search(35, 7, 1, 13) == Ok(77);
    assert Search(28, 7, 1, 13) == Ok(77);
    assert Search(21, 7, 1, 13) == Ok(77);
    assert Search(14, 7, 1, 13) == Ok(77);
    assert Search(7, 7, 1, 13) == Ok(77);
    assert Search(0, 7, 1, 13) == Ok(77);
  }

  lemma SampleSearch59()
    ensures Search(77, 91, 4, 59) == Ok(350)
  {
    assert Search(350, 91, 4, 59) == Ok(350);
    assert Search(259, 91, 4, 59) == Ok(350);
    assert Search(168, 91, 4, 59) == Ok(350);
    assert Search(77, 91, 4, 59) == Ok(350);
  }

  lemma SampleSearch31()
    ensures Search(350, 5369, 6, 31) == Ok(70147)
  {
    assert Search(70147, 5369, 6, 31) == Ok(70147);
    assert Search(64778, 5369, 6, 31) == Ok(70147);
    assert Search(59409, 5369, 6, 31) == Ok(70147);
    assert Search(54040, 5369, 6, 31) == Ok(70147);
    assert Search(48671, 5369, 6, 31) == Ok(70147);
    assert Search(43302, 5369, 6, 31) == Ok(70147);
    assert Search(37933, 5369, 6, 31) == Ok(70147);
    assert Search(32564, 5369, 6, 31) == Ok(70147);
    assert Search(27195, 5369, 6, 31) == Ok(70147);
    assert Search(21826, 5369, 6, 31) == Ok(70147);
    assert Search(16457, 5369, 6, 31) == Ok(70147);
    assert Search(11088, 5369, 6, 31) == Ok(70147);
    assert Search(5719, 5369, 6, 31) == Ok(70147);
    assert Search(350, 5369, 6, 31) == Ok(70147);
  }

  lemma SampleSearch19()
    ensures Search(70147, 166439, 7, 19) == Ok(1068781)
  {
    assert Search(1068781, 166439, 7, 19) == Ok(1068781);
    assert Search(902342, 166439, 7, 19) == Ok(1068781);
    assert Search(735903, 166439, 7, 19) == Ok(1068781);
    assert Search(569464, 166439, 7, 19) == Ok(1068781);
    assert Search(403025, 166439, 7, 19) == Ok(1068781);
    assert Search(236586, 166439, 7, 19) == Ok(1068781);
    assert Search(70147, 166439, 7, 19) == Ok(1068781);
  }


  lemma SamplePart2()
    ensures SolvePart2(SampleBuses) == Ok(1068781)
  {
    var b := SampleBuses;
    SampleSearches();
    assert Fold(b, 8, 1068781, 3162341) == Ok(1068781);
    assert Fold(b, 7, 70147, 166439) == Ok(1068781);
    assert Fold(b, 6, 350, 5369) == Ok(1068781);
    assert Fold(b, 5, 350, 5369) == Ok(1068781);
    assert Fold(b, 4, 77, 91) == Ok(1068781);
    assert Fold(b, 3, 77, 91) == Ok(1068781);
    assert Fold(b, 2, 77, 91) == Ok(1068781);
    assert Fold(b, 1, 0, 7) == Ok(1068781);
    assert Fold(b, 0, 0, 1) == Ok(1068781);
  }
}
