/** The ferry seating automaton of src/day11.rs: a grid of floor, empty and
    occupied seats, the two neighbourhoods (the eight surrounding cells, and
    the first seat visible in each of the eight directions), one tick of the
    automaton computed from a snapshot, the loop that ticks until nothing
    changes, and the printer and parser of layouts. */
module Seating {
  import opened Common

  datatype Seat = Floor | Empty | Occupied

  /** Rows of seats; `g[x][y]` is row `x`, column `y`. */
  type Grid = seq<seq<Seat>>

  /** Every row as long as the first, which the source assumes wherever it
      indexes with `unwrap` or `[]`. */
  predicate Rectangular(g: Grid)
  {
    forall i :: 0 <= i < |g| ==> |g[i]| == |g[0]|
  }

  /* ---------------------------------------------------------------- neighbourhoods */

  /** The eight offsets in the order `get_adjacent` lists them. */
  const Directions: seq<(int, int)> :=
    [(-1, -1), (0, -1), (1, -1), (-1, 0), (1, 0), (-1, 1), (0, 1), (1, 1)]

  predicate UnitStep(d: (int, int))
  {
    -1 <= d.0 <= 1 && -1 <= d.1 <= 1 && d != (0, 0)
  }

  /** `seats.get(a)?.get(b)` for signed coordinates. */
  function Get(g: Grid, a: int, b: int): (r: Option<Seat>)
    ensures r.Some? <==> 0 <= a < |g| && 0 <= b < |g[a]|
  {
    if 0 <= a < |g| && 0 <= b < |g[a]| then Some(g[a][b]) else None
  }

  /** The seats at the offsets `dirs` from `(x, y)` that lie on the grid. */
  function Around(g: Grid, x: int, y: int, dirs: seq<(int, int)>): (r: seq<Seat>)
    ensures |r| <= |dirs|
  {
    if |dirs| == 0 then []
    else
      var here := match Get(g, x + dirs[0].0, y + dirs[0].1)
        case Some(s) => [s]
        case None => [];
      here + Around(g, x, y, dirs[1..])
  }

  /** `get_adjacent`: the on-grid cells among the eight neighbours. */
  function GetAdjacent(g: Grid, x: int, y: int): (r: seq<Seat>)
    ensures |r| <= 8
  {
    Around(g, x, y, Directions)
  }

  /** An interior cell sees all eight neighbours, in the listed order. */
  lemma InteriorAdjacent(g: Grid, x: int, y: int)
    requires Rectangular(g)
    requires 1 <= x < |g| - 1 && 1 <= y < |g[0]| - 1
    ensures GetAdjacent(g, x, y) ==
      [g[x - 1][y - 1], g[x][y - 1], g[x + 1][y - 1], g[x - 1][y],
       g[x + 1][y], g[x - 1][y + 1], g[x][y + 1], g[x + 1][y + 1]]
  {
    assert |g[x - 1]| == |g[x]| == |g[x + 1]| == |g[0]|;
    forall k | 0 <= k < |Directions|
      ensures Get(g, x + Directions[k].0, y + Directions[k].1).Some?
    {
    }
    AroundAllOnGrid(g, x, y, Directions);
  }

  /** When every offset lands on the grid, `Around` lists the cells in order. */
  lemma {:induction false} AroundAllOnGrid(g: Grid, x: int, y: int, dirs: seq<(int, int)>)
    requires forall k :: 0 <= k < |dirs| ==> Get(g, x + dirs[k].0, y + dirs[k].1).Some?
    ensures |Around(g, x, y, dirs)| == |dirs|
    ensures forall k :: 0 <= k < |dirs| ==> Around(g, x, y, dirs)[k] == Get(g, x + dirs[k].0, y + dirs[k].1).value
  {
    if |dirs| > 0 {
      AroundAllOnGrid(g, x, y, dirs[1..]);
      var r := Around(g, x, y, dirs);
      assert r == [Get(g, x + dirs[0].0, y + dirs[0].1).value] + Around(g, x, y, dirs[1..]);
      forall k | 1 <= k < |dirs|
        ensures r[k] == Get(g, x + dirs[k].0, y + dirs[k].1).value
      {
        assert dirs[1..][k - 1] == dirs[k];
      }
    }
  }

  /** `(c, d)` lies inside the bounds `get_adjacent_with_sight` checks: the
      number of rows and the length of the first row. */
  predicate InBox(g: Grid, c: int, d: int)
  {
    0 <= c < |g| && 0 <= d < |g[0]|
  }

  /** How many more steps of `dx` fit between `c` and the edge. */
  function Room(n: int, c: int, dx: int): int
  {
    if dx > 0 then n - c else if dx < 0 then c + 1 else 0
  }

  function RowLength(g: Grid): nat
  {
    if |g| == 0 then 0 else |g[0]|
  }

  /** The first non-floor seat on the ray that starts at `(c, d)` and moves
      by `(dx, dy)`, as long as the ray stays inside the grid. */
  function FirstSeen(g: Grid, c: int, d: int, dx: int, dy: int): Option<Seat>
    requires Rectangular(g) && UnitStep((dx, dy))
    decreases Room(|g|, c, dx) + Room(RowLength(g), d, dy)
  {
    if !InBox(g, c, d) then None
    else if g[c][d] != Floor then Some(g[c][d])
    else FirstSeen(g, c + dx, d + dy, dx, dy)
  }

  /** The `j`th cell of the ray from `(c, d)` is on the grid and is floor. */
  predicate FloorAt(g: Grid, c: int, d: int, dx: int, dy: int, j: nat)
    requires Rectangular(g)
  {
    InBox(g, c + j * dx, d + j * dy) && g[c + j * dx][d + j * dy] == Floor
  }

  /** A ray whose first `n` cells are floor and whose `n`th cell is a seat
      shows that seat. */
  lemma {:induction false} FirstSeenAt(g: Grid, c: int, d: int, dx: int, dy: int, n: nat)
    requires Rectangular(g) && UnitStep((dx, dy))
    requires forall j: nat :: j < n ==> FloorAt(g, c, d, dx, dy, j)
    requires InBox(g, c + n * dx, d + n * dy) && g[c + n * dx][d + n * dy] != Floor
    ensures FirstSeen(g, c, d, dx, dy) == Some(g[c + n * dx][d + n * dy])
    decreases n
  {
    if n > 0 {
      assert FloorAt(g, c, d, dx, dy, 0);
      var c', d' := c + dx, d + dy;
      forall j: nat | j < n - 1
        ensures FloorAt(g, c', d', dx, dy, j)
      {
        assert FloorAt(g, c, d, dx, dy, j + 1);
        assert c' + j * dx == c + (j + 1) * dx;
        assert d' + j * dy == d + (j + 1) * dy;
      }
      assert c' + (n - 1) * dx == c + n * dx;
      assert d' + (n - 1) * dy == d + n * dy;
      FirstSeenAt(g, c', d', dx, dy, n - 1);
    }
  }

  /** A ray that leaves the grid after `n` floor cells shows nothing. */
  lemma {:induction false} FirstSeenNone(g: Grid, c: int, d: int, dx: int, dy: int, n: nat)
    requires Rectangular(g) && UnitStep((dx, dy))
    requires forall j: nat :: j < n ==> FloorAt(g, c, d, dx, dy, j)
    requires !InBox(g, c + n * dx, d + n * dy)
    ensures FirstSeen(g, c, d, dx, dy) == None
    decreases n
  {
    if n > 0 {
      assert FloorAt(g, c, d, dx, dy, 0);
      var c', d' := c + dx, d + dy;
      forall j: nat | j < n - 1
        ensures FloorAt(g, c', d', dx, dy, j)
      {
        assert FloorAt(g, c, d, dx, dy, j + 1);
        assert c' + j * dx == c + (j + 1) * dx;
        assert d' + j * dy == d + (j + 1) * dy;
      }
      assert c' + (n - 1) * dx == c + n * dx;
      assert d' + (n - 1) * dy == d + n * dy;
      FirstSeenNone(g, c', d', dx, dy, n - 1);
    }
  }

  /** For each offset whose first cell is inside the grid, the first seat
      visible along that ray, if any. */
  function Visible(g: Grid, x: int, y: int, dirs: seq<(int, int)>): (r: seq<Seat>)
    requires Rectangular(g)
    requires forall k :: 0 <= k < |dirs| ==> UnitStep(dirs[k])
    ensures |r| <= |dirs|
    ensures forall k :: 0 <= k < |r| ==> r[k] != Floor
  {
    if |dirs| == 0 then []
    else
      var (dx, dy) := dirs[0];
      var here := if InBox(g, x + dx, y + dy) then
          match FirstSeen(g, x + dx, y + dy, dx, dy)
          case Some(s) => [s]
          case None => []
        else [];
      FirstSeenNotFloor(g, x + dx, y + dy, dx, dy);
      here + Visible(g, x, y, dirs[1..])
  }

  lemma {:induction false} FirstSeenNotFloor(g: Grid, c: int, d: int, dx: int, dy: int)
    requires Rectangular(g) && UnitStep((dx, dy))
    ensures FirstSeen(g, c, d, dx, dy) != Some(Floor)
    decreases Room(|g|, c, dx) + Room(RowLength(g), d, dy)
  {
    if InBox(g, c, d) && g[c][d] == Floor {
      FirstSeenNotFloor(g, c + dx, d + dy, dx, dy);
    }
  }

  /** `get_adjacent_with_sight`: at most one seat per direction, never floor. */
  function GetAdjacentWithSight(g: Grid, x: int, y: int): (r: seq<Seat>)
    requires Rectangular(g)
    ensures |r| <= 8
    ensures forall k :: 0 <= k < |r| ==> r[k] != Floor
  {
    Visible(g, x, y, Directions)
  }

  /* ---------------------------------------------------------------- one tick */

  /** Which neighbourhood and tolerance a tick uses: part one looks at the
      eight adjacent cells and gives up a seat at 4 occupied neighbours, part
      two looks along the eight rays and gives up a seat at 5. */
  datatype Rule = Adjacent | Sight

  function Tolerance(rule: Rule): nat
  {
    match rule
    case Adjacent => 4
    case Sight => 5
  }

  function Neighbours(g: Grid, x: int, y: int, rule: Rule): seq<Seat>
    requires Rectangular(g)
  {
    match rule
    case Adjacent => GetAdjacent(g, x, y)
    case Sight => GetAdjacentWithSight(g, x, y)
  }

  function CountOccupied(s: seq<Seat>): (n: nat)
    ensures n <= |s|
  {
    if |s| == 0 then 0 else (if s[0] == Occupied then 1 else 0) + CountOccupied(s[1..])
  }

  /** The new state of cell `(x, y)`, computed from the snapshot `g` alone. */
  function NextCell(g: Grid, x: nat, y: nat, rule: Rule): Seat
    requires Rectangular(g) && x < |g| && y < |g[x]|
  {
    match g[x][y]
    case Floor => Floor
    case Occupied =>
      if CountOccupied(Neighbours(g, x, y, rule)) >= Tolerance(rule) then Empty else Occupied
    case Empty =>
      if CountOccupied(Neighbours(g, x, y, rule)) == 0 then Occupied else Empty
  }

  /** The whole grid after one tick. */
  function Next(g: Grid, rule: Rule): (h: Grid)
    requires Rectangular(g)
    ensures |h| == |g| && forall i :: 0 <= i < |g| ==> |h[i]| == |g[i]|
    ensures Rectangular(h)
  {
    seq(|g|, i requires 0 <= i < |g| => seq(|g[i]|, j requires 0 <= j < |g[i]| => NextCell(g, i, j, rule)))
  }

  /** Some cell of row `x` left of column `y` changes in the tick. */
  predicate ChangedBefore(g: Grid, x: nat, y: nat, rule: Rule)
    requires Rectangular(g) && x < |g| && y <= |g[x]|
  {
    exists j :: 0 <= j < y && g[x][j] != NextCell(g, x, j, rule)
  }

  lemma ChangedStep(g: Grid, x: nat, y: nat, rule: Rule)
    requires Rectangular(g) && x < |g| && y < |g[x]|
    ensures ChangedBefore(g, x, y + 1, rule) <==> ChangedBefore(g, x, y, rule) || g[x][y] != NextCell(g, x, y, rule)
  {
  }

  /** A row holding the next state of each of its cells is the row of the
      next grid, and differs from the old row iff some cell changed. */
  lemma NextRow(g: Grid, x: nat, row: seq<Seat>, rule: Rule)
    requires Rectangular(g) && x < |g| && |row| == |g[x]|
    requires forall j :: 0 <= j < |row| ==> row[j] == NextCell(g, x, j, rule)
    ensures row == Next(g, rule)[x]
    ensures ChangedBefore(g, x, |row|, rule) <==> g[x] != row
  {
    if g[x] != row {
      var j :| 0 <= j < |row| && g[x][j] != row[j];
      assert g[x][j] != NextCell(g, x, j, rule);
    }
  }

  /** Floor never changes and nothing else becomes floor; a seat changes
      only in the direction its neighbours call for. */
  lemma NextCellFacts(g: Grid, x: nat, y: nat, rule: Rule)
    requires Rectangular(g) && x < |g| && y < |g[x]|
    ensures Next(g, rule)[x][y] == Floor <==> g[x][y] == Floor
    ensures g[x][y] == Occupied && Next(g, rule)[x][y] == Empty <==>
      g[x][y] == Occupied && CountOccupied(Neighbours(g, x, y, rule)) >= Tolerance(rule)
    ensures g[x][y] == Empty && Next(g, rule)[x][y] == Occupied <==>
      g[x][y] == Empty && CountOccupied(Neighbours(g, x, y, rule)) == 0
  {
  }

  /* ---------------------------------------------------------------- the layout object */

  /** The value carried by a layout: what `generator` builds and `clone` copies. */
  datatype Layout = Layout(seats: Grid, width: nat, height: nat)

  predicate WellFormed(l: Layout)
  {
    |l.seats| == l.height && forall i :: 0 <= i < |l.seats| ==> |l.seats[i]| == l.width
  }

  class SeatLayout {
    var seats: Grid
    var width: nat
    var height: nat

    /** The dimensions describe the grid, which is what the tick loops assume. */
    predicate Valid()
      reads this
    {
      WellFormed(Layout(seats, width, height))
    }

    /** `input.clone()`. */
    constructor (l: Layout)
      ensures seats == l.seats && width == l.width && height == l.height
    {
      seats := l.seats;
      width := l.width;
      height := l.height;
    }

    /** `tick_part1` and `tick_part2`: rewrite every cell from a snapshot
        taken before the first write, and report whether any cell changed. */
    method Tick(rule: Rule) returns (changed: bool)
      requires Valid()
      modifies this
      ensures Valid() && width == old(width) && height == old(height)
      ensures Rectangular(old(seats)) && seats == Next(old(seats), rule)
      ensures changed <==> seats != old(seats)
    {
      var original := seats;
      assert Rectangular(original) by {
        if |original| > 0 { assert |original[0]| == width; }
      }
      ghost var next := Next(original, rule);
      changed := false;
      for x := 0 to height
        invariant width == old(width) && height == old(height) && |original| == height
        invariant |seats| == height && forall i :: 0 <= i < height ==> |seats[i]| == width
        invariant forall i :: 0 <= i < x ==> seats[i] == next[i]
        invariant forall i :: x <= i < height ==> seats[i] == original[i]
        invariant changed <==> exists i :: 0 <= i < x && original[i] != next[i]
      {
        var rowChanged := TickRow(original, x, rule);
        changed := changed || rowChanged;
      }
      assert seats == next;
      if changed {
        ghost var i :| 0 <= i < height && original[i] != next[i];
        assert original != next;
      }
    }

    /** The cells of row `x` in column order, each from the snapshot. */
    method TickRow(original: Grid, x: nat, rule: Rule) returns (changed: bool)
      requires Valid() && Rectangular(original) && x < height == |seats| == |original|
      requires forall i :: 0 <= i < height ==> |original[i]| == width
      requires seats[x] == original[x]
      modifies this
      ensures Valid() && width == old(width) && height == old(height)
      ensures seats == old(seats)[x := Next(original, rule)[x]]
      ensures changed <==> original[x] != Next(original, rule)[x]
    {
      changed := false;
      for y := 0 to width
        invariant width == old(width) && height == old(height)
        invariant |seats| == height && |seats[x]| == width
        invariant seats == old(seats)[x := seats[x]]
        invariant forall j :: 0 <= j < y ==> seats[x][j] == NextCell(original, x, j, rule)
        invariant forall j :: y <= j < width ==> seats[x][j] == original[x][j]
        invariant changed <==> ChangedBefore(original, x, y, rule)
      {
        var change := false;
        assert seats[x][y] == original[x][y];
        match seats[x][y] {
          case Occupied =>
            change := CountOccupied(Neighbours(original, x, y, rule)) >= Tolerance(rule);
            if change {
              seats := seats[x := seats[x][y := Empty]];
            }
          case Empty =>
            change := CountOccupied(Neighbours(original, x, y, rule)) == 0;
            if change {
              seats := seats[x := seats[x][y := Occupied]];
            }
          case Floor =>
        }
        assert seats[x][y] == NextCell(original, x, y, rule);
        assert change <==> original[x][y] != NextCell(original, x, y, rule);
        ChangedStep(original, x, y, rule);
        changed := changed || change;
      }
      NextRow(original, x, seats[x], rule);
    }

    /** `tick_part1`. */
    method TickPart1() returns (changed: bool)
      requires Valid()
      modifies this
      ensures Valid() && width == old(width) && height == old(height)
      ensures Rectangular(old(seats)) && seats == Next(old(seats), Adjacent)
      ensures changed <==> seats != old(seats)
    {
      changed := Tick(Adjacent);
    }

    /** `tick_part2`. */
    method TickPart2() returns (changed: bool)
      requires Valid()
      modifies this
      ensures Valid() && width == old(width) && height == old(height)
      ensures Rectangular(old(seats)) && seats == Next(old(seats), Sight)
      ensures changed <==> seats != old(seats)
    {
      changed := Tick(Sight);
    }
  }

  /* ---------------------------------------------------------------- settling */

  /** Tick until a tick changes nothing, allowing at most `fuel` ticks; the
      grid the loop stops at, or `None` when the ticks ran out. */
  function Settle(g: Grid, rule: Rule, fuel: nat): Option<Grid>
    requires Rectangular(g)
    decreases fuel
  {
    if fuel == 0 then None
    else
      var h := Next(g, rule);
      if h == g then Some(g) else Settle(h, rule, fuel - 1)
  }

  /** The loop stops only at a fixed point of the tick, of the same shape. */
  lemma {:induction false} SettleIsFixpoint(g: Grid, rule: Rule, fuel: nat)
    requires Rectangular(g)
    ensures Settle(g, rule, fuel).Some? ==>
      var h := Settle(g, rule, fuel).value;
      Rectangular(h) && Next(h, rule) == h && |h| == |g| &&
      forall i :: 0 <= i < |g| ==> |h[i]| == |g[i]|
    decreases fuel
  {
    if fuel > 0 && Next(g, rule) != g {
      SettleIsFixpoint(Next(g, rule), rule, fuel - 1);
    }
  }

  /** More fuel never changes an answer, only whether there is one. */
  lemma {:induction false} SettleMonotone(g: Grid, rule: Rule, fuel: nat, more: nat)
    requires Rectangular(g) && fuel <= more
    requires Settle(g, rule, fuel).Some?
    ensures Settle(g, rule, more) == Settle(g, rule, fuel)
    decreases fuel
  {
    if Next(g, rule) != g {
      SettleMonotone(Next(g, rule), rule, fuel - 1, more - 1);
    }
  }

  function Occupancy(g: Grid): nat
  {
    if |g| == 0 then 0 else CountOccupied(g[0]) + Occupancy(g[1..])
  }

  /** The answer: the number of occupied seats once the grid is stable. */
  function SettledCount(g: Grid, rule: Rule, fuel: nat): Option<nat>
    requires Rectangular(g)
  {
    match Settle(g, rule, fuel)
    case Some(h) => Some(Occupancy(h))
    case None => None
  }

  /** `solve_part1` / `solve_part2`: clone the layout and tick until
      nothing changes (here: at most `fuel` ticks). */
  method Solve(input: Layout, rule: Rule, fuel: nat) returns (r: Option<nat>)
    requires WellFormed(input)
    ensures Rectangular(input.seats) && r == SettledCount(input.seats, rule, fuel)
  {
    var layout := new SeatLayout(input);
    assert Rectangular(input.seats) by {
      if |input.seats| > 0 { assert |input.seats[0]| == input.width; }
    }
    var n := fuel;
    while n > 0
      invariant layout.Valid() && Rectangular(layout.seats)
      invariant Settle(layout.seats, rule, n) == Settle(input.seats, rule, fuel)
    {
      ghost var before := layout.seats;
      var changed := layout.Tick(rule);
      if !changed {
        return Some(Occupancy(layout.seats));
      }
      n := n - 1;
    }
    return None;
  }

  method SolvePart1(input: Layout, fuel: nat) returns (r: Option<nat>)
    requires WellFormed(input)
    ensures Rectangular(input.seats) && r == SettledCount(input.seats, Adjacent, fuel)
  {
    r := Solve(input, Adjacent, fuel);
  }

  method SolvePart2(input: Layout, fuel: nat) returns (r: Option<nat>)
    requires WellFormed(input)
    ensures Rectangular(input.seats) && r == SettledCount(input.seats, Sight, fuel)
  {
    r := Solve(input, Sight, fuel);
  }

  /* ---------------------------------------------------------------- text */

  function SeatChar(s: Seat): char
  {
    match s
    case Occupied => '#'
    case Empty => 'L'
    case Floor => '.'
  }

  function SeatOf(c: char): (r: Option<Seat>)
    ensures r.Some? <==> c in {'#', 'L', '.'}
    ensures r.Some? ==> SeatChar(r.value) == c
  {
    if c == '#' then Some(Occupied)
    else if c == 'L' then Some(Empty)
    else if c == '.' then Some(Floor)
    else None
  }

  function ShowRow(row: seq<Seat>): (line: string)
    ensures |line| == |row|
    ensures forall i :: 0 <= i < |row| ==> line[i] == SeatChar(row[i])
  {
    if |row| == 0 then "" else [SeatChar(row[0])] + ShowRow(row[1..])
  }

  /** `Display`: one character per seat and a line break after every row. */
  function Display(g: Grid): string
  {
    Terminated(seq(|g|, i requires 0 <= i < |g| => ShowRow(g[i])))
  }

  /** One line of the input, or `None` for a character other than `.`, `L`
      and `#` (the source panics). */
  function ParseRow(line: string): (r: Option<seq<Seat>>)
    ensures r.Some? ==> |r.value| == |line|
  {
    if |line| == 0 then Some([])
    else
      match (SeatOf(line[0]), ParseRow(line[1..]))
      case (Some(s), Some(rest)) => Some([s] + rest)
      case _ => None
  }

  /** A line is read iff every character is `.`, `L` or `#`, and printing
      the row read gives the line back. */
  lemma {:induction false} ParseRowMeaning(line: string)
    ensures var r := ParseRow(line);
      && (r.Some? ==> ShowRow(r.value) == line)
      && (r.Some? <==> forall i :: 0 <= i < |line| ==> line[i] in {'#', 'L', '.'})
  {
    if |line| > 0 {
      ParseRowMeaning(line[1..]);
      assert forall i :: 1 <= i < |line| ==> line[i] == line[1..][i - 1];
      match (SeatOf(line[0]), ParseRow(line[1..]))
      case (Some(s), Some(rest)) =>
        assert ShowRow([s] + rest)[1..] == ShowRow(rest);
        assert line == [line[0]] + line[1..];
      case _ =>
    }
  }

  function ParseRows(lines: seq<string>): (r: Option<Grid>)
    ensures r.Some? ==> |r.value| == |lines|
    ensures r.Some? ==> forall i :: 0 <= i < |lines| ==> ParseRow(lines[i]) == Some(r.value[i])
    ensures r.None? <==> exists i :: 0 <= i < |lines| && ParseRow(lines[i]).None?
  {
    if |lines| == 0 then Some([])
    else
      match (ParseRow(lines[0]), ParseRows(lines[1..]))
      case (Some(row), Some(rest)) =>
        assert forall i :: 1 <= i < |lines| ==> lines[i] == lines[1..][i - 1];
        Some([row] + rest)
      case (None, _) => None
      case (_, None) =>
        var i :| 0 <= i < |lines[1..]| && ParseRow(lines[1..][i]).None?;
        assert ParseRow(lines[i + 1]).None?;
        None
  }

  /** `generator`: the width is the length of the first line (0 for no
      lines), the height the number of lines. */
  function Generator(text: string): Option<Layout>
  {
    var lines := Lines(text);
    match ParseRows(lines)
    case Some(g) => Some(Layout(g, if |lines| == 0 then 0 else |lines[0]|, |lines|))
    case None => None
  }

  /** `Display` and `generator` are inverse: every grid is read back as
      printed, with the width of its first row. */
  lemma GeneratorOfDisplay(g: Grid)
    ensures Generator(Display(g)) == Some(Layout(g, RowLength(g), |g|))
  {
    var rows := seq(|g|, i requires 0 <= i < |g| => ShowRow(g[i]));
    forall k | 0 <= k < |rows|
      ensures PlainLine(rows[k])
    {
      var line := rows[k];
      assert forall i :: 0 <= i < |line| ==> line[i] in {'#', 'L', '.'};
    }
    LinesOfTerminated(rows);
    forall k | 0 <= k < |rows|
      ensures ParseRow(rows[k]) == Some(g[k])
    {
      ShowRowInverse(g[k]);
    }
    var r := ParseRows(rows);
    assert r.Some?;
    assert r.value == g;
  }

  lemma {:induction false} ShowRowInverse(row: seq<Seat>)
    ensures ParseRow(ShowRow(row)) == Some(row)
  {
    if |row| > 0 {
      ShowRowInverse(row[1..]);
      assert ShowRow(row)[1..] == ShowRow(row[1..]);
      assert row == [row[0]] + row[1..];
    }
  }

  /** A layout read from text with equal-length lines is well formed. */
  lemma GeneratedWellFormed(text: string)
    requires Generator(text).Some?
    requires var lines := Lines(text); forall i :: 0 <= i < |lines| ==> |lines[i]| == |lines[0]|
    ensures WellFormed(Generator(text).value)
  {
    var lines := Lines(text);
    var g := ParseRows(lines).value;
    forall i | 0 <= i < |g|
      ensures |g[i]| == |lines[0]|
    {
      assert ParseRow(lines[i]) == Some(g[i]);
    }
  }

  /* ---------------------------------------------------------------- samples */

  /** The centre of a 3 by 3 block of empty seats has eight neighbours. */
  lemma SampleAdjacent()
    ensures var row := [Empty, Empty, Empty];
      |GetAdjacent([row, row, row], 1, 1)| == 8
  {
    var row := [Empty, Empty, Empty];
    InteriorAdjacent([row, row, row], 1, 1);
  }

  /** The grid of four rows whose only seats are at the corners (0, 0),
      (0, 8) and (3, 0). */
  const CornerGrid: Grid :=
    [[Empty, Floor, Floor, Floor, Floor, Floor, Floor, Floor, Empty],
     [Floor, Floor, Floor, Floor, Floor, Floor, Floor, Floor, Floor],
     [Floor, Floor, Floor, Floor, Floor, Floor, Floor, Floor, Floor],
     [Empty, Floor, Floor, Floor, Floor, Floor, Floor, Floor, Floor]]

  /** From (0, 0), the seat at (3, 0) is seen straight down. */
  lemma CornerDown()
    ensures Rectangular(CornerGrid) && FirstSeen(CornerGrid, 1, 0, 1, 0) == Some(Empty)
  {
    var g := CornerGrid;
    assert Rectangular(g);
    forall j: nat | j < 2
      ensures FloorAt(g, 1, 0, 1, 0, j)
    {
    }
    FirstSeenAt(g, 1, 0, 1, 0, 2);
  }

  /** From (0, 0), the seat at (0, 8) is seen straight right. */
  lemma CornerRight()
    ensures Rectangular(CornerGrid) && FirstSeen(CornerGrid, 0, 1, 0, 1) == Some(Empty)
  {
    var g := CornerGrid;
    assert Rectangular(g);
    forall j: nat | j < 7
      ensures FloorAt(g, 0, 1, 0, 1, j)
    {
    }
    FirstSeenAt(g, 0, 1, 0, 1, 7);
  }

  /** From (0, 0), the diagonal leaves the grid after three floor cells. */
  lemma CornerDiagonal()
    ensures Rectangular(CornerGrid) && FirstSeen(CornerGrid, 1, 1, 1, 1) == None
  {
    var g := CornerGrid;
    assert Rectangular(g);
    forall j: nat | j < 3
      ensures FloorAt(g, 1, 1, 1, 1, j)
    {
    }
    FirstSeenNone(g, 1, 1, 1, 1, 3);
  }

  /** The seat at (0, 0) of the corner grid sees two seats: straight down
      and straight right. */
  lemma SampleSight()
    ensures Rectangular(CornerGrid) && GetAdjacentWithSight(CornerGrid, 0, 0) == [Empty, Empty]
  {
    CornerDown();
    CornerRight();
    CornerDiagonal();
    CornerVisible(CornerGrid);
  }

  /** What a cell at (0, 0) sees, from what the three rays into the grid
      show. */
  lemma CornerVisible(g: Grid)
    requires Rectangular(g) && |g| == 4 && |g[0]| == 9
    requires FirstSeen(g, 1, 0, 1, 0) == Some(Empty) && FirstSeen(g, 0, 1, 0, 1) == Some(Empty)
    requires FirstSeen(g, 1, 1, 1, 1) == None
    ensures GetAdjacentWithSight(g, 0, 0) == [Empty, Empty]
  {
    var ds := Directions;
    CornerVisibleLater(g);
    assert ds[3..][1..] == ds[4..];
    assert Visible(g, 0, 0, ds[3..]) == [Empty, Empty];
    assert ds[2..][1..] == ds[3..];
    assert Visible(g, 0, 0, ds[2..]) == [Empty, Empty];
    assert ds[1..][1..] == ds[2..];
    assert Visible(g, 0, 0, ds[1..]) == [Empty, Empty];
  }

  /** What the cell at (0, 0) sees along the last four directions. */
  lemma CornerVisibleLater(g: Grid)
    requires Rectangular(g) && |g| == 4 && |g[0]| == 9
    requires FirstSeen(g, 1, 0, 1, 0) == Some(Empty) && FirstSeen(g, 0, 1, 0, 1) == Some(Empty)
    requires FirstSeen(g, 1, 1, 1, 1) == None
    ensures Visible(g, 0, 0, Directions[4..]) == [Empty, Empty]
  {
    var ds := Directions;
    assert Visible(g, 0, 0, ds[8..]) == [];
    assert ds[7..][1..] == ds[8..];
    assert Visible(g, 0, 0, ds[7..]) == [];
    assert ds[6..][1..] == ds[7..];
    assert Visible(g, 0, 0, ds[6..]) == [Empty];
    assert ds[5..][1..] == ds[6..];
    assert Visible(g, 0, 0, ds[5..]) == [Empty];
    assert ds[4..][1..] == ds[5..];
  }
}
