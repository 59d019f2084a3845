/** The ship navigation of src/day12.rs, part one: instructions move the
    ship north, south, east or west, turn it left or right by a number of
    degrees, or move it forward along its heading. The answer is the
    Manhattan distance from the start. */
module Navigation {
  import opened Common

  datatype Action = North | West | East | South | Left | Right | Forward

  /** `Action::try_from`: the seven one-letter names, anything else an error. */
  function ActionOf(s: string): (r: Option<Action>)
    ensures r.Some? <==> s in {"N", "W", "E", "S", "L", "R", "F"}
  {
    if s == "N" then Some(North)
    else if s == "W" then Some(West)
    else if s == "E" then Some(East)
    else if s == "S" then Some(South)
    else if s == "L" then Some(Left)
    else if s == "R" then Some(Right)
    else if s == "F" then Some(Forward)
    else None
  }

  function ActionName(a: Action): string
  {
    match a
    case North => "N"
    case West => "W"
    case East => "E"
    case South => "S"
    case Left => "L"
    case Right => "R"
    case Forward => "F"
  }

  /** Every action is read back from its name. */
  lemma ActionOfName(a: Action)
    ensures ActionOf(ActionName(a)) == Some(a)
  {
  }

  datatype Instruction = Instruction(action: Action, value: int)

  /* ---------------------------------------------------------------- generator */

  /** One line: the first character names the action, the rest is an
      `isize`; `None` where `line[0..1]`, `try_into().unwrap()` or
      `parse().unwrap()` panics. */
  function ParseInstruction(line: string): (r: Option<Instruction>)
    ensures r.Some? ==> |line| >= 1 && ActionOf(line[..1]) == Some(r.value.action)
    ensures r.Some? ==> ParseIsize(line[1..]) == Some(r.value.value)
    ensures |line| >= 1 && ActionOf(line[..1]).Some? && ParseIsize(line[1..]).Some? ==> r.Some?
  {
    if |line| == 0 then None
    else
      match (ActionOf(line[..1]), ParseIsize(line[1..]))
      case (Some(a), Some(v)) => Some(Instruction(a, v))
      case _ => None
  }

  function Instructions(lines: seq<string>): (r: Option<seq<Instruction>>)
    ensures r.Some? <==> forall k :: 0 <= k < |lines| ==> ParseInstruction(lines[k]).Some?
    ensures r.Some? ==> |r.value| == |lines| && forall k :: 0 <= k < |lines| ==> Some(r.value[k]) == ParseInstruction(lines[k])
  {
    if |lines| == 0 then Some([])
    else
      var rest := Instructions(lines[1..]);
      assert forall k :: 1 <= k < |lines| ==> lines[k] == lines[1..][k - 1];
      match (ParseInstruction(lines[0]), rest)
      case (Some(i), Some(ins)) => Some([i] + ins)
      case _ => None
  }

  /** `generator`: one instruction per line; `None` where a line panics. */
  function Generator(input: string): Option<seq<Instruction>>
  {
    Instructions(Lines(input))
  }

  function ShowInstruction(i: Instruction): string
  {
    ActionName(i.action) + ShowSigned(i.value)
  }

  function ShowInstructions(ins: seq<Instruction>): (r: seq<string>)
    ensures |r| == |ins| && forall k :: 0 <= k < |ins| ==> r[k] == ShowInstruction(ins[k])
  {
    if |ins| == 0 then [] else [ShowInstruction(ins[0])] + ShowInstructions(ins[1..])
  }

  /** Round trip of one line. */
  lemma ParseShownInstruction(i: Instruction)
    requires IsizeMin <= i.value <= IsizeMax
    ensures ParseInstruction(ShowInstruction(i)) == Some(i)
  {
    var s := ShowInstruction(i);
    assert s[..1] == ActionName(i.action);
    assert s[1..] == ShowSigned(i.value);
    ParseIntOfShowSigned(i.value);
  }

  lemma ShownPlain(i: Instruction)
    ensures PlainLine(ShowInstruction(i))
  {
    var s := ShowInstruction(i);
    var m: nat := if i.value < 0 then -i.value else i.value;
    assert s == ActionName(i.action) + ([if i.value < 0 then '-' else '+'] + ShowNat(m));
    assert forall k :: 0 <= k < |ShowNat(m)| ==> IsDigit(ShowNat(m)[k]);
  }

  /** Round trip: instructions written one per line are read back. */
  lemma GeneratorOfShown(ins: seq<Instruction>)
    requires forall k :: 0 <= k < |ins| ==> IsizeMin <= ins[k].value <= IsizeMax
    ensures Generator(Terminated(ShowInstructions(ins))) == Some(ins)
  {
    var lines := ShowInstructions(ins);
    forall k | 0 <= k < |lines|
      ensures PlainLine(lines[k])
    {
      ShownPlain(ins[k]);
    }
    LinesOfTerminated(lines);
    InstructionsOfShown(ins);
  }

  /** The written lines parse back to the instructions. */
  lemma InstructionsOfShown(ins: seq<Instruction>)
    requires forall k :: 0 <= k < |ins| ==> IsizeMin <= ins[k].value <= IsizeMax
    ensures Instructions(ShowInstructions(ins)) == Some(ins)
  {
    var lines := ShowInstructions(ins);
    forall k | 0 <= k < |ins|
      ensures ParseInstruction(lines[k]) == Some(ins[k])
    {
      ParseShownInstruction(ins[k]);
    }
    var r := Instructions(lines);
    assert r.Some?;
    assert r.value == ins;
  }

  /* ---------------------------------------------------------------- part one */

  /** The ship: position and heading in degrees. */
  datatype Ship = Ship(x: int, y: int, angle: int)

  /** `isize` arithmetic in a debug build: `None` where it overflows. */
  function Checked(v: int): (r: Option<int>)
    ensures r.Some? <==> IsizeMin <= v <= IsizeMax
    ensures r.Some? ==> r.value == v
  {
    if IsizeMin <= v <= IsizeMax then Some(v) else None
  }

  function MoveTo(s: Ship, x: Option<int>, y: Option<int>): Option<Ship>
  {
    match (x, y)
    case (Some(x'), Some(y')) => Some(Ship(x', y', s.angle))
    case _ => None
  }

  /** A turn: the heading plus `delta`, reduced by `rem_euclid(360)`. */
  function Turn(s: Ship, delta: int): (r: Option<Ship>)
    ensures r.Some? ==> r.value.x == s.x && r.value.y == s.y && 0 <= r.value.angle < 360
  {
    match Checked(s.angle + delta)
    case None => None
    case Some(a) => Some(Ship(s.x, s.y, a % 360))
  }

  /** One step of the fold of `solve_part1`; `None` where it panics: an
      arithmetic overflow, or moving forward on a heading that is not one
      of 0, 90, 180 and 270. */
  function Step(s: Ship, i: Instruction): (r: Option<Ship>)
    ensures r.Some? && i.action != Left && i.action != Right ==> r.value.angle == s.angle
    ensures r.Some? && i.action in {North, South} ==> r.value.x == s.x
    ensures r.Some? && i.action in {East, West} ==> r.value.y == s.y
  {
    var v := i.value;
    match i.action
    case North => MoveTo(s, Some(s.x), Checked(s.y + v))
    case South => MoveTo(s, Some(s.x), Checked(s.y - v))
    case East => MoveTo(s, Checked(s.x + v), Some(s.y))
    case West => MoveTo(s, Checked(s.x - v), Some(s.y))
    case Left => Turn(s, -v)
    case Right => Turn(s, v)
    case Forward =>
      if s.angle == 0 then MoveTo(s, Checked(s.x + v), Some(s.y))
      else if s.angle == 90 then MoveTo(s, Some(s.x), Checked(s.y - v))
      else if s.angle == 180 then MoveTo(s, Checked(s.x - v), Some(s.y))
      else if s.angle == 270 then MoveTo(s, Some(s.x), Checked(s.y + v))
      else None
  }

  /** The fold from `s` over `ins`. */
  function Run(s: Ship, ins: seq<Instruction>): Option<Ship>
    decreases |ins|
  {
    if |ins| == 0 then Some(s)
    else
      match Step(s, ins[0])
      case None => None
      case Some(t) => Run(t, ins[1..])
  }

  /** `x.abs() + y.abs()`, overflow included. */
  function Distance(s: Ship): (r: Option<int>)
    ensures r.Some? ==> r.value == Abs(s.x) + Abs(s.y) && r.value >= 0
  {
    if s.x == IsizeMin || s.y == IsizeMin then None
    else Checked(Abs(s.x) + Abs(s.y))
  }

  function Abs(v: int): nat
  {
    if v < 0 then -v else v
  }

  /** `solve_part1`: start at the origin facing east (heading 0). */
  function SolvePart1(ins: seq<Instruction>): Option<int>
  {
    match Run(Ship(0, 0, 0), ins)
    case None => None
    case Some(s) => Distance(s)
  }

  /* ---------------------------------------------------------------- properties */

  /** The heading of every ship the fold reaches from heading 0 stays in
      [0, 360). */
  lemma {:induction false} HeadingInRange(s: Ship, ins: seq<Instruction>)
    decreases |ins|
    requires 0 <= s.angle < 360
    requires Run(s, ins).Some?
    ensures 0 <= Run(s, ins).value.angle < 360
  {
    if |ins| > 0 {
      HeadingInRange(Step(s, ins[0]).value, ins[1..]);
    }
  }

  /** Turns by whole quarter turns. */
  predicate QuarterTurns(ins: seq<Instruction>)
  {
    forall k :: 0 <= k < |ins| ==> (ins[k].action in {Left, Right} ==> ins[k].value % 90 == 0)
  }

  predicate Compass(s: Ship)
  {
    s.angle in {0, 90, 180, 270}
  }

  lemma QuarterTurnStep(s: Ship, i: Instruction)
    requires Compass(s) && (i.action in {Left, Right} ==> i.value % 90 == 0)
    requires Step(s, i).Some?
    ensures Compass(Step(s, i).value)
  {
    if i.action in {Left, Right} {
      var d := if i.action == Left then -i.value else i.value;
      assert d % 90 == 0 by {
        if i.action == Left {
          ModNegate(i.value, 90);
        }
      }
      var a := s.angle + d;
      ModOfMod(a, 360, 90);
      ModAddMultiple(d, 90, s.angle / 90);
      assert s.angle == 90 * (s.angle / 90);
    }
  }

  lemma ModNegate(a: int, b: int)
    requires b >= 1 && a % b == 0
    ensures (-a) % b == 0
  {
    DivModUnique(-a, b, -(a / b), 0);
  }

  /** Reducing by 360 keeps the remainder by 90. */
  lemma ModOfMod(a: int, m: int, d: int)
    requires d >= 1 && m == 4 * d
    ensures (a % m) % d == a % d
  {
    var q := a / m;
    var r := a % m;
    assert a == m * q + r;
    ModAddMultiple(r, d, 4 * q);
    assert d * (4 * q) == m * q;
  }

  /** With quarter turns only, moving forward never meets a heading the
      fold cannot handle: a step fails only by overflow. */
  lemma {:induction false} QuarterTurnsStayOnCompass(s: Ship, ins: seq<Instruction>)
    decreases |ins|
    requires Compass(s) && QuarterTurns(ins)
    requires Run(s, ins).Some?
    ensures Compass(Run(s, ins).value)
  {
    if |ins| > 0 {
      QuarterTurnStep(s, ins[0]);
      assert QuarterTurns(ins[1..]) by {
        assert forall k :: 1 <= k < |ins| ==> ins[1..][k - 1] == ins[k];
      }
      QuarterTurnsStayOnCompass(Step(s, ins[0]).value, ins[1..]);
    }
  }

  /** On a compass heading, moving forward fails only by overflow. */
  lemma ForwardOnCompass(s: Ship, v: int)
    requires Compass(s)
    requires IsizeMin <= s.x + v <= IsizeMax && IsizeMin <= s.x - v <= IsizeMax
    requires IsizeMin <= s.y + v <= IsizeMax && IsizeMin <= s.y - v <= IsizeMax
    ensures Step(s, Instruction(Forward, v)).Some?
  {
  }

  /** Off a compass heading, moving forward is the panic of the sources. */
  lemma ForwardOffCompass(s: Ship, v: int)
    requires !Compass(s)
    ensures Step(s, Instruction(Forward, v)).None?
  {
  }

  /** Turning right and then left by the same amount restores the heading. */
  lemma TurnBack(s: Ship, v: int)
    requires 0 <= s.angle < 360
    requires Turn(s, v).Some? && Turn(Turn(s, v).value, -v).Some?
    ensures Turn(Turn(s, v).value, -v).value == s
  {
    var a := s.angle + v;
    var q := a / 360;
    assert a % 360 - v == s.angle + 360 * (-q);
    ModAddMultiple(s.angle, 360, -q);
  }

  /** A full turn changes nothing. */
  lemma FullTurn(s: Ship)
    requires 0 <= s.angle < 360 && s.angle + 360 <= IsizeMax
    ensures Turn(s, 360) == Some(s)
  {
    ModAddMultiple(s.angle, 360, 1);
  }

  /* ---------------------------------------------------------------- unbounded reference */

  /** The same navigation on unbounded integers, every heading reduced the
      same way, unknown headings leaving the position unchanged. */
  function Ideal(s: Ship, i: Instruction): Ship
  {
    var v := i.value;
    match i.action
    case North => Ship(s.x, s.y + v, s.angle)
    case South => Ship(s.x, s.y - v, s.angle)
    case East => Ship(s.x + v, s.y, s.angle)
    case West => Ship(s.x - v, s.y, s.angle)
    case Left => Ship(s.x, s.y, (s.angle - v) % 360)
    case Right => Ship(s.x, s.y, (s.angle + v) % 360)
    case Forward =>
      if s.angle == 0 then Ship(s.x + v, s.y, s.angle)
      else if s.angle == 90 then Ship(s.x, s.y - v, s.angle)
      else if s.angle == 180 then Ship(s.x - v, s.y, s.angle)
      else if s.angle == 270 then Ship(s.x, s.y + v, s.angle)
      else s
  }

  function IdealRun(s: Ship, ins: seq<Instruction>): Ship
    decreases |ins|
  {
    if |ins| == 0 then s else IdealRun(Ideal(s, ins[0]), ins[1..])
  }

  /** The checked fold agrees with the unbounded one whenever it succeeds:
      overflow checks only ever stop it. */
  lemma {:induction false} RunIsIdeal(s: Ship, ins: seq<Instruction>)
    decreases |ins|
    requires Run(s, ins).Some?
    ensures Run(s, ins).value == IdealRun(s, ins)
  {
    if |ins| > 0 {
      StepIsIdeal(s, ins[0]);
      RunIsIdeal(Step(s, ins[0]).value, ins[1..]);
    }
  }

  lemma StepIsIdeal(s: Ship, i: Instruction)
    requires Step(s, i).Some?
    ensures Step(s, i).value == Ideal(s, i)
  {
  }

  /* ---------------------------------------------------------------- samples */

  lemma ExampleLines()
    ensures Lines("S1\nL2") == ["S1", "L2"]
  {
    var parts := ["S1", "L2"];
    assert Join(parts, "\n") == "S1\nL2" by {
      assert parts[1..] == ["L2"];
    }
    assert PlainLine(parts[0]) && PlainLine(parts[1]);
    LinesOfJoin(parts);
  }

  lemma ExampleInstruction(a: Action, v: nat)
    requires v <= 9
    ensures ParseInstruction(ActionName(a) + [DigitChar(v)]) == Some(Instruction(a, v))
  {
    var line := ActionName(a) + [DigitChar(v)];
    assert line[..1] == ActionName(a);
    assert line[1..] == [DigitChar(v)];
    assert ShowNat(v) == [DigitChar(v)];
    ParseNatOfShowNat(v);
  }

  lemma InstructionsPair(a: string, b: string, x: Instruction, y: Instruction)
    requires ParseInstruction(a) == Some(x) && ParseInstruction(b) == Some(y)
    ensures Instructions([a, b]) == Some([x, y])
  {
    var lines := [a, b];
    var r := Instructions(lines);
    assert r.Some?;
    assert Some(r.value[0]) == ParseInstruction(lines[0]);
    assert Some(r.value[1]) == ParseInstruction(lines[1]);
    assert r.value == [x, y];
  }

  lemma ExampleLinesRead()
    ensures ParseInstruction("S1") == Some(Instruction(South, 1))
    ensures ParseInstruction("L2") == Some(Instruction(Left, 2))
  {
    ExampleInstruction(South, 1);
    ExampleInstruction(Left, 2);
    assert ActionName(South) + [DigitChar(1)] == "S1";
    assert ActionName(Left) + [DigitChar(2)] == "L2";
  }

  /** The generator test of the sources: `S1` and `L2`. */
  lemma GeneratorExample()
    ensures Generator("S1\nL2") == Some([Instruction(South, 1), Instruction(Left, 2)])
  {
    ExampleLines();
    ExampleLinesRead();
    InstructionsPair("S1", "L2", Instruction(South, 1), Instruction(Left, 2));
  }

  const Example: seq<Instruction> :=
    [Instruction(Forward, 10), Instruction(North, 3), Instruction(Forward, 7), Instruction(Right, 90), Instruction(Forward, 11)]

  /** The sample route ends at east 17, south 8: distance 25. */
  lemma ExampleDistance()
    ensures SolvePart1(Example) == Some(25)
  {
    var p := Example;
    assert p[4..][1..] == p[5..] && p[3..][1..] == p[4..] && p[2..][1..] == p[3..] && p[1..][1..] == p[2..];
    assert Step(Ship(17, 3, 90), p[4]) == Some(Ship(17, -8, 90));
    assert Run(Ship(17, 3, 90), p[4..]) == Some(Ship(17, -8, 90));
    assert Step(Ship(17, 3, 0), p[3]) == Some(Ship(17, 3, 90));
    assert Run(Ship(17, 3, 0), p[3..]) == Some(Ship(17, -8, 90));
    assert Run(Ship(10, 3, 0), p[2..]) == Some(Ship(17, -8, 90));
    assert Run(Ship(10, 0, 0), p[1..]) == Some(Ship(17, -8, 90));
    assert Run(Ship(0, 0, 0), p) == Some(Ship(17, -8, 90));
  }
}
