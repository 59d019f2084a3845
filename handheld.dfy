/** The handheld console of src/day8.rs: a three-instruction machine, its
    loop detector, the set of offsets that take part in some loop, and the
    search that repairs a looping program by flipping one instruction. */
module Handheld {
  import opened Common

  /* ---------------------------------------------------------------- instructions */

  datatype Operation = Nop(arg: int) | Acc(arg: int) | Jmp(arg: int)
  {
    predicate IsAcc()
    {
      Acc?
    }

    /** Swap `nop` and `jmp`, keeping the operand; `acc` stays as it is. */
    function Flip(): (r: Operation)
      ensures r.arg == arg
      ensures Nop? ==> r.Jmp?
      ensures Jmp? ==> r.Nop?
      ensures Acc? ==> r == this
    {
      match this
      case Nop(x) => Jmp(x)
      case Jmp(x) => Nop(x)
      case Acc(x) => Acc(x)
    }
  }

  lemma FlipTwice(op: Operation)
    ensures op.Flip().Flip() == op
    ensures op.Flip().IsAcc() == op.IsAcc()
  {
  }

  /** Why a run, the analysis or the repair cannot give an answer: a jump below
      offset 0 (a `usize` underflow in the source), no flip that makes the
      program fall through (the `unwrap` of an empty search), or input text
      that the parser rejects. */
  datatype Fault = PointerUnderflow | NoRepair | Unparsable

  /** What one run reports. `halting` is the source's name for "stopped
      because the pointer came back to an offset it had already executed". */
  datatype ExecutionReport = ExecutionReport(halting: bool, acc: int, visited: set<nat>)

  /* ---------------------------------------------------------------- reference semantics */

  /** The offsets of a program of length `n`. */
  function Offsets(n: nat): (r: set<nat>)
    ensures forall i: nat :: i in r <==> i < n
  {
    if n == 0 then {}
    else
      var r := Offsets(n - 1) + {n - 1};
      assert forall i: nat :: i in r <==> i < n by {
        forall i: nat ensures i in r <==> i < n {
          if i < n - 1 { assert i in Offsets(n - 1); }
        }
      }
      r
  }

  /** The machine when a run stops, including where the pointer stood. */
  datatype Final = Final(halting: bool, rip: nat, acc: int, visited: set<nat>)

  /** The run of `p` continued from pointer `rip`, accumulator `acc` and the
      offsets `visited` already executed. */
  function Run(p: seq<Operation>, rip: nat, acc: int, visited: set<nat>): Result<Final, Fault>
    requires visited <= Offsets(|p|)
    decreases Offsets(|p|) - visited
  {
    if rip >= |p| then Ok(Final(false, rip, acc, visited))
    else if rip in visited then Ok(Final(true, rip, acc, visited))
    else
      var seen := visited + {rip};
      match p[rip]
      case Nop(_) => Run(p, rip + 1, acc, seen)
      case Acc(d) => Run(p, rip + 1, acc + d, seen)
      case Jmp(o) => if rip + o < 0 then Err(PointerUnderflow) else Run(p, rip + o, acc, seen)
  }

  function Execution(p: seq<Operation>, base: nat): Result<Final, Fault>
  {
    Run(p, base, 0, {})
  }

  function ToReport(r: Result<Final, Fault>): Result<ExecutionReport, Fault>
  {
    match r
    case Ok(f) => Ok(ExecutionReport(f.halting, f.acc, f.visited))
    case Err(e) => Err(e)
  }

  /** The sum of the `acc` operands at the offsets in `visited` below `n`. */
  function AccSum(p: seq<Operation>, visited: set<nat>, n: nat): int
    requires n <= |p|
  {
    if n == 0 then 0
    else AccSum(p, visited, n - 1) + (if n - 1 in visited && p[n - 1].Acc? then p[n - 1].arg else 0)
  }

  lemma {:induction false} AccSumInsert(p: seq<Operation>, visited: set<nat>, x: nat, n: nat)
    requires n <= |p| && x < |p| && x !in visited
    ensures AccSum(p, visited + {x}, n)
         == AccSum(p, visited, n) + (if x < n && p[x].Acc? then p[x].arg else 0)
  {
    if n > 0 {
      AccSumInsert(p, visited, x, n - 1);
    }
  }

  lemma {:induction false} OffsetsSize(n: nat)
    ensures |Offsets(n)| == n
  {
    if n > 0 {
      OffsetsSize(n - 1);
      assert Offsets(n) == Offsets(n - 1) + {n - 1};
    }
  }

  /** What every run guarantees: the visited offsets lie in the program, the
      accumulator is the sum of the `acc` operands executed (each visited
      offset executes once), and the run stopped for exactly one of the two
      reasons: `halting` because the pointer is back on a visited offset,
      otherwise because the pointer is at or past the end. */
  lemma {:induction false} RunFacts(p: seq<Operation>, rip: nat, acc: int, visited: set<nat>)
    requires visited <= Offsets(|p|)
    requires acc == AccSum(p, visited, |p|)
    ensures Run(p, rip, acc, visited).Err? ==> Run(p, rip, acc, visited).error == PointerUnderflow
    ensures Run(p, rip, acc, visited).Ok? ==>
      var f := Run(p, rip, acc, visited).value;
      && visited <= f.visited <= Offsets(|p|)
      && f.acc == AccSum(p, f.visited, |p|)
      && (f.halting <==> f.rip < |p|)
      && (f.halting ==> f.rip in f.visited)
      && (!f.halting ==> f.rip >= |p|)
    decreases Offsets(|p|) - visited
  {
    if rip < |p| && rip !in visited {
      var seen := visited + {rip};
      AccSumInsert(p, visited, rip, |p|);
      match p[rip]
      case Nop(_) => RunFacts(p, rip + 1, acc, seen);
      case Acc(d) => RunFacts(p, rip + 1, acc + d, seen);
      case Jmp(o) => if rip + o >= 0 { RunFacts(p, rip + o, acc, seen); }
    }
  }

  /** A run from any offset: at most `|p|` offsets are ever executed, so the
      loop in `ExecuteFrom` turns at most `|p| + 1` times. */
  lemma ExecutionFacts(p: seq<Operation>, base: nat)
    ensures Execution(p, base).Err? ==> Execution(p, base).error == PointerUnderflow
    ensures Execution(p, base).Ok? ==>
      var f := Execution(p, base).value;
      && f.visited <= Offsets(|p|)
      && |f.visited| <= |p|
      && f.acc == AccSum(p, f.visited, |p|)
      && (f.halting <==> f.rip < |p|)
      && (f.halting ==> f.rip in f.visited)
      && (!f.halting ==> f.rip >= |p|)
  {
    assert AccSum(p, {}, |p|) == 0 by { AccSumEmpty(p, |p|); }
    RunFacts(p, base, 0, {});
    if Execution(p, base).Ok? {
      OffsetsSize(|p|);
      var f := Execution(p, base).value;
      assert |f.visited| <= |Offsets(|p|)| by { SubsetSize(f.visited, Offsets(|p|)); }
    }
  }

  lemma {:induction false} AccSumEmpty(p: seq<Operation>, n: nat)
    requires n <= |p|
    ensures AccSum(p, {}, n) == 0
  {
    if n > 0 {
      AccSumEmpty(p, n - 1);
    }
  }

  lemma SubsetSize(a: set<nat>, b: set<nat>)
    requires a <= b
    ensures |a| <= |b|
  {
    assert b == a + (b - a);
  }

  /** The source stops on `rip >= len`, so a fall-through may leave the
      pointer beyond the end rather than exactly on it. */
  lemma FallThroughPastEnd()
    ensures Execution([Jmp(3)], 0) == Ok(Final(false, 3, 0, {0}))
  {
    var p := [Jmp(3)];
    assert {0} <= Offsets(1);
    assert {} + {0} == {0};
    assert Run(p, 0, 0, {}) == Run(p, 3, 0, {0});
    assert Run(p, 3, 0, {0}) == Ok(Final(false, 3, 0, {0}));
  }

  /* ---------------------------------------------------------------- the engine */

  /** `execute_from`: run `p` from offset `base` until the pointer leaves the
      program or comes back to an offset already executed. */
  method ExecuteFrom(p: seq<Operation>, base: nat) returns (r: Result<ExecutionReport, Fault>)
    ensures r == ToReport(Execution(p, base))
  {
    var rip: nat := base;
    var acc := 0;
    var visited: set<nat> := {};
    while rip < |p|
      invariant visited <= Offsets(|p|)
      invariant Run(p, rip, acc, visited) == Execution(p, base)
      decreases Offsets(|p|) - visited
    {
      if rip in visited {
        return Ok(ExecutionReport(true, acc, visited));
      }
      visited := visited + {rip};
      match p[rip] {
        case Nop(_) =>
        case Acc(d) =>
          acc := acc + d;
        case Jmp(o) =>
          if o > 0 {
            rip := rip + o;
          } else if rip < -o {
            return Err(PointerUnderflow);
          } else {
            rip := rip - (-o);
          }
          continue;
      }
      rip := rip + 1;
    }
    return Ok(ExecutionReport(false, acc, visited));
  }

  /** `solve_part1`: the accumulator when the run from offset 0 stops. */
  method SolvePart1(p: seq<Operation>) returns (r: Result<int, Fault>)
    ensures Execution(p, 0).Ok? <==> r.Ok?
    ensures r.Ok? ==> r.value == Execution(p, 0).value.acc
  {
    var report := ExecuteFrom(p, 0);
    match report
    case Ok(rep) => r := Ok(rep.acc);
    case Err(e) => r := Err(e);
  }

  /* ---------------------------------------------------------------- loop membership */

  /** The offsets `find_halting` starts runs from: every non-`acc` offset. */
  function Candidates(p: seq<Operation>): set<nat>
  {
    set i: nat | i < |p| && !p[i].IsAcc()
  }

  /** What the run from `i` adds to the loop set: its visited offsets if it
      looped, nothing otherwise. */
  function LoopSet(p: seq<Operation>, i: nat): set<nat>
  {
    match Execution(p, i)
    case Ok(f) => if f.halting then f.visited else {}
    case Err(_) => {}
  }

  /** The union of the loop sets of the runs started from `starts`. */
  ghost function LoopUnion(p: seq<Operation>, starts: set<nat>): set<nat>
  {
    set j | j in Offsets(|p|) && exists i :: i in starts && j in LoopSet(p, i)
  }

  ghost predicate SomeRunFails(p: seq<Operation>, starts: set<nat>)
  {
    exists i :: i in starts && Execution(p, i).Err?
  }

  lemma LoopSetInProgram(p: seq<Operation>, i: nat)
    ensures LoopSet(p, i) <= Offsets(|p|)
  {
    ExecutionFacts(p, i);
  }

  /** Every looping run's visited set is inside the union, and the union is
      inside the program. */
  lemma LoopUnionCovers(p: seq<Operation>, starts: set<nat>)
    ensures forall i :: i in starts ==> LoopSet(p, i) <= LoopUnion(p, starts)
    ensures LoopUnion(p, starts) <= Offsets(|p|)
  {
    forall i | i in starts
      ensures LoopSet(p, i) <= LoopUnion(p, starts)
    {
      LoopSetInProgram(p, i);
    }
  }

  lemma LoopUnionStep(p: seq<Operation>, done: set<nat>, next: nat)
    ensures LoopUnion(p, done + {next}) == LoopUnion(p, done) + LoopSet(p, next)
  {
    LoopSetInProgram(p, next);
  }

  /** `find_halting`: start a run from every candidate, in whatever order the
      set yields them, and unite the visited sets of the runs that loop. The
      result does not depend on that order; a run that underflows aborts. */
  method FindHalting(p: seq<Operation>) returns (r: Result<set<nat>, Fault>)
    ensures r.Err? <==> SomeRunFails(p, Candidates(p))
    ensures r.Err? ==> r.error == PointerUnderflow
    ensures r.Ok? ==> r.value == LoopUnion(p, Candidates(p))
  {
    var unvisited := Candidates(p);
    var halting: set<nat> := {};
    while unvisited != {}
      invariant unvisited <= Candidates(p)
      invariant halting == LoopUnion(p, Candidates(p) - unvisited)
      invariant !SomeRunFails(p, Candidates(p) - unvisited)
      decreases unvisited
    {
      var next :| next in unvisited;
      ghost var done := Candidates(p) - unvisited;
      unvisited := unvisited - {next};
      assert Candidates(p) - unvisited == done + {next};
      var report := ExecuteFrom(p, next);
      if report.Err? {
        assert Execution(p, next).Err?;
        return Err(PointerUnderflow);
      }
      if report.value.halting {
        halting := halting + report.value.visited;
      }
      LoopUnionStep(p, done, next);
    }
    assert Candidates(p) - unvisited == Candidates(p);
    return Ok(halting);
  }

  /* ---------------------------------------------------------------- repair */

  /** The program with instruction `k` flipped. */
  function Trial(p: seq<Operation>, k: nat): (q: seq<Operation>)
    requires k < |p|
    ensures |q| == |p| && q[k] == p[k].Flip()
    ensures forall i :: 0 <= i < |p| && i != k ==> q[i] == p[i]
  {
    p[k := p[k].Flip()]
  }

  /** The search of `solve_part2` from index `k` on: the first index in
      `halting` whose trial falls through gives the answer. */
  function SearchFrom(p: seq<Operation>, halting: set<nat>, k: nat): Result<int, Fault>
    decreases |p| - k
  {
    if k >= |p| then Err(NoRepair)
    else if k !in halting then SearchFrom(p, halting, k + 1)
    else
      match Execution(Trial(p, k), 0)
      case Err(e) => Err(e)
      case Ok(f) => if !f.halting then Ok(f.acc) else SearchFrom(p, halting, k + 1)
  }

  /** `solve_part2` as a value: the analysis, then the search in index order. */
  ghost function Repair(p: seq<Operation>): Result<int, Fault>
  {
    if SomeRunFails(p, Candidates(p)) then Err(PointerUnderflow)
    else SearchFrom(p, LoopUnion(p, Candidates(p)), 0)
  }

  /** A trial at offset `k` that loops. */
  predicate TrialLoops(p: seq<Operation>, k: nat)
    requires k < |p|
  {
    Execution(Trial(p, k), 0).Ok? && Execution(Trial(p, k), 0).value.halting
  }

  /** An answer of the search is the accumulator of a trial that falls
      through, at the lowest index of `halting` whose trial does not loop. */
  lemma {:induction false} SearchFromFinds(p: seq<Operation>, halting: set<nat>, k: nat)
    ensures SearchFrom(p, halting, k).Ok? ==>
      exists j :: k <= j < |p| && j in halting
        && Execution(Trial(p, j), 0).Ok?
        && !Execution(Trial(p, j), 0).value.halting
        && Execution(Trial(p, j), 0).value.acc == SearchFrom(p, halting, k).value
        && forall i :: k <= i < j && i in halting ==> TrialLoops(p, i)
    decreases |p| - k
  {
    if k < |p| {
      SearchFromFinds(p, halting, k + 1);
    }
  }

  /** The search fails with `NoRepair` exactly when every trial in `halting`
      from `k` on loops. */
  lemma {:induction false} SearchFromNoRepair(p: seq<Operation>, halting: set<nat>, k: nat)
    ensures SearchFrom(p, halting, k) == Err(NoRepair)
        <==> forall i :: k <= i < |p| && i in halting ==> TrialLoops(p, i)
    decreases |p| - k
  {
    if k < |p| {
      SearchFromNoRepair(p, halting, k + 1);
      if k in halting {
        ExecutionFacts(Trial(p, k), 0);
      }
    }
  }

  /** What `solve_part2` answers: the accumulator of the first candidate
      trial, in index order, that falls through; an underflowing analysis run
      aborts; if every trial loops the search fails. */
  lemma RepairFacts(p: seq<Operation>)
    ensures Repair(p).Ok? ==>
      exists j :: 0 <= j < |p| && j in LoopUnion(p, Candidates(p))
        && Execution(Trial(p, j), 0).Ok?
        && !Execution(Trial(p, j), 0).value.halting
        && Execution(Trial(p, j), 0).value.acc == Repair(p).value
        && forall i :: 0 <= i < j && i in LoopUnion(p, Candidates(p)) ==> TrialLoops(p, i)
    ensures Repair(p) == Err(NoRepair) <==>
      !SomeRunFails(p, Candidates(p))
      && forall i :: 0 <= i < |p| && i in LoopUnion(p, Candidates(p)) ==> TrialLoops(p, i)
  {
    if !SomeRunFails(p, Candidates(p)) {
      SearchFromFinds(p, LoopUnion(p, Candidates(p)), 0);
      SearchFromNoRepair(p, LoopUnion(p, Candidates(p)), 0);
    }
  }

  /* ---------------------------------------------------------------- the loop set misses no repair */

  /** Where the pointer goes after executing offset `x` (below 0 on an
      underflowing jump). */
  function StepTo(p: seq<Operation>, x: nat): int
    requires x < |p|
  {
    match p[x]
    case Jmp(o) => x + o
    case _ => x + 1
  }

  /** Offset `x` is in the program and executing it leads into `s`. */
  predicate StepsInto(p: seq<Operation>, x: nat, s: set<nat>)
  {
    x < |p| && 0 <= StepTo(p, x) && StepTo(p, x) in s
  }

  /** A run only grows its visited set, and executes its start when that is
      in the program. */
  lemma {:induction false} RunVisits(p: seq<Operation>, rip: nat, acc: int, visited: set<nat>)
    requires visited <= Offsets(|p|)
    ensures Run(p, rip, acc, visited).Ok? ==>
      && visited <= Run(p, rip, acc, visited).value.visited
      && (rip < |p| ==> rip in Run(p, rip, acc, visited).value.visited)
    decreases Offsets(|p|) - visited
  {
    if rip < |p| && rip !in visited {
      var seen := visited + {rip};
      match p[rip]
      case Nop(_) => RunVisits(p, rip + 1, acc, seen);
      case Acc(d) => RunVisits(p, rip + 1, acc + d, seen);
      case Jmp(o) => if rip + o >= 0 { RunVisits(p, rip + o, acc, seen); }
    }
  }

  /** Every offset a looping run executes leads to an offset it executed:
      the visited set of a loop is closed under execution. */
  lemma {:induction false} LoopIsClosed(p: seq<Operation>, rip: nat, acc: int, visited: set<nat>)
    requires visited <= Offsets(|p|)
    requires Run(p, rip, acc, visited).Ok? && Run(p, rip, acc, visited).value.halting
    ensures forall x :: x in Run(p, rip, acc, visited).value.visited - visited ==>
      StepsInto(p, x, Run(p, rip, acc, visited).value.visited)
    decreases Offsets(|p|) - visited
  {
    if rip < |p| && rip !in visited {
      var seen := visited + {rip};
      var next := StepTo(p, rip);
      assert next >= 0;
      var acc' := if p[rip].Acc? then acc + p[rip].arg else acc;
      assert Run(p, rip, acc, visited) == Run(p, next, acc', seen);
      LoopIsClosed(p, next, acc', seen);
      RunVisits(p, next, acc', seen);
    }
  }

  /** From an offset of a set closed under execution, every run loops, with
      any visited set. */
  lemma {:induction false} ClosedLoops(p: seq<Operation>, s: set<nat>, rip: nat, acc: int, visited: set<nat>)
    requires visited <= Offsets(|p|)
    requires forall x :: x in s ==> StepsInto(p, x, s)
    requires rip in s
    ensures Run(p, rip, acc, visited).Ok? && Run(p, rip, acc, visited).value.halting
    decreases Offsets(|p|) - visited
  {
    assert StepsInto(p, rip, s);
    if rip !in visited {
      var seen := visited + {rip};
      var next := StepTo(p, rip);
      var acc' := if p[rip].Acc? then acc + p[rip].arg else acc;
      assert Run(p, rip, acc, visited) == Run(p, next, acc', seen);
      ClosedLoops(p, s, next, acc', seen);
    }
  }

  /** Changing an instruction that a run never executes does not change
      the run. */
  lemma {:induction false} RunIgnoresUnvisited(p: seq<Operation>, q: seq<Operation>, k: nat, rip: nat, acc: int, visited: set<nat>)
    requires |q| == |p| && forall i :: 0 <= i < |p| && i != k ==> q[i] == p[i]
    requires visited <= Offsets(|p|)
    requires Run(p, rip, acc, visited).Ok? && k !in Run(p, rip, acc, visited).value.visited
    ensures Run(q, rip, acc, visited) == Run(p, rip, acc, visited)
    decreases Offsets(|p|) - visited
  {
    if rip < |p| && rip !in visited {
      RunVisits(p, rip, acc, visited);
      assert q[rip] == p[rip];
      var seen := visited + {rip};
      var next := StepTo(p, rip);
      assert next >= 0;
      var acc' := if p[rip].Acc? then acc + p[rip].arg else acc;
      assert Run(p, rip, acc, visited) == Run(p, next, acc', seen);
      assert Run(q, rip, acc, visited) == Run(q, next, acc', seen);
      RunIgnoresUnvisited(p, q, k, next, acc', seen);
    }
  }

  /** On a program whose run from 0 loops, every non-`acc` offset of that
      run is in the loop set: the run from it loops too. */
  lemma LoopPathInUnion(p: seq<Operation>)
    requires Execution(p, 0).Ok? && Execution(p, 0).value.halting
    ensures forall k: nat :: k in Execution(p, 0).value.visited && k < |p| && !p[k].IsAcc() ==>
      k in LoopUnion(p, Candidates(p))
  {
    var path := Execution(p, 0).value.visited;
    LoopIsClosed(p, 0, 0, {});
    forall k: nat | k in path && k < |p| && !p[k].IsAcc()
      ensures k in LoopUnion(p, Candidates(p))
    {
      ClosedLoops(p, path, k, 0, {});
      RunVisits(p, k, 0, {});
      assert k in LoopSet(p, k) && k in Candidates(p) && k in Offsets(|p|);
    }
  }

  /** Searching only the loop set misses no repair: on a program whose run
      from 0 loops, the trial at any offset outside the loop set loops. An
      offset off the run's path leaves the run as it is, and an offset on
      the path outside the loop set holds an `acc`, whose flip changes
      nothing. */
  lemma OutsideLoopSetLoops(p: seq<Operation>)
    requires Execution(p, 0).Ok? && Execution(p, 0).value.halting
    ensures forall k :: 0 <= k < |p| && k !in LoopUnion(p, Candidates(p)) ==> TrialLoops(p, k)
  {
    var path := Execution(p, 0).value.visited;
    LoopPathInUnion(p);
    forall k | 0 <= k < |p| && k !in LoopUnion(p, Candidates(p))
      ensures TrialLoops(p, k)
    {
      if k in path {
        assert p[k].IsAcc();
        assert Trial(p, k) == p;
      } else {
        RunIgnoresUnvisited(p, Trial(p, k), k, 0, 0, {});
      }
    }
  }

  /** The search over the loop set agrees with a search over every offset
      when the trials it skips all loop. */
  lemma {:induction false} SearchAllOffsets(p: seq<Operation>, halting: set<nat>, k: nat)
    requires forall i :: k <= i < |p| && i !in halting ==> TrialLoops(p, i)
    ensures SearchFrom(p, halting, k) == SearchFrom(p, Offsets(|p|), k)
    decreases |p| - k
  {
    if k < |p| {
      SearchAllOffsets(p, halting, k + 1);
    }
  }

  /** On a program whose run from 0 loops, `solve_part2` answers what the
      first trial over all offsets, in index order, that falls through
      answers. */
  lemma RepairOverAllOffsets(p: seq<Operation>)
    requires Execution(p, 0).Ok? && Execution(p, 0).value.halting
    ensures Repair(p) == if SomeRunFails(p, Candidates(p)) then Err(PointerUnderflow)
      else SearchFrom(p, Offsets(|p|), 0)
  {
    OutsideLoopSetLoops(p);
    SearchAllOffsets(p, LoopUnion(p, Candidates(p)), 0);
  }

  /** `solve_part2`: compute the loop set, then try the flips in index order
      and report the accumulator of the first trial that falls through. */
  method SolvePart2(p: seq<Operation>) returns (r: Result<int, Fault>)
    ensures r == Repair(p)
  {
    var found := FindHalting(p);
    if found.Err? {
      return Err(found.error);
    }
    var halting := found.value;
    for index := 0 to |p|
      invariant SearchFrom(p, halting, index) == SearchFrom(p, halting, 0)
    {
      if index in halting {
        var fixedProgram := p[index := p[index].Flip()];
        var report := ExecuteFrom(fixedProgram, 0);
        if report.Err? {
          return Err(report.error);
        }
        if !report.value.halting {
          var rerun := ExecuteFrom(fixedProgram, 0);
          return Ok(rerun.value.acc);
        }
      }
    }
    return Err(NoRepair);
  }

  /* ---------------------------------------------------------------- parsing */

  /** The characters `operation` takes as the operand. */
  predicate IsParamChar(c: char)
  {
    c == '-' || c == '+' || IsDigit(c)
  }

  /** The length of the leading run of operand characters. */
  function ParamLength(s: string): (n: nat)
    ensures n <= |s|
    ensures forall i :: 0 <= i < n ==> IsParamChar(s[i])
    ensures n < |s| ==> !IsParamChar(s[n])
  {
    if |s| > 0 && IsParamChar(s[0]) then 1 + ParamLength(s[1..]) else 0
  }

  /** `operation`: the mnemonic up to the first space, optional white space,
      the operand, and one optional line break. It does not match when no
      space is left (which ends `many1`), and panics on an operand that
      `parse::<isize>` rejects or a mnemonic other than the three. */
  function ParseOperation(s: string): (r: Outcome<Operation>)
    ensures r.Parsed? ==> |r.rest| < |s|
    ensures r.NoMatch? <==> !Contains(s, " ")
  {
    match Find(s, " ")
    case None => NoMatch
    case Some(i) =>
      assert s[i..i + 1][0] == s[i];
      var k := OperandStart(s, i);
      var e := k + ParamLength(s[k..]);
      match ParseIsize(s[k..e])
      case None => Panic
      case Some(v) =>
        match Named(s[..i], v)
        case None => Panic
        case Some(op) => Parsed(op, s[AfterNewline(s, e)..])
  }

  /** The three mnemonics; any other word is the `unreachable!` case. */
  function Named(mnemonic: string, v: int): (r: Option<Operation>)
    ensures r.Some? ==> r.value.arg == v && Mnemonic(r.value) == mnemonic
    ensures r.None? ==> mnemonic !in {"nop", "acc", "jmp"}
  {
    if mnemonic == "nop" then Some(Nop(v))
    else if mnemonic == "acc" then Some(Acc(v))
    else if mnemonic == "jmp" then Some(Jmp(v))
    else None
  }

  /** `opt(tag("\n"))` at position `e`: past one line break if there is one. */
  function AfterNewline(s: string, e: nat): (j: nat)
    requires e <= |s|
    ensures e <= j <= |s|
  {
    if e < |s| && s[e] == '\n' then e + 1 else e
  }

  /** Where the operand starts: after the space at `i` and the white space
      that `multispace0` skips. */
  function OperandStart(s: string, i: nat): (k: nat)
    requires i < |s| && IsMultispace(s[i])
    ensures i < k <= |s|
    ensures s[k..] == SkipSpace(s[i..])
  {
    var r := SkipSpace(s[i..]);
    assert |r| < |s| - i;
    assert s[i..][|s| - i - |r|..] == s[|s| - |r|..];
    |s| - |r|
  }

  /** The repetition inside `many1`: parse operations until one does not
      match; a panic anywhere aborts the whole parse. */
  function ParseMany(s: string): (r: Result<seq<Operation>, Fault>)
    ensures r.Err? ==> r.error == Unparsable
    decreases |s|
  {
    match ParseOperation(s)
    case NoMatch => Ok([])
    case Panic => Err(Unparsable)
    case Parsed(op, rest) =>
      match ParseMany(rest)
      case Ok(ops) => Ok([op] + ops)
      case Err(e) => Err(e)
  }

  /** `generator`: `many1(operation)` and `unwrap`, so the input must hold
      at least one operation; what follows the last one is ignored. */
  function Generator(s: string): (r: Result<seq<Operation>, Fault>)
    ensures r.Ok? ==> |r.value| >= 1
    ensures r.Ok? <==> ParseMany(s).Ok? && |ParseMany(s).value| >= 1
  {
    match ParseMany(s)
    case Ok(ops) => if |ops| == 0 then Err(Unparsable) else Ok(ops)
    case Err(e) => Err(e)
  }

  function Mnemonic(op: Operation): string
  {
    match op
    case Nop(_) => "nop"
    case Acc(_) => "acc"
    case Jmp(_) => "jmp"
  }

  /** One line of a puzzle input, as in `acc -99`. */
  function ShowOperation(op: Operation): string
  {
    Mnemonic(op) + " " + ShowSigned(op.arg) + "\n"
  }

  function ShowProgram(p: seq<Operation>): string
  {
    if |p| == 0 then "" else ShowOperation(p[0]) + ShowProgram(p[1..])
  }

  /** A written line is read back as the same operation, leaving the text
      after it untouched. */
  lemma ParseShownOperation(op: Operation, tail: string)
    requires IsizeMin <= op.arg <= IsizeMax
    ensures ParseOperation(ShowOperation(op) + tail) == Parsed(op, tail)
  {
    var s := ShowOperation(op) + tail;
    var e := 4 + |ShowSigned(op.arg)|;
    ShownLayout(op, tail);
    ShownOperand(op, tail);
    assert Named(s[..3], op.arg) == Some(op);
    assert AfterNewline(s, e) == e + 1;
  }

  /** The operand of a written line starts after the space and is read in full. */
  lemma ShownOperand(op: Operation, tail: string)
    requires IsizeMin <= op.arg <= IsizeMax
    ensures var s := ShowOperation(op) + tail;
      var e := 4 + |ShowSigned(op.arg)|;
      && e <= |s|
      && OperandStart(s, 3) == 4
      && e == 4 + ParamLength(s[4..])
      && ParseIsize(s[4..e]) == Some(op.arg)
  {
    var s := ShowOperation(op) + tail;
    var num := ShowSigned(op.arg);
    ShownLayout(op, tail);
    assert s[3..][1..] == s[4..];
    assert SkipSpace(s[3..]) == s[4..];
    ShowSignedIsParam(op.arg);
    ParamRun(num, "\n" + tail);
    ParseIntOfShowSigned(op.arg);
  }

  /** Where the pieces of a written line sit. */
  lemma ShownLayout(op: Operation, tail: string)
    ensures var s := ShowOperation(op) + tail;
      var num := ShowSigned(op.arg);
      && Find(s, " ") == Some(3)
      && s[..3] == Mnemonic(op)
      && s[3] == ' '
      && |s| > 4 + |num|
      && s[4..] == num + ("\n" + tail)
      && s[4..4 + |num|] == num
      && s[4 + |num|] == '\n'
      && s[4 + |num| + 1..] == tail
      && (|s[4..]| > 0 ==> !IsMultispace(s[4]))
  {
    var s := ShowOperation(op) + tail;
    var num := ShowSigned(op.arg);
    assert s == Mnemonic(op) + " " + num + "\n" + tail;
    assert OccursAt(s, " ", 3);
    forall i | 0 <= i < 3
      ensures !OccursAt(s, " ", i)
    {
      assert s[i..i + 1] == [Mnemonic(op)[i]];
    }
  }

  /** A signed number is read up to, and not past, a line break. */
  lemma ParamRun(num: string, tail: string)
    requires forall i :: 0 <= i < |num| ==> IsParamChar(num[i])
    requires |tail| > 0 && tail[0] == '\n'
    ensures ParamLength(num + tail) == |num|
    decreases |num|
  {
    if |num| > 0 {
      assert (num + tail)[1..] == num[1..] + tail;
      ParamRun(num[1..], tail);
    } else {
      assert num + tail == tail;
    }
  }

  /** `ShowSigned` writes only operand characters. */
  lemma ShowSignedIsParam(n: int)
    ensures forall i :: 0 <= i < |ShowSigned(n)| ==> IsParamChar(ShowSigned(n)[i])
  {
  }

  /** Round trip: the generator reads back every program written one
      operation per line. */
  lemma {:induction false} GeneratorOfShown(p: seq<Operation>)
    requires |p| >= 1 && forall i :: 0 <= i < |p| ==> IsizeMin <= p[i].arg <= IsizeMax
    ensures Generator(ShowProgram(p)) == Ok(p)
  {
    ParseManyOfShown(p);
  }

  lemma {:induction false} ParseManyOfShown(p: seq<Operation>)
    requires forall i :: 0 <= i < |p| ==> IsizeMin <= p[i].arg <= IsizeMax
    ensures ParseMany(ShowProgram(p)) == Ok(p)
  {
    if |p| == 0 {
      ParseManyEmpty();
    } else {
      ParseManyOfShown(p[1..]);
      assert ShowProgram(p) == ShowOperation(p[0]) + ShowProgram(p[1..]);
      ParseManyShownCons(p[0], ShowProgram(p[1..]), p[1..]);
      assert p == [p[0]] + p[1..];
    }
  }

  /** A written line in front of text that parses puts its operation in
      front of what that text parses to. */
  lemma ParseManyShownCons(op: Operation, rest: string, ops: seq<Operation>)
    requires IsizeMin <= op.arg <= IsizeMax
    requires ParseMany(rest) == Ok(ops)
    ensures ParseMany(ShowOperation(op) + rest) == Ok([op] + ops)
  {
    ParseShownOperation(op, rest);
    ParseManyCons(ShowOperation(op) + rest, rest, op, ops);
  }

  lemma ParseManyEmpty()
    ensures ParseMany("") == Ok([])
  {
    assert !OccursAt("", " ", 0);
    assert ParseOperation("") == NoMatch;
  }

  lemma ParseManyCons(s: string, rest: string, op: Operation, ops: seq<Operation>)
    requires ParseOperation(s) == Parsed(op, rest)
    requires ParseMany(rest) == Ok(ops)
    ensures ParseMany(s) == Ok([op] + ops)
  {
  }

  /* ---------------------------------------------------------------- the sample program */

  const Example: seq<Operation> :=
    [Nop(0), Acc(1), Jmp(4), Acc(3), Jmp(-3), Acc(-99), Acc(1), Jmp(-4), Acc(6)]

  /** From offset 0 the sample loops back to offset 1 with accumulator 5. */
  lemma ExampleFromStart()
    ensures Execution(Example, 0) == Ok(Final(true, 1, 5, {0, 1, 2, 3, 4, 6, 7}))
  {
    var p := Example;
    assert {} + {0} == {0};
    assert Run(p, 0, 0, {}) == Run(p, 1, 0, {0});
    assert {0} + {1} == {0, 1};
    assert Run(p, 1, 0, {0}) == Run(p, 2, 1, {0, 1});
    assert {0, 1} + {2} == {0, 1, 2};
    assert Run(p, 2, 1, {0, 1}) == Run(p, 6, 1, {0, 1, 2});
    assert {0, 1, 2} + {6} == {0, 1, 2, 6};
    assert Run(p, 6, 1, {0, 1, 2}) == Run(p, 7, 2, {0, 1, 2, 6});
    assert {0, 1, 2, 6} + {7} == {0, 1, 2, 6, 7};
    assert Run(p, 7, 2, {0, 1, 2, 6}) == Run(p, 3, 2, {0, 1, 2, 6, 7});
    assert {0, 1, 2, 6, 7} + {3} == {0, 1, 2, 3, 6, 7};
    assert Run(p, 3, 2, {0, 1, 2, 6, 7}) == Run(p, 4, 5, {0, 1, 2, 3, 6, 7});
    assert {0, 1, 2, 3, 6, 7} + {4} == {0, 1, 2, 3, 4, 6, 7};
    assert Run(p, 4, 5, {0, 1, 2, 3, 6, 7}) == Run(p, 1, 5, {0, 1, 2, 3, 4, 6, 7});
  }

  /** The runs `find_halting` starts from the other candidates 2, 4 and 7 all
      loop; the one from 7 visits 7 itself. */
  lemma ExampleFromCandidates()
    ensures Candidates(Example) == {0, 2, 4, 7}
    ensures Execution(Example, 2) == Ok(Final(true, 2, 5, {1, 2, 3, 4, 6, 7}))
    ensures Execution(Example, 4) == Ok(Final(true, 4, 5, {1, 2, 3, 4, 6, 7}))
    ensures Execution(Example, 7) == Ok(Final(true, 7, 5, {1, 2, 3, 4, 6, 7}))
  {
    ExampleCandidates();
    ExampleFrom2();
    ExampleFrom4();
    ExampleFrom7();
  }

  /** The sample's candidates are its `nop` and `jmp` offsets. */
  lemma ExampleCandidates()
    ensures Candidates(Example) == {0, 2, 4, 7}
  {
    var p := Example;
    assert Candidates(p) == {0, 2, 4, 7} by {
      forall i: nat ensures i in Candidates(p) <==> i in {0, 2, 4, 7} {
        if i < |p| { assert p[i].IsAcc() <==> i !in {0, 2, 4, 7}; }
      }
    }
  }

  lemma ExampleFrom2()
    ensures Execution(Example, 2) == Ok(Final(true, 2, 5, {1, 2, 3, 4, 6, 7}))
  {
    var p := Example;
    assert {} + {2} == {2};
    assert Run(p, 2, 0, {}) == Run(p, 6, 0, {2});
    assert {2} + {6} == {2, 6};
    assert Run(p, 6, 0, {2}) == Run(p, 7, 1, {2, 6});
    assert {2, 6} + {7} == {2, 6, 7};
    assert Run(p, 7, 1, {2, 6}) == Run(p, 3, 1, {2, 6, 7});
    assert {2, 6, 7} + {3} == {2, 3, 6, 7};
    assert Run(p, 3, 1, {2, 6, 7}) == Run(p, 4, 4, {2, 3, 6, 7});
    assert {2, 3, 6, 7} + {4} == {2, 3, 4, 6, 7};
    assert Run(p, 4, 4, {2, 3, 6, 7}) == Run(p, 1, 4, {2, 3, 4, 6, 7});
    assert {2, 3, 4, 6, 7} + {1} == {1, 2, 3, 4, 6, 7};
    assert Run(p, 1, 4, {2, 3, 4, 6, 7}) == Run(p, 2, 5, {1, 2, 3, 4, 6, 7});
  }

  lemma ExampleFrom4()
    ensures Execution(Example, 4) == Ok(Final(true, 4, 5, {1, 2, 3, 4, 6, 7}))
  {
    var p := Example;
    assert {} + {4} == {4};
    assert Run(p, 4, 0, {}) == Run(p, 1, 0, {4});
    assert {4} + {1} == {1, 4};
    assert Run(p, 1, 0, {4}) == Run(p, 2, 1, {1, 4});
    assert {1, 4} + {2} == {1, 2, 4};
    assert Run(p, 2, 1, {1, 4}) == Run(p, 6, 1, {1, 2, 4});
    assert {1, 2, 4} + {6} == {1, 2, 4, 6};
    assert Run(p, 6, 1, {1, 2, 4}) == Run(p, 7, 2, {1, 2, 4, 6});
    assert {1, 2, 4, 6} + {7} == {1, 2, 4, 6, 7};
    assert Run(p, 7, 2, {1, 2, 4, 6}) == Run(p, 3, 2, {1, 2, 4, 6, 7});
    assert {1, 2, 4, 6, 7} + {3} == {1, 2, 3, 4, 6, 7};
    assert Run(p, 3, 2, {1, 2, 4, 6, 7}) == Run(p, 4, 5, {1, 2, 3, 4, 6, 7});
  }

  lemma ExampleFrom7()
    ensures Execution(Example, 7) == Ok(Final(true, 7, 5, {1, 2, 3, 4, 6, 7}))
  {
    var p := Example;
    assert {} + {7} == {7};
    assert Run(p, 7, 0, {}) == Run(p, 3, 0, {7});
    assert {7} + {3} == {3, 7};
    assert Run(p, 3, 0, {7}) == Run(p, 4, 3, {3, 7});
    assert {3, 7} + {4} == {3, 4, 7};
    assert Run(p, 4, 3, {3, 7}) == Run(p, 1, 3, {3, 4, 7});
    assert {3, 4, 7} + {1} == {1, 3, 4, 7};
    assert Run(p, 1, 3, {3, 4, 7}) == Run(p, 2, 4, {1, 3, 4, 7});
    assert {1, 3, 4, 7} + {2} == {1, 2, 3, 4, 7};
    assert Run(p, 2, 4, {1, 3, 4, 7}) == Run(p, 6, 4, {1, 2, 3, 4, 7});
    assert {1, 2, 3, 4, 7} + {6} == {1, 2, 3, 4, 6, 7};
    assert Run(p, 6, 4, {1, 2, 3, 4, 7}) == Run(p, 7, 5, {1, 2, 3, 4, 6, 7});
  }

  /** The trial at offset 0 jumps to itself. */
  lemma ExampleTrial0()
    ensures Execution(Trial(Example, 0), 0) == Ok(Final(true, 0, 0, {0}))
  {
    var q := Trial(Example, 0);
    assert q[0] == Jmp(0);
    assert {} + {0} == {0};
    assert Run(q, 0, 0, {}) == Run(q, 0, 0, {0});
  }

  /** The trial at offset 2 loops back to offset 1. */
  lemma ExampleTrial2()
    ensures Execution(Trial(Example, 2), 0) == Ok(Final(true, 1, 4, {0, 1, 2, 3, 4}))
  {
    var q := Trial(Example, 2);
    assert q[0] == Nop(0) && q[1] == Acc(1) && q[2] == Nop(4) && q[3] == Acc(3) && q[4] == Jmp(-3);
    assert {} + {0} == {0};
    assert Run(q, 0, 0, {}) == Run(q, 1, 0, {0});
    assert {0} + {1} == {0, 1};
    assert Run(q, 1, 0, {0}) == Run(q, 2, 1, {0, 1});
    assert {0, 1} + {2} == {0, 1, 2};
    assert Run(q, 2, 1, {0, 1}) == Run(q, 3, 1, {0, 1, 2});
    assert {0, 1, 2} + {3} == {0, 1, 2, 3};
    assert Run(q, 3, 1, {0, 1, 2}) == Run(q, 4, 4, {0, 1, 2, 3});
    assert {0, 1, 2, 3} + {4} == {0, 1, 2, 3, 4};
    assert Run(q, 4, 4, {0, 1, 2, 3}) == Run(q, 1, 4, {0, 1, 2, 3, 4});
  }

  /** The second half of the trial at offset 4, from its visit of offset 7. */
  lemma ExampleTrial4Tail()
    ensures Run(Trial(Example, 4), 7, 2, {0, 1, 2, 6}) == Ok(Final(true, 6, -94, {0, 1, 2, 3, 4, 5, 6, 7}))
  {
    var q := Trial(Example, 4);
    assert q[3] == Acc(3) && q[4] == Nop(-3) && q[5] == Acc(-99) && q[7] == Jmp(-4);
    assert {0, 1, 2, 6} + {7} == {0, 1, 2, 6, 7};
    assert Run(q, 7, 2, {0, 1, 2, 6}) == Run(q, 3, 2, {0, 1, 2, 6, 7});
    assert {0, 1, 2, 6, 7} + {3} == {0, 1, 2, 3, 6, 7};
    assert Run(q, 3, 2, {0, 1, 2, 6, 7}) == Run(q, 4, 5, {0, 1, 2, 3, 6, 7});
    assert {0, 1, 2, 3, 6, 7} + {4} == {0, 1, 2, 3, 4, 6, 7};
    assert Run(q, 4, 5, {0, 1, 2, 3, 6, 7}) == Run(q, 5, 5, {0, 1, 2, 3, 4, 6, 7});
    assert {0, 1, 2, 3, 4, 6, 7} + {5} == {0, 1, 2, 3, 4, 5, 6, 7};
    assert Run(q, 5, 5, {0, 1, 2, 3, 4, 6, 7}) == Run(q, 6, -94, {0, 1, 2, 3, 4, 5, 6, 7});
  }

  /** The trial at offset 4 loops back to offset 6 after passing `acc -99`. */
  lemma ExampleTrial4()
    ensures Execution(Trial(Example, 4), 0) == Ok(Final(true, 6, -94, {0, 1, 2, 3, 4, 5, 6, 7}))
  {
    var q := Trial(Example, 4);
    assert q[0] == Nop(0) && q[1] == Acc(1) && q[2] == Jmp(4) && q[6] == Acc(1);
    assert {} + {0} == {0};
    assert Run(q, 0, 0, {}) == Run(q, 1, 0, {0});
    assert {0} + {1} == {0, 1};
    assert Run(q, 1, 0, {0}) == Run(q, 2, 1, {0, 1});
    assert {0, 1} + {2} == {0, 1, 2};
    assert Run(q, 2, 1, {0, 1}) == Run(q, 6, 1, {0, 1, 2});
    assert {0, 1, 2} + {6} == {0, 1, 2, 6};
    assert Run(q, 6, 1, {0, 1, 2}) == Run(q, 7, 2, {0, 1, 2, 6});
    ExampleTrial4Tail();
  }

  /** The trial at offset 7 falls through past the end with accumulator 8. */
  lemma ExampleTrial7()
    ensures Execution(Trial(Example, 7), 0) == Ok(Final(false, 9, 8, {0, 1, 2, 6, 7, 8}))
  {
    var q := Trial(Example, 7);
    assert q[0] == Nop(0) && q[1] == Acc(1) && q[2] == Jmp(4) && q[6] == Acc(1) && q[7] == Nop(-4) && q[8] == Acc(6);
    assert {} + {0} == {0};
    assert Run(q, 0, 0, {}) == Run(q, 1, 0, {0});
    assert {0} + {1} == {0, 1};
    assert Run(q, 1, 0, {0}) == Run(q, 2, 1, {0, 1});
    assert {0, 1} + {2} == {0, 1, 2};
    assert Run(q, 2, 1, {0, 1}) == Run(q, 6, 1, {0, 1, 2});
    assert {0, 1, 2} + {6} == {0, 1, 2, 6};
    assert Run(q, 6, 1, {0, 1, 2}) == Run(q, 7, 2, {0, 1, 2, 6});
    assert {0, 1, 2, 6} + {7} == {0, 1, 2, 6, 7};
    assert Run(q, 7, 2, {0, 1, 2, 6}) == Run(q, 8, 2, {0, 1, 2, 6, 7});
    assert {0, 1, 2, 6, 7} + {8} == {0, 1, 2, 6, 7, 8};
    assert Run(q, 8, 2, {0, 1, 2, 6, 7}) == Run(q, 9, 8, {0, 1, 2, 6, 7, 8});
  }

  /** A step of the search over an index whose trial, if tried, loops. */
  lemma SearchSkips(p: seq<Operation>, halting: set<nat>, k: nat)
    requires k < |p|
    requires k in halting ==> TrialLoops(p, k)
    ensures SearchFrom(p, halting, k) == SearchFrom(p, halting, k + 1)
  {
  }

  /** The sample: part one answers 5, part two answers 8. */
  lemma ExampleAnswers()
    ensures Execution(Example, 0).Ok? && Execution(Example, 0).value.acc == 5
    ensures Repair(Example) == Ok(8)
  {
    var p := Example;
    ExampleFromStart();
    ExampleFromCandidates();
    ExampleTrial0();
    ExampleTrial2();
    ExampleTrial4();
    ExampleTrial7();
    assert !SomeRunFails(p, Candidates(p));
    var u := LoopUnion(p, Candidates(p));
    assert 7 in LoopSet(p, 7);
    assert 7 in u;
    forall k | k in {1, 3, 5, 6}
      ensures Trial(p, k) == p
    {
      assert p[k].Acc?;
    }
    SearchSkips(p, u, 0);
    SearchSkips(p, u, 1);
    SearchSkips(p, u, 2);
    SearchSkips(p, u, 3);
    SearchSkips(p, u, 4);
    SearchSkips(p, u, 5);
    SearchSkips(p, u, 6);
  }
}
