/** The customs declaration forms of src/day6.rs: each group is a run of
    lines, one per person, listing the questions that person answered
    "yes". Part one counts, per group, the questions anyone answered; part
    two the questions everyone answered. */
module Customs {
  import opened Common

  /** `Group`: the answers of each person, in order. */
  datatype Group = Group(people: seq<seq<char>>)

  /** The distinct answers of one person. */
  function Answers(person: seq<char>): (r: set<char>)
    ensures forall c :: c in r <==> c in person
  {
    set c | c in person
  }

  /** The answers of anyone in `people` (`flat_map`, then `unique`). */
  function Union(people: seq<seq<char>>): set<char>
  {
    if |people| == 0 then {} else Answers(people[0]) + Union(people[1..])
  }

  lemma {:induction false} UnionMeaning(people: seq<seq<char>>, c: char)
    ensures c in Union(people) <==> exists i :: 0 <= i < |people| && c in people[i]
  {
    if |people| > 0 {
      UnionMeaning(people[1..], c);
      assert forall i :: 1 <= i < |people| ==> people[i] == people[1..][i - 1];
      if c in Union(people[1..]) {
        var i :| 0 <= i < |people[1..]| && c in people[1..][i];
        assert c in people[i + 1];
      }
    }
  }

  /** `count_unique`. */
  function CountUnique(g: Group): nat
  {
    |Union(g.people)|
  }

  /** The `reduce` of `count_intersection`: the answer sets intersected
      from the left. */
  function Shared(people: seq<seq<char>>): set<char>
    requires |people| >= 1
  {
    if |people| == 1 then Answers(people[0])
    else Shared(people[..|people| - 1]) * Answers(people[|people| - 1])
  }

  lemma {:induction false} SharedMeaning(people: seq<seq<char>>, c: char)
    requires |people| >= 1
    ensures c in Shared(people) <==> forall i :: 0 <= i < |people| ==> c in people[i]
  {
    if |people| > 1 {
      var init := people[..|people| - 1];
      SharedMeaning(init, c);
      assert forall i :: 0 <= i < |init| ==> init[i] == people[i];
    }
  }

  /** `count_intersection`: 0 for a group without people, where `reduce`
      gives nothing. */
  function CountIntersection(g: Group): nat
  {
    if |g.people| == 0 then 0 else |Shared(g.people)|
  }

  /** What everyone answered, someone answered. */
  lemma IntersectionWithinUnique(g: Group)
    ensures CountIntersection(g) <= CountUnique(g)
  {
    if |g.people| > 0 {
      forall c | c in Shared(g.people)
        ensures c in Union(g.people)
      {
        SharedMeaning(g.people, c);
        UnionMeaning(g.people, c);
        assert c in g.people[0];
      }
      SubsetNoLarger(Shared(g.people), Union(g.people));
    }
  }

  /** A repeated answer counts once: a person who answers again a question
      they already answered changes neither count. */
  lemma RepeatedAnswer(g: Group, i: nat, k: nat)
    requires i < |g.people| && k < |g.people[i]|
    ensures var h := Group(g.people[i := g.people[i] + [g.people[i][k]]]);
      CountUnique(h) == CountUnique(g) && CountIntersection(h) == CountIntersection(g)
  {
    var h := Group(g.people[i := g.people[i] + [g.people[i][k]]]);
    assert Answers(h.people[i]) == Answers(g.people[i]);
    forall c
      ensures c in Union(h.people) <==> c in Union(g.people)
    {
      UnionMeaning(h.people, c);
      UnionMeaning(g.people, c);
      assert forall j :: 0 <= j < |g.people| ==> (c in h.people[j] <==> c in g.people[j]);
    }
    assert Union(h.people) == Union(g.people);
    forall c
      ensures c in Shared(h.people) <==> c in Shared(g.people)
    {
      SharedMeaning(h.people, c);
      SharedMeaning(g.people, c);
      assert forall j :: 0 <= j < |g.people| ==> (c in h.people[j] <==> c in g.people[j]);
    }
    assert Shared(h.people) == Shared(g.people);
  }

  /* ---------------------------------------------------------------- generator */

  function Groups(blocks: seq<string>): (r: seq<Group>)
    ensures |r| == |blocks| && forall k :: 0 <= k < |blocks| ==> r[k] == Group(Lines(blocks[k]))
  {
    if |blocks| == 0 then [] else [Group(Lines(blocks[0]))] + Groups(blocks[1..])
  }

  /** `generator`: groups are split at every blank line, people at line
      breaks (`lines`). */
  function Generator(input: string): (r: seq<Group>)
    ensures |r| == |Split(input, "\n\n")|
  {
    Groups(Split(input, "\n\n"))
  }

  /* ---------------------------------------------------------------- solutions */

  /** `solve_part1`. */
  function SolvePart1(groups: seq<Group>): nat
  {
    if |groups| == 0 then 0 else CountUnique(groups[0]) + SolvePart1(groups[1..])
  }

  /** `solve_part2`. */
  function SolvePart2(groups: seq<Group>): nat
  {
    if |groups| == 0 then 0 else CountIntersection(groups[0]) + SolvePart2(groups[1..])
  }

  /** Part two never exceeds part one. */
  lemma {:induction false} Part2WithinPart1(groups: seq<Group>)
    ensures SolvePart2(groups) <= SolvePart1(groups)
  {
    if |groups| > 0 {
      IntersectionWithinUnique(groups[0]);
      Part2WithinPart1(groups[1..]);
    }
  }

  /** Both sums add up over a split of the groups. */
  lemma {:induction false} SolvesAdd(a: seq<Group>, b: seq<Group>)
    ensures SolvePart1(a + b) == SolvePart1(a) + SolvePart1(b)
    ensures SolvePart2(a + b) == SolvePart2(a) + SolvePart2(b)
  {
    if |a| > 0 {
      assert (a + b)[1..] == a[1..] + b;
      SolvesAdd(a[1..], b);
    } else {
      assert a + b == b;
    }
  }

  /* ---------------------------------------------------------------- written form */

  /** A group as written: one person per line. */
  function ShowGroup(people: seq<string>): string
  {
    Join(people, "\n")
  }

  function ShowGroups(groups: seq<seq<string>>): (r: seq<string>)
    ensures |r| == |groups| && forall k :: 0 <= k < |groups| ==> r[k] == ShowGroup(groups[k])
  {
    if |groups| == 0 then [] else [ShowGroup(groups[0])] + ShowGroups(groups[1..])
  }

  /** The forms as written: groups separated by a blank line. */
  function ShowForms(groups: seq<seq<string>>): string
  {
    Join(ShowGroups(groups), "\n\n")
  }

  /** A person's line: not empty, no line break, no final `\r`. */
  predicate WritablePerson(line: string)
  {
    |line| > 0 && PlainLine(line)
  }

  predicate WritableGroup(people: seq<string>)
  {
    |people| > 0 && forall i :: 0 <= i < |people| ==> WritablePerson(people[i])
  }

  /** A written group has no blank line and does not end with a line break. */
  lemma {:induction false} ShownGroupShape(people: seq<string>)
    requires WritableGroup(people)
    ensures var s := ShowGroup(people);
      && |s| > 0 && s[|s| - 1] != '\n' && s[0] != '\n'
      && forall i :: 0 <= i < |s| - 1 ==> !(s[i] == '\n' && s[i + 1] == '\n')
  {
    if |people| > 1 {
      var rest := ShowGroup(people[1..]);
      assert WritableGroup(people[1..]) by {
        assert forall i :: 1 <= i < |people| ==> people[1..][i - 1] == people[i];
      }
      ShownGroupShape(people[1..]);
      var s := ShowGroup(people);
      var p := people[0];
      assert s == p + "\n" + rest;
      forall i | 0 <= i < |s| - 1
        ensures !(s[i] == '\n' && s[i + 1] == '\n')
      {
        if i < |p| {
          assert s[i] == p[i];
        } else if i == |p| {
          assert s[i + 1] == rest[0];
        } else {
          assert s[i] == rest[i - |p| - 1] && s[i + 1] == rest[i - |p|];
        }
      }
    }
  }

  lemma GroupSeparable(people: seq<string>)
    requires WritableGroup(people)
    ensures !Contains(ShowGroup(people), "\n\n") && NoStraddle(ShowGroup(people), "\n\n")
  {
    ShownGroupShape(people);
    NoBlankLine(ShowGroup(people));
  }

  /** A text with no two line breaks in a row, not ending in one, holds no
      blank line, also not where it meets a following one. */
  lemma NoBlankLine(s: string)
    requires |s| > 0 && s[|s| - 1] != '\n'
    requires forall i :: 0 <= i < |s| - 1 ==> !(s[i] == '\n' && s[i + 1] == '\n')
    ensures !Contains(s, "\n\n") && NoStraddle(s, "\n\n")
  {
    forall i | 0 <= i && i + 2 <= |s|
      ensures !OccursAt(s, "\n\n", i)
    {
      assert s[i..i + 2] == [s[i], s[i + 1]];
    }
    forall p: nat | p < |s| < p + 2
      ensures !OccursAt(s + "\n\n", "\n\n", p)
    {
      assert (s + "\n\n")[p] == s[|s| - 1];
    }
  }

  /** The lines of a written group are its people. */
  lemma LinesOfGroup(people: seq<string>)
    requires WritableGroup(people)
    ensures Lines(ShowGroup(people)) == people
  {
    forall k | 0 <= k < |people|
      ensures !Contains(people[k], "\n")
    {
      NoCharNoMatch(people[k], '\n');
    }
    SplitOfJoin(people, "\n");
    assert SplitTerminator(ShowGroup(people), "\n") == people;
  }

  /** Round trip: written forms are read back group by group. */
  lemma GeneratorOfShown(groups: seq<seq<string>>)
    requires |groups| > 0 && forall k :: 0 <= k < |groups| ==> WritableGroup(groups[k])
    ensures Generator(ShowForms(groups)) == seq(|groups|, k requires 0 <= k < |groups| => Group(groups[k]))
  {
    var blocks := ShowGroups(groups);
    forall k | 0 <= k < |blocks|
      ensures !Contains(blocks[k], "\n\n") && NoStraddle(blocks[k], "\n\n")
    {
      GroupSeparable(groups[k]);
    }
    SplitOfJoinWith(blocks, "\n\n");
    forall k | 0 <= k < |groups|
      ensures Lines(blocks[k]) == groups[k]
    {
      LinesOfGroup(groups[k]);
    }
  }

  /* ---------------------------------------------------------------- sample */

  const Sample: seq<seq<string>> := [["abc"], ["a", "b", "c"], ["ab", "ac"], ["a", "a", "a", "a"], ["b"]]

  const SampleBlocks: seq<string> := ["abc", "a\nb\nc", "ab\nac", "a\na\na\na", "b"]

  lemma SampleGroups()
    ensures ShowGroups(Sample) == SampleBlocks
  {
    assert ShowGroup(Sample[1]) == "a\nb\nc";
    assert ShowGroup(Sample[2]) == "ab\nac";
    assert ShowGroup(Sample[3]) == "a\na\na\na";
  }

  lemma SampleJoin3()
    ensures Join(SampleBlocks[3..], "\n\n") == "a\na\na\na\n\nb"
  {
    assert Join(SampleBlocks[4..], "\n\n") == "b";
    assert SampleBlocks[3..][1..] == SampleBlocks[4..];
    assert SampleBlocks[3..][0] == "a\na\na\na";
  }

  lemma SampleJoin2()
    ensures Join(SampleBlocks[2..], "\n\n") == "ab\nac\n\na\na\na\na\n\nb"
  {
    SampleJoin3();
    assert SampleBlocks[2..][1..] == SampleBlocks[3..];
    assert SampleBlocks[2..][0] == "ab\nac";
  }

  lemma SampleJoin1()
    ensures Join(SampleBlocks[1..], "\n\n") == "a\nb\nc\n\nab\nac\n\na\na\na\na\n\nb"
  {
    SampleJoin2();
    assert SampleBlocks[1..][1..] == SampleBlocks[2..];
    assert SampleBlocks[1..][0] == "a\nb\nc";
  }

  /** The sample of the tests, written out. */
  lemma SampleText()
    ensures ShowForms(Sample) == "abc\n\na\nb\nc\n\nab\nac\n\na\na\na\na\n\nb"
  {
    SampleGroups();
    SampleJoin1();
  }

  lemma SampleWritable()
    ensures forall k :: 0 <= k < |Sample| ==> WritableGroup(Sample[k])
  {
  }

  /** The sample text is read as its five groups. */
  lemma SampleRead()
    ensures Generator("abc\n\na\nb\nc\n\nab\nac\n\na\na\na\na\n\nb") ==
      [Group(Sample[0]), Group(Sample[1]), Group(Sample[2]), Group(Sample[3]), Group(Sample[4])]
  {
    SampleText();
    SampleWritable();
    ReadBack(Sample, "abc\n\na\nb\nc\n\nab\nac\n\na\na\na\na\n\nb");
  }

  /** `GeneratorOfShown` for five groups, stated over the text. */
  lemma ReadBack(groups: seq<seq<string>>, text: string)
    requires |groups| == 5 && forall k :: 0 <= k < |groups| ==> WritableGroup(groups[k])
    requires ShowForms(groups) == text
    ensures Generator(text) == [Group(groups[0]), Group(groups[1]), Group(groups[2]), Group(groups[3]), Group(groups[4])]
  {
    GeneratorOfShown(groups);
    FiveGroups(Generator(text), groups);
  }

  lemma FiveGroups(r: seq<Group>, groups: seq<seq<string>>)
    requires |groups| == 5 && r == seq(|groups|, k requires 0 <= k < |groups| => Group(groups[k]))
    ensures r == [Group(groups[0]), Group(groups[1]), Group(groups[2]), Group(groups[3]), Group(groups[4])]
  {
  }

  lemma SampleAnswers()
    ensures Answers("abc") == {'a', 'b', 'c'} && Answers("ab") == {'a', 'b'} && Answers("ac") == {'a', 'c'}
    ensures Answers("a") == {'a'} && Answers("b") == {'b'} && Answers("c") == {'c'}
  {
  }

  lemma SampleSizes()
    ensures |{'a', 'b', 'c'}| == 3 && |{'a'}| == 1 && |{'b'}| == 1
  {
  }

  lemma SampleUnique()
    ensures CountUnique(Group(Sample[0])) == 3 && CountUnique(Group(Sample[1])) == 3
    ensures CountUnique(Group(Sample[2])) == 3 && CountUnique(Group(Sample[3])) == 1
    ensures CountUnique(Group(Sample[4])) == 1
  {
    SampleSizes();
    SampleUnion0();
    SampleUnion1();
    SampleUnion2();
    SampleUnion3();
    SampleUnion4();
  }

  lemma SampleUnion0()
    ensures Union(Sample[0]) == {'a', 'b', 'c'}
  {
    SampleAnswers();
  }

  lemma SampleUnion1()
    ensures Union(Sample[1]) == {'a', 'b', 'c'}
  {
    SampleAnswers();
  }

  lemma SampleUnion2()
    ensures Union(Sample[2]) == {'a', 'b', 'c'}
  {
    SampleAnswers();
  }

  lemma SampleUnion3()
    ensures Union(Sample[3]) == {'a'}
  {
    SampleAnswers();
  }

  lemma SampleUnion4()
    ensures Union(Sample[4]) == {'b'}
  {
    SampleAnswers();
  }

  lemma SampleShared()
    ensures CountIntersection(Group(Sample[0])) == 3 && CountIntersection(Group(Sample[1])) == 0
    ensures CountIntersection(Group(Sample[2])) == 1 && CountIntersection(Group(Sample[3])) == 1
    ensures CountIntersection(Group(Sample[4])) == 1
  {
    SampleSizes();
    SampleAnswers();
    SampleShared1();
    SampleShared2();
    SampleShared3();
  }

  lemma SampleShared1()
    ensures Shared(Sample[1]) == {}
  {
    SampleAnswers();
    assert Sample[1][..2] == ["a", "b"] && Sample[1][..2][..1] == ["a"];
  }

  lemma SampleShared2()
    ensures Shared(Sample[2]) == {'a'}
  {
    SampleAnswers();
    assert Sample[2][..1] == ["ab"];
  }

  lemma SampleShared3()
    ensures Shared(Sample[3]) == {'a'}
  {
    SampleAnswers();
    var g := Sample[3];
    assert g[..3][..2][..1] == g[..1] == ["a"];
    assert Shared(g[..2]) == {'a'} by {
      assert g[..2][..1] == ["a"];
    }
    assert Shared(g[..3]) == {'a'} by {
      assert g[..3][..2] == g[..2];
    }
    assert g[..3] == g[..|g| - 1];
  }

  lemma SolveOne(g: Group)
    ensures SolvePart1([g]) == CountUnique(g) && SolvePart2([g]) == CountIntersection(g)
  {
    assert [g][1..] == [];
  }

  lemma SampleSums(a: Group, b: Group, c: Group, d: Group, e: Group)
    ensures SolvePart1([a, b, c, d, e]) == CountUnique(a) + CountUnique(b) + CountUnique(c) + CountUnique(d) + CountUnique(e)
    ensures SolvePart2([a, b, c, d, e]) ==
      CountIntersection(a) + CountIntersection(b) + CountIntersection(c) + CountIntersection(d) + CountIntersection(e)
  {
    SolveOne(e);
    SolvesAdd([d], [e]);
    SolveOne(d);
    SolvesAdd([c], [d, e]);
    SolveOne(c);
    SolvesAdd([b], [c, d, e]);
    SolveOne(b);
    SolvesAdd([a], [b, c, d, e]);
    SolveOne(a);
  }

  /** The sample forms: 11 questions answered by anyone, 6 by everyone. */
  lemma SampleCounts()
    ensures var groups := Generator("abc\n\na\nb\nc\n\nab\nac\n\na\na\na\na\n\nb");
      SolvePart1(groups) == 11 && SolvePart2(groups) == 6
  {
    SampleRead();
    SampleCountsOf();
  }

  lemma SampleCountsOf()
    ensures var groups := [Group(Sample[0]), Group(Sample[1]), Group(Sample[2]), Group(Sample[3]), Group(Sample[4])];
      SolvePart1(groups) == 11 && SolvePart2(groups) == 6
  {
    SampleUnique();
    SampleShared();
    SampleSums(Group(Sample[0]), Group(Sample[1]), Group(Sample[2]), Group(Sample[3]), Group(Sample[4]));
  }
}
