/** The password database of src/day2.rs: each line is a policy
    `min-max letter` and a password. Part one counts the passwords holding
    the letter between `min` and `max` times; part two those holding it at
    exactly one of the 1-based positions `min` and `max`. */
module Passwords {
  import opened Common

  datatype Policy = Policy(min: nat, max: nat, letter: char)

  type Entry = (Policy, string)

  /* ---------------------------------------------------------------- generator */

  /** One line: split at `": "`, the policy at `" "`, the range at `"-"`,
      each into exactly two pieces (`collect_tuple`); both bounds parse as
      `usize` and the letter piece is not empty. Anything else is dropped. */
  function ParseEntry(x: string): Option<Entry>
  {
    var halves := Split(x, ": ");
    if |halves| != 2 then None
    else
      var words := Split(halves[0], " ");
      if |words| != 2 then None
      else
        var bounds := Split(words[0], "-");
        if |bounds| != 2 then None
        else
          match (ParseUsize(bounds[0]), ParseUsize(bounds[1]))
          case (Some(lo), Some(hi)) =>
            if |words[1]| == 0 then None else Some((Policy(lo, hi, words[1][0]), halves[1]))
          case _ => None
  }

  /** The entries of the lines that parse, in order. */
  function Entries(lines: seq<string>): (r: seq<Entry>)
    ensures |r| <= |lines|
  {
    if |lines| == 0 then []
    else
      match ParseEntry(lines[0])
      case Some(e) => [e] + Entries(lines[1..])
      case None => Entries(lines[1..])
  }

  /** `generator`: the input is split at every `\n` (not `lines`, so a
      `\r` stays in the password). */
  function Generator(input: string): seq<Entry>
  {
    Entries(Split(input, "\n"))
  }

  /** An entry as the database writes it. */
  function ShowEntry(e: Entry): string
  {
    ShowNat(e.0.min) + "-" + ShowNat(e.0.max) + " " + [e.0.letter] + ": " + e.1
  }

  function ShowEntries(es: seq<Entry>): (r: seq<string>)
    ensures |r| == |es| && forall k :: 0 <= k < |es| ==> r[k] == ShowEntry(es[k])
  {
    if |es| == 0 then [] else [ShowEntry(es[0])] + ShowEntries(es[1..])
  }

  /** The database as text: one entry per line. */
  function ShowDatabase(es: seq<Entry>): string
  {
    Join(ShowEntries(es), "\n")
  }

  /** Entries the database can hold: bounds in range, a letter that is not
      a space or a line break, and a password without `": "` or a line
      break. */
  predicate Writable(e: Entry)
  {
    && e.0.min < UsizeLimit && e.0.max < UsizeLimit
    && e.0.letter != ' ' && e.0.letter != '\n'
    && !Contains(e.1, ": ") && forall i :: 0 <= i < |e.1| ==> e.1[i] != '\n'
  }

  /** Round trip of one line. */
  lemma ParseShownEntry(e: Entry)
    requires Writable(e)
    ensures ParseEntry(ShowEntry(e)) == Some(e)
  {
    var lo := ShowNat(e.0.min);
    var hi := ShowNat(e.0.max);
    var range := lo + "-" + hi;
    var head := range + " " + [e.0.letter];
    RangeChars(e.0.min, e.0.max);
    ShownHalves(head, e.1);
    ShownWords(range, e.0.letter);
    ShownBounds(e.0.min, e.0.max);
    ParseNatOfShowNat(e.0.min);
    ParseNatOfShowNat(e.0.max);
    EntryRead(ShowEntry(e), head, e.1, range, e.0.letter, lo, hi, e.0.min, e.0.max);
  }

  /** A line whose pieces read as a policy and a password. */
  lemma EntryRead(x: string, head: string, password: string, range: string, letter: char,
                  lo: string, hi: string, min: nat, max: nat)
    requires Split(x, ": ") == [head, password]
    requires Split(head, " ") == [range, [letter]]
    requires Split(range, "-") == [lo, hi]
    requires ParseNat(lo) == Some(min) && min < UsizeLimit
    requires ParseNat(hi) == Some(max) && max < UsizeLimit
    ensures ParseEntry(x) == Some((Policy(min, max, letter), password))
  {
  }

  /** The policy and the password of a written line are its halves. */
  lemma ShownHalves(head: string, password: string)
    requires forall i :: 0 <= i && i + 2 <= |head| ==> head[i] != ':'
    requires !Contains(password, ": ")
    ensures Split(head + ": " + password, ": ") == [head, password]
  {
    FirstCharAbsent(head, ": ");
    SplitPair(head, password, ": ");
  }

  /** A written range holds digits and one `-`. */
  lemma RangeChars(min: nat, max: nat)
    ensures var range := ShowNat(min) + "-" + ShowNat(max);
      forall i :: 0 <= i < |range| ==> range[i] != ':' && range[i] != ' '
  {
    var lo := ShowNat(min);
    var hi := ShowNat(max);
    assert forall i :: 0 <= i < |lo| ==> IsDigit(lo[i]);
    assert forall i :: 0 <= i < |hi| ==> IsDigit(hi[i]);
  }

  /** The range and the letter of a written policy are its words. */
  lemma ShownWords(range: string, letter: char)
    requires forall i :: 0 <= i < |range| ==> range[i] != ' '
    requires letter != ' '
    ensures Split(range + " " + [letter], " ") == [range, [letter]]
  {
    FirstCharAbsent(range, " ");
    NoCharNoMatch([letter], ' ');
    SplitPair(range, [letter], " ");
  }

  /** The two bounds of a written range. */
  lemma ShownBounds(min: nat, max: nat)
    ensures Split(ShowNat(min) + "-" + ShowNat(max), "-") == [ShowNat(min), ShowNat(max)]
  {
    var lo := ShowNat(min);
    var hi := ShowNat(max);
    assert lo + "-" + hi == Join([lo, hi], "-");
    NoCharNoMatch(lo, '-');
    NoCharNoMatch(hi, '-');
    SplitOfJoin([lo, hi], "-");
  }

  lemma ShownHasNoBreak(e: Entry)
    requires Writable(e)
    ensures !Contains(ShowEntry(e), "\n")
  {
    var s := ShowEntry(e);
    var lo := ShowNat(e.0.min);
    var hi := ShowNat(e.0.max);
    assert s == lo + ("-" + (hi + (" " + ([e.0.letter] + (": " + e.1)))));
    NoCharNoMatch(s, '\n');
  }

  lemma {:induction false} EntriesOfShown(es: seq<Entry>)
    requires forall k :: 0 <= k < |es| ==> Writable(es[k])
    ensures Entries(ShowEntries(es)) == es
  {
    if |es| > 0 {
      ParseShownEntry(es[0]);
      EntriesOfShown(es[1..]);
      assert ShowEntries(es)[1..] == ShowEntries(es[1..]);
      assert [es[0]] + es[1..] == es;
    }
  }

  /** Round trip: a database written as text is read back entry by entry. */
  lemma GeneratorOfShown(es: seq<Entry>)
    requires |es| > 0 && forall k :: 0 <= k < |es| ==> Writable(es[k])
    ensures Generator(ShowDatabase(es)) == es
  {
    var lines := ShowEntries(es);
    forall k | 0 <= k < |lines|
      ensures !Contains(lines[k], "\n")
    {
      ShownHasNoBreak(es[k]);
    }
    SplitOfJoin(lines, "\n");
    EntriesOfShown(es);
  }

  /* ---------------------------------------------------------------- part one */

  /** How often `c` occurs in `s`. */
  function Occurrences(s: string, c: char): nat
  {
    if |s| == 0 then 0 else (if s[0] == c then 1 else 0) + Occurrences(s[1..], c)
  }

  /** The count is the letter's multiplicity in the password. */
  lemma {:induction false} OccurrencesIsMultiplicity(s: string, c: char)
    ensures Occurrences(s, c) == multiset(s)[c]
  {
    if |s| > 0 {
      OccurrencesIsMultiplicity(s[1..], c);
      assert s == [s[0]] + s[1..];
    }
  }

  /** The first policy: the letter occurs between `min` and `max` times. */
  predicate CountValid(e: Entry)
  {
    e.0.min <= Occurrences(e.1, e.0.letter) <= e.0.max
  }

  /** `solve_part1`: how many entries satisfy the first policy. */
  function SolvePart1(es: seq<Entry>): (r: nat)
    ensures r <= |es|
  {
    if |es| == 0 then 0 else (if CountValid(es[0]) then 1 else 0) + SolvePart1(es[1..])
  }

  /** The count adds up over a split of the database. */
  lemma {:induction false} Part1Adds(a: seq<Entry>, b: seq<Entry>)
    ensures SolvePart1(a + b) == SolvePart1(a) + SolvePart1(b)
  {
    if |a| > 0 {
      Part1Adds(a[1..], b);
      assert (a + b)[1..] == a[1..] + b;
    } else {
      assert a + b == b;
    }
  }

  /* ---------------------------------------------------------------- part two */

  /** `chars().nth(k).unwrap_or('\0')`. */
  function CharAt(s: string, k: nat): char
  {
    if k < |s| then s[k] else '\0'
  }

  /** The second policy: the letter is at exactly one of the 1-based
      positions `min` and `max`. */
  predicate PositionValid(e: Entry)
    requires e.0.min >= 1 && e.0.max >= 1
  {
    (CharAt(e.1, e.0.min - 1) == e.0.letter) != (CharAt(e.1, e.0.max - 1) == e.0.letter)
  }

  /** `solve_part2`: how many entries satisfy the second policy; `None` when
      some position is 0, where `min - 1` or `max - 1` underflows. */
  function SolvePart2(es: seq<Entry>): (r: Option<nat>)
    ensures r.None? <==> exists k :: 0 <= k < |es| && (es[k].0.min == 0 || es[k].0.max == 0)
    ensures r.Some? ==> r.value <= |es|
  {
    if |es| == 0 then Some(0)
    else if es[0].0.min == 0 || es[0].0.max == 0 then None
    else
      var rest := SolvePart2(es[1..]);
      assert forall k :: 1 <= k < |es| ==> es[k] == es[1..][k - 1];
      assert rest.Some? ==> forall k :: 0 <= k < |es| ==> es[k].0.min != 0 && es[k].0.max != 0 by {
        if rest.Some? {
          forall k | 0 <= k < |es|
            ensures es[k].0.min != 0 && es[k].0.max != 0
          {
            if k > 0 {
              assert es[1..][k - 1] == es[k];
            }
          }
        }
      }
      match rest
      case None => None
      case Some(n) => Some((if PositionValid(es[0]) then 1 else 0) + n)
  }

  /** The second count adds up over a split of the database. */
  lemma {:induction false} Part2Adds(a: seq<Entry>, b: seq<Entry>)
    requires SolvePart2(a).Some? && SolvePart2(b).Some?
    ensures SolvePart2(a + b) == Some(SolvePart2(a).value + SolvePart2(b).value)
  {
    if |a| > 0 {
      assert (a + b)[1..] == a[1..] + b;
      Part2Adds(a[1..], b);
    } else {
      assert a + b == b;
    }
  }

  /* ---------------------------------------------------------------- sample */

  const Sample: seq<Entry> := [(Policy(1, 3, 'a'), "abcde"), (Policy(1, 3, 'b'), "cdefg"), (Policy(2, 9, 'c'), "ccccccccc")]

  lemma SampleWritable()
    ensures forall k :: 0 <= k < |Sample| ==> Writable(Sample[k])
  {
    FirstCharAbsent("abcde", ": ");
    FirstCharAbsent("cdefg", ": ");
    FirstCharAbsent("ccccccccc", ": ");
  }

  const SampleLines: seq<string> := ["1-3 a: abcde", "1-3 b: cdefg", "2-9 c: ccccccccc"]

  lemma SampleEntryShown(k: nat)
    requires k < |Sample|
    ensures ShowEntry(Sample[k]) == SampleLines[k]
  {
    assert ShowNat(1) == "1" && ShowNat(2) == "2" && ShowNat(3) == "3" && ShowNat(9) == "9";
  }

  lemma SampleShown()
    ensures ShowDatabase(Sample) == "1-3 a: abcde\n1-3 b: cdefg\n2-9 c: ccccccccc"
  {
    SampleEntriesShown();
    assert ShowDatabase(Sample) == Join(SampleLines, "\n");
    JoinThree("1-3 a: abcde", "1-3 b: cdefg", "2-9 c: ccccccccc", "\n");
    assert Join(SampleLines, "\n") == "1-3 a: abcde" + "\n" + "1-3 b: cdefg" + "\n" + "2-9 c: ccccccccc";
    SampleLinesGlued();
  }

  lemma SampleLinesGlued()
    ensures "1-3 a: abcde" + "\n" + "1-3 b: cdefg" + "\n" + "2-9 c: ccccccccc" == "1-3 a: abcde\n1-3 b: cdefg\n2-9 c: ccccccccc"
  {
  }

  lemma SampleEntriesShown()
    ensures ShowEntries(Sample) == SampleLines
  {
    SampleEntryShown(0);
    SampleEntryShown(1);
    SampleEntryShown(2);
  }

  lemma JoinThree(a: string, b: string, c: string, sep: string)
    ensures Join([a, b, c], sep) == a + sep + b + sep + c
  {
    assert [a, b, c][1..] == [b, c];
    assert [b, c][1..] == [c];
    assert Join([b, c], sep) == b + sep + c;
    assert Join([a, b, c], sep) == a + sep + (b + sep + c);
    assert a + sep + (b + sep + c) == a + sep + b + sep + c;
  }

  lemma SampleText()
    ensures Generator("1-3 a: abcde\n1-3 b: cdefg\n2-9 c: ccccccccc") == Sample
  {
    SampleShown();
    SampleWritable();
    GeneratorOfShown(Sample);
  }

  lemma SampleCounts()
    ensures SolvePart1(Sample) == 2 && SolvePart2(Sample) == Some(1)
  {
    assert Occurrences("abcde", 'a') == 1;
    assert Occurrences("cdefg", 'b') == 0;
    assert Occurrences("ccccccccc", 'c') == 9;
  }
}
