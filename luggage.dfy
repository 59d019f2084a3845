/** The luggage rules of src/day7.rs: each rule says which bags, and how many
    of each, a bag of some colour must directly contain. The model parses
    the rules, counts the bags inside a shiny gold bag with the source's
    work queue, and specifies the bags that can end up holding a shiny gold
    bag as a reachability closure. */
module Luggage {
  import opened Common

  /** One rule: a colour and the `(count, colour)` pairs it must contain. */
  datatype Constraint = Constraint(source: string, contains: seq<(nat, string)>)

  /** The rules keyed by colour, as `generator` collects them. */
  type Rules = map<string, seq<(nat, string)>>

  const ShinyGold: string := "shiny gold"

  /** The largest `u32`, which bounds what `amount.parse::<u32>()` accepts. */
  const U32Max: nat := 0xFFFF_FFFF

  /* ---------------------------------------------------------------- parsing */

  /** `nom::character::is_digit(c as u8)`: the low byte of the character is
      an ASCII digit. */
  predicate ByteDigit(c: char)
  {
    IsDigit(((c as int) % 256) as char)
  }

  /** The length of the leading run that `take_while1(is_digit)` takes. */
  function DigitRun(s: string): (n: nat)
    ensures n <= |s|
    ensures forall i :: 0 <= i < n ==> ByteDigit(s[i])
    ensures n < |s| ==> !ByteDigit(s[n])
  {
    if |s| > 0 && ByteDigit(s[0]) then 1 + DigitRun(s[1..]) else 0
  }

  /** Drop `p` from the front of `s` if it is there (`opt(tag(p))`). */
  function SkipTag(s: string, p: string): (r: string)
    ensures |r| <= |s|
    ensures StartsWith(s, p) ==> r == s[|p|..]
    ensures !StartsWith(s, p) ==> r == s
  {
    if StartsWith(s, p) then s[|p|..] else s
  }

  /** `parse_contain`: either `no other bags` (no pair), or a count, white
      space, a colour up to ` bag`, then an optional `s` and `, `. The count
      is converted last, with a panic when it is not a `u32`. */
  function ParseContain(s: string): (r: Outcome<Option<(nat, string)>>)
    ensures r.Parsed? ==> |r.rest| < |s|
  {
    if StartsWith(s, "no other bags") then Parsed(None, s[13..])
    else
      var n := DigitRun(s);
      if n == 0 then NoMatch
      else
        var t := SkipSpace(s[n..]);
        match Find(t, " bag")
        case None => NoMatch
        case Some(i) =>
          var rest := SkipTag(SkipTag(t[i + 4..], "s"), ", ");
          match ParseNat(s[..n])
          case None => Panic
          case Some(v) => if v > U32Max then Panic else Parsed(Some((v, t[..i])), rest)
  }

  /** The repetition inside `many1(parse_contain)`: items until one does not
      match; a panic anywhere aborts. */
  function ManyContain(s: string): (r: Outcome<seq<Option<(nat, string)>>>)
    ensures !r.NoMatch?
    ensures r.Parsed? ==> |r.rest| <= |s|
    ensures r.Parsed? && |r.value| > 0 ==> |r.rest| < |s|
    decreases |s|
  {
    match ParseContain(s)
    case NoMatch => Parsed([], s)
    case Panic => Panic
    case Parsed(item, rest) =>
      match ManyContain(rest)
      case Parsed(items, r) => Parsed([item] + items, r)
      case _ => Panic
  }

  /** The pairs of the items that are pairs (`flat_map` over the options). */
  function Flatten(items: seq<Option<(nat, string)>>): (r: seq<(nat, string)>)
    ensures |r| <= |items|
  {
    if |items| == 0 then []
    else (match items[0] case Some(x) => [x] case None => []) + Flatten(items[1..])
  }

  /** `bag_constraint`: a colour up to ` bags`, then ` bags contain `, at
      least one item, and an optional `.` and line break. */
  function BagConstraint(s: string): (r: Outcome<Constraint>)
    ensures r.Parsed? ==> |r.rest| < |s|
  {
    match Find(s, " bags")
    case None => NoMatch
    case Some(i) =>
      if !StartsWith(s[i..], " bags contain ") then NoMatch
      else
        match ManyContain(s[i + 14..])
        case Parsed(items, rest) =>
          if |items| == 0 then NoMatch
          else Parsed(Constraint(s[..i], Flatten(items)), SkipTag(rest, ".\n"))
        case _ => Panic
  }

  /** `many1(bag_constraint)` before the `unwrap`. */
  function ManyConstraints(s: string): (r: Outcome<seq<Constraint>>)
    ensures !r.NoMatch?
    decreases |s|
  {
    match BagConstraint(s)
    case NoMatch => Parsed([], s)
    case Panic => Panic
    case Parsed(c, rest) =>
      match ManyConstraints(rest)
      case Parsed(cs, r) => Parsed([c] + cs, r)
      case _ => Panic
  }

  /** Insert the rules in order; a later rule for the same colour replaces
      an earlier one, as collecting into a `HashMap` does. */
  function Collect(cs: seq<Constraint>): (m: Rules)
    ensures forall k :: k in m <==> exists i :: 0 <= i < |cs| && cs[i].source == k
  {
    if |cs| == 0 then map[]
    else
      var last := cs[|cs| - 1];
      var m := Collect(cs[..|cs| - 1])[last.source := last.contains];
      assert forall k :: k in m <==> exists i :: 0 <= i < |cs| && cs[i].source == k by {
        forall k
          ensures k in m <==> exists i :: 0 <= i < |cs| && cs[i].source == k
        {
          if k in m && k != last.source {
            var i :| 0 <= i < |cs| - 1 && cs[..|cs| - 1][i].source == k;
            assert cs[i].source == k;
          }
          if k != last.source && (exists i :: 0 <= i < |cs| && cs[i].source == k) {
            var i :| 0 <= i < |cs| && cs[i].source == k;
            assert cs[..|cs| - 1][i].source == k;
          }
        }
      }
      m
  }

  /** The rule a colour ends up with is the last rule written for it. */
  lemma {:induction false} CollectLastWins(cs: seq<Constraint>, i: nat)
    requires i < |cs|
    requires forall j :: i < j < |cs| ==> cs[j].source != cs[i].source
    ensures cs[i].source in Collect(cs) && Collect(cs)[cs[i].source] == cs[i].contains
  {
    if i < |cs| - 1 {
      var init := cs[..|cs| - 1];
      forall j | i < j < |init|
        ensures init[j].source != init[i].source
      {
        assert init[j] == cs[j];
      }
      CollectLastWins(init, i);
    }
  }

  /** `generator`: the `unwrap` panics unless at least one rule parses. */
  function Generator(text: string): (r: Option<Rules>)
    ensures r.Some? <==> ManyConstraints(text).Parsed? && |ManyConstraints(text).value| > 0
  {
    match ManyConstraints(text)
    case Parsed(cs, _) => if |cs| == 0 then None else Some(Collect(cs))
    case _ => None
  }

  /* ---------------------------------------------------------------- writing rules */

  /** A colour name the parser reads back: it does not start with white
      space and does not contain ` bag`. */
  predicate Colour(name: string)
  {
    |name| > 0 && !IsMultispace(name[0]) && !Contains(name, " bag")
  }

  /** A rule the puzzle text can state: colours the parser reads back and
      counts that fit a `u32`. */
  predicate Writable(c: Constraint)
  {
    !Contains(c.source, " bag") &&
    forall j :: 0 <= j < |c.contains| ==> c.contains[j].0 <= U32Max && Colour(c.contains[j].1)
  }

  /** `2 muted yellow bags`, `1 shiny gold bag`. */
  function ShowItem(x: (nat, string)): string
  {
    ShowNat(x.0) + " " + x.1 + " bag" + (if x.0 == 1 then "" else "s")
  }

  /** The items separated by `, `; `no other bags` when there are none. */
  function ShowItems(xs: seq<(nat, string)>): string
  {
    if |xs| == 0 then "no other bags"
    else if |xs| == 1 then ShowItem(xs[0])
    else ShowItem(xs[0]) + ", " + ShowItems(xs[1..])
  }

  /** One rule as a line of the puzzle input. */
  function ShowConstraint(c: Constraint): string
  {
    c.source + " bags contain " + ShowItems(c.contains) + ".\n"
  }

  function ShowRules(cs: seq<Constraint>): string
  {
    if |cs| == 0 then "" else ShowConstraint(cs[0]) + ShowRules(cs[1..])
  }

  lemma DigitsAreByteDigits(s: string)
    requires AllDigits(s)
    ensures forall i :: 0 <= i < |s| ==> ByteDigit(s[i])
  {
    forall i | 0 <= i < |s|
      ensures ByteDigit(s[i])
    {
      assert (s[i] as int) % 256 == s[i] as int;
    }
  }

  lemma {:induction false} DigitRunOf(digits: string, rest: string)
    requires forall i :: 0 <= i < |digits| ==> ByteDigit(digits[i])
    requires |rest| > 0 && !ByteDigit(rest[0])
    ensures DigitRun(digits + rest) == |digits|
    decreases |digits|
  {
    if |digits| > 0 {
      assert (digits + rest)[1..] == digits[1..] + rest;
      DigitRunOf(digits[1..], rest);
    } else {
      assert digits + rest == rest;
    }
  }

  lemma NoBagNoBags(s: string)
    requires !Contains(s, " bag")
    ensures !Contains(s, " bags")
  {
    if Contains(s, " bags") {
      var i := Find(s, " bags").value;
      assert s[i..i + 4] == s[i..i + 5][..4];
      assert OccursAt(s, " bag", i);
    }
  }

  /** A run of digits, a space and then text that does not start with white
      space: the count is the digit run and the text is what follows. */
  lemma CountLayout(digits: string, t: string)
    requires |digits| > 0 && AllDigits(digits)
    requires |t| > 0 && !IsMultispace(t[0])
    ensures var s := digits + (" " + t);
      && !StartsWith(s, "no other bags")
      && DigitRun(s) == |digits|
      && s[..|digits|] == digits
      && SkipSpace(s[|digits|..]) == t
  {
    var s := digits + (" " + t);
    assert s[0] == digits[0];
    assert IsDigit(s[0]);
    NotNoOtherBags(s);
    DigitsAreByteDigits(digits);
    DigitRunOf(digits, " " + t);
    assert s[|digits|..] == " " + t;
    SkipSpaceAfterSpace(t);
  }

  lemma NotNoOtherBags(s: string)
    requires |s| > 0 && s[0] != 'n'
    ensures !StartsWith(s, "no other bags")
  {
    if |s| >= 13 {
      assert s[..13][0] == s[0];
    }
  }

  /** The count of a written item is its digits, read back as the count,
      and the colour follows the space after them. */
  lemma ShownCount(x: (nat, string), after: string)
    requires Colour(x.1)
    ensures var digits := ShowNat(x.0);
      var s := ShowItem(x) + after;
      && !StartsWith(s, "no other bags")
      && 0 < |digits| == DigitRun(s)
      && SkipSpace(s[|digits|..]) == x.1 + " bag" + ((if x.0 == 1 then "" else "s") + after)
      && ParseNat(s[..|digits|]) == Some(x.0)
  {
    var digits := ShowNat(x.0);
    var suffix := if x.0 == 1 then "" else "s";
    var t := x.1 + " bag" + (suffix + after);
    assert ShowItem(x) + after == digits + (" " + t);
    CountLayout(digits, t);
    ParseNatOfShowNat(x.0);
  }

  /** The colour of a written item and what follows it. */
  lemma ShownColour(name: string, rest: string)
    requires Colour(name)
    ensures var t := name + " bag" + rest;
      && Find(t, " bag") == Some(|name|)
      && t[..|name|] == name
      && t[|name| + 4..] == rest
  {
    var t := name + " bag" + rest;
    assert t == name + (" bag" + rest);
    FindAtJoin(name, " bag" + rest, " bag");
  }

  /** `parse_contain` on a count of `n` digits whose text after the white
      space has ` bag` at `i`. */
  lemma ParseContainAt(s: string, n: nat, t: string, i: nat, v: nat)
    requires !StartsWith(s, "no other bags") && 0 < n == DigitRun(s)
    requires SkipSpace(s[n..]) == t && Find(t, " bag") == Some(i)
    requires ParseNat(s[..n]) == Some(v) && v <= U32Max
    ensures ParseContain(s) == Parsed(Some((v, t[..i])), SkipTag(SkipTag(t[i + 4..], "s"), ", "))
  {
  }

  /** The optional plural `s` is taken and nothing else. */
  lemma SkipPlural(count: nat, after: string)
    requires |after| > 0 && after[0] in {',', '.'}
    ensures SkipTag((if count == 1 then "" else "s") + after, "s") == after
  {
    if count == 1 {
      assert "" + after == after;
      assert after[..1] != "s";
    } else {
      assert ("s" + after)[1..] == after;
    }
  }

  /** A written item is read back, with its separator `, ` consumed. */
  lemma ParseShownItem(x: (nat, string), after: string)
    requires x.0 <= U32Max && Colour(x.1)
    requires |after| > 0 && after[0] in {',', '.'}
    ensures ParseContain(ShowItem(x) + after) == Parsed(Some(x), SkipTag(after, ", "))
  {
    var suffix := if x.0 == 1 then "" else "s";
    var s := ShowItem(x) + after;
    var t := x.1 + " bag" + (suffix + after);
    ShownCount(x, after);
    ShownColour(x.1, suffix + after);
    ParseContainAt(s, |ShowNat(x.0)|, t, |x.1|, x.0);
    SkipPlural(x.0, after);
  }

  /** One step of `many1(parse_contain)`. */
  lemma ManyContainStep(s: string, item: Option<(nat, string)>, rest: string,
                        items: seq<Option<(nat, string)>>, r: string)
    requires ParseContain(s) == Parsed(item, rest) && ManyContain(rest) == Parsed(items, r)
    ensures ManyContain(s) == Parsed([item] + items, r)
  {
  }

  /** The items of a written rule, ending before `.`, are read back in order. */
  lemma {:induction false} ManyShownItems(xs: seq<(nat, string)>, tail: string)
    requires |xs| > 0
    requires forall j :: 0 <= j < |xs| ==> xs[j].0 <= U32Max && Colour(xs[j].1)
    ensures ManyContain(ShowItems(xs) + ("." + tail)) == Parsed(SomeAll(xs), "." + tail)
  {
    var after := "." + tail;
    if |xs| == 1 {
      ParseShownItem(xs[0], after);
      assert after[..1] != ", "[..1];
      NothingAfterItems(tail);
      ManyContainStep(ShowItem(xs[0]) + after, Some(xs[0]), after, [], after);
      assert SomeAll(xs) == [Some(xs[0])] + [];
    } else {
      var more := ShowItems(xs[1..]) + after;
      assert ShowItems(xs) + after == ShowItem(xs[0]) + (", " + more);
      ParseShownItem(xs[0], ", " + more);
      assert (", " + more)[2..] == more;
      ManyShownItems(xs[1..], tail);
      ManyContainStep(ShowItem(xs[0]) + (", " + more), Some(xs[0]), more, SomeAll(xs[1..]), after);
    }
  }

  function SomeAll(xs: seq<(nat, string)>): (r: seq<Option<(nat, string)>>)
    ensures |r| == |xs| && Flatten(r) == xs
  {
    if |xs| == 0 then [] else [Some(xs[0])] + SomeAll(xs[1..])
  }

  lemma NothingAfterItems(tail: string)
    ensures ManyContain("." + tail) == Parsed([], "." + tail)
  {
    var s := "." + tail;
    assert s[0] == '.';
    assert !StartsWith(s, "no other bags") by {
      if |s| >= 13 { assert s[..13][0] == '.'; }
    }
    assert ((s[0] as int) % 256) as char == '.';
    assert DigitRun(s) == 0;
  }

  /** `bag_constraint` on text with ` bags contain ` at `i`. */
  lemma BagConstraintAt(s: string, i: nat, items: seq<Option<(nat, string)>>, rest: string)
    requires Find(s, " bags") == Some(i) && StartsWith(s[i..], " bags contain ")
    requires ManyContain(s[i + 14..]) == Parsed(items, rest) && |items| > 0
    ensures BagConstraint(s) == Parsed(Constraint(s[..i], Flatten(items)), SkipTag(rest, ".\n"))
  {
  }

  lemma NoOtherBags(after: string)
    ensures ParseContain("no other bags" + after) == Parsed(None, after)
  {
    assert ("no other bags" + after)[..13] == "no other bags";
    assert ("no other bags" + after)[13..] == after;
  }

  /** What `many1(parse_contain)` yields for written items: the pairs, or
      the one empty item of `no other bags`. */
  function BodyItems(xs: seq<(nat, string)>): (r: seq<Option<(nat, string)>>)
    ensures |r| > 0 && Flatten(r) == xs
  {
    if |xs| == 0 then [None] else SomeAll(xs)
  }

  /** The items of a written rule, up to its final `.`, are read back. */
  lemma ShownBody(xs: seq<(nat, string)>, tail: string)
    requires forall j :: 0 <= j < |xs| ==> xs[j].0 <= U32Max && Colour(xs[j].1)
    ensures ManyContain(ShowItems(xs) + (".\n" + tail)) == Parsed(BodyItems(xs), ".\n" + tail)
  {
    if |xs| == 0 {
      NoItemsShown(tail);
    } else {
      assert ".\n" + tail == "." + ("\n" + tail);
      ManyShownItems(xs, "\n" + tail);
    }
  }

  lemma NoItemsShown(tail: string)
    ensures ManyContain("no other bags" + (".\n" + tail)) == Parsed([None], ".\n" + tail)
  {
    var after := ".\n" + tail;
    assert after == "." + ("\n" + tail);
    NoOtherBags(after);
    NothingAfterItems("\n" + tail);
    ManyContainStep("no other bags" + after, None, after, [], after);
    var none: seq<Option<(nat, string)>> := [None];
    assert none + [] == none;
  }

  /** A written rule is read back, with its `.` and line break consumed. */
  lemma ParseShownConstraint(c: Constraint, tail: string)
    requires Writable(c)
    ensures BagConstraint(ShowConstraint(c) + tail) == Parsed(c, tail)
  {
    var body := ShowItems(c.contains) + (".\n" + tail);
    assert ShowConstraint(c) + tail == c.source + (" bags contain " + body);
    ShownBody(c.contains, tail);
    RuleRead(c.source, body, BodyItems(c.contains), tail);
  }

  /** A colour, ` bags contain ` and a body whose items end before `.` and
      a line break are read as the rule. */
  lemma RuleRead(source: string, body: string, items: seq<Option<(nat, string)>>, tail: string)
    requires !Contains(source, " bag")
    requires ManyContain(body) == Parsed(items, ".\n" + tail) && |items| > 0
    ensures BagConstraint(source + (" bags contain " + body)) == Parsed(Constraint(source, Flatten(items)), tail)
  {
    var s := source + (" bags contain " + body);
    ConstraintLayout(source, body);
    BagConstraintAt(s, |source|, items, ".\n" + tail);
    assert (".\n" + tail)[2..] == tail;
  }

  /** Where the pieces of a written rule sit. */
  lemma ConstraintLayout(source: string, body: string)
    requires !Contains(source, " bag")
    ensures var s := source + (" bags contain " + body);
      var i := |source|;
      && Find(s, " bags") == Some(i) && StartsWith(s[i..], " bags contain ")
      && s[..i] == source && s[i + 14..] == body
  {
    var s := source + (" bags contain " + body);
    var i := |source|;
    NoBagNoBags(source);
    FindAtJoin(source, " bags contain " + body, " bags");
    assert s[i..] == " bags contain " + body;
  }

  /** Round trip: the rules written one per line are read back in order. */
  lemma {:induction false} ManyShownConstraints(cs: seq<Constraint>)
    requires forall i :: 0 <= i < |cs| ==> Writable(cs[i])
    ensures ManyConstraints(ShowRules(cs)) == Parsed(cs, "")
  {
    if |cs| == 0 {
      NoConstraints();
    } else {
      ManyShownConstraints(cs[1..]);
      assert ShowRules(cs) == ShowConstraint(cs[0]) + ShowRules(cs[1..]);
      ManyConstraintsShownCons(cs[0], ShowRules(cs[1..]), cs[1..]);
      assert cs == [cs[0]] + cs[1..];
    }
  }

  lemma NoConstraints()
    ensures ManyConstraints("") == Parsed([], "")
  {
    assert !OccursAt("", " bags", 0);
    assert BagConstraint("") == NoMatch;
  }

  /** A written rule in front of text that parses to rules is read as the
      first of them. */
  lemma ManyConstraintsShownCons(c: Constraint, rest: string, cs: seq<Constraint>)
    requires Writable(c) && ManyConstraints(rest) == Parsed(cs, "")
    ensures ManyConstraints(ShowConstraint(c) + rest) == Parsed([c] + cs, "")
  {
    ParseShownConstraint(c, rest);
  }

  /** `generator` on written rules gives their map. */
  lemma GeneratorOfShown(cs: seq<Constraint>)
    requires |cs| > 0 && forall i :: 0 <= i < |cs| ==> Writable(cs[i])
    ensures Generator(ShowRules(cs)) == Some(Collect(cs))
  {
    ManyShownConstraints(cs);
  }

  /* ---------------------------------------------------------------- counting inside (part two) */

  /** A ranking of the colours the work queue can reach: shiny gold, when
      it has a rule, and every colour with a rule that a ranked rule names
      with a positive count. Each such colour ranks below the rule naming
      it. A ranking exists exactly when no cycle is reachable that way,
      which is when the queue empties; colours reached only through a count
      of 0 are never queued and need no rank. */
  ghost predicate Ranked(m: Rules, rank: map<string, nat>)
  {
    && (ShinyGold in m ==> ShinyGold in rank)
    && forall k :: k in rank ==>
      && k in m
      && forall j :: 0 <= j < |m[k]| && m[k][j].0 > 0 && m[k][j].1 in m ==>
        m[k][j].1 in rank && rank[m[k][j].1] < rank[k]
  }

  /** The number of bags inside one bag of ranked colour `b`. */
  ghost function Inner(m: Rules, rank: map<string, nat>, b: string): nat
    requires Ranked(m, rank) && b in rank
    decreases rank[b], 1
  {
    Load(m, rank, m[b], rank[b])
  }

  /** The bags in `kids`: each `(n, c)` is `n` bags of colour `c`, plus
      what they hold; a colour without a rule holds nothing. */
  ghost function Load(m: Rules, rank: map<string, nat>, kids: seq<(nat, string)>, bound: nat): nat
    requires Ranked(m, rank) && KidsBelow(m, rank, kids, bound)
    decreases bound, 0, |kids|
  {
    if |kids| == 0 then 0
    else
      var (n, c) := kids[0];
      assert KidsBelow(m, rank, kids[1..], bound) by {
        assert forall j :: 0 <= j < |kids[1..]| ==> kids[1..][j] == kids[j + 1];
      }
      n * (1 + (if n > 0 && c in m then Inner(m, rank, c) else 0)) + Load(m, rank, kids[1..], bound)
  }

  /** The bags inside one bag of colour `b`, for a colour the queue can
      hold. */
  ghost function Weight(m: Rules, rank: map<string, nat>, b: string): nat
    requires Ranked(m, rank)
  {
    if b in rank then Inner(m, rank, b) else 0
  }

  /** Every queued colour that has a rule is ranked. */
  ghost predicate Live(m: Rules, rank: map<string, nat>, q: seq<string>)
  {
    forall i :: 0 <= i < |q| && q[i] in m ==> q[i] in rank
  }

  /** The bags inside all the bags of a queue. */
  ghost function Pending(m: Rules, rank: map<string, nat>, q: seq<string>): nat
    requires Ranked(m, rank)
  {
    if |q| == 0 then 0 else Weight(m, rank, q[0]) + Pending(m, rank, q[1..])
  }

  lemma {:induction false} PendingAppend(m: Rules, rank: map<string, nat>, q: seq<string>, b: string)
    requires Ranked(m, rank)
    ensures Pending(m, rank, q + [b]) == Pending(m, rank, q) + Weight(m, rank, b)
  {
    if |q| > 0 {
      assert (q + [b])[1..] == q[1..] + [b];
      PendingAppend(m, rank, q[1..], b);
    }
  }

  /** Splitting a rule's children into the ones already queued and the rest. */
  lemma LoadStep(m: Rules, rank: map<string, nat>, kids: seq<(nat, string)>, bound: nat, k: nat)
    requires Ranked(m, rank) && k < |kids|
    requires KidsBelow(m, rank, kids[k..], bound) && KidsBelow(m, rank, kids[k + 1..], bound)
    ensures Load(m, rank, kids[k..], bound) ==
      kids[k].0 * (1 + Weight(m, rank, kids[k].1)) + Load(m, rank, kids[k + 1..], bound)
  {
    assert kids[k..][1..] == kids[k + 1..];
    assert kids[k..][0] == kids[k];
  }

  /** `solve_part2`: pop a colour, add its counts to the `u32` sum, and
      queue `n` copies of each child, until the queue is empty. The sum is
      the number of bags inside the shiny gold bag; `None` where adding to
      the sum overflows `u32`, which a debug build traps. */
  method SolvePart2(m: Rules, ghost rank: map<string, nat>) returns (r: Option<nat>)
    requires Ranked(m, rank)
    ensures Weight(m, rank, ShinyGold) <= U32Max <==> r.Some?
    ensures r.Some? ==> r.value == Weight(m, rank, ShinyGold)
  {
    var queue := [ShinyGold];
    var sum := 0;
    assert Pending(m, rank, queue) == Weight(m, rank, ShinyGold);
    while |queue| > 0
      invariant Live(m, rank, queue) && sum <= U32Max
      invariant sum + Pending(m, rank, queue) == Weight(m, rank, ShinyGold)
      decreases Pending(m, rank, queue) + |queue|
    {
      var next := queue[0];
      queue := queue[1..];
      var added;
      added, queue := Unpack(m, rank, next, queue);
      if sum + added > U32Max {
        return None;
      }
      sum := sum + added;
    }
    return Some(sum);
  }

  /** The body of the `solve_part2` loop for the popped colour `next`: for
      each `(n, child)` of its rule, count `n` and queue `n` copies of `child`. */
  method Unpack(m: Rules, ghost rank: map<string, nat>, next: string, queue: seq<string>)
    returns (added: nat, queue': seq<string>)
    requires Ranked(m, rank) && Live(m, rank, queue) && (next in m ==> next in rank)
    ensures Live(m, rank, queue')
    ensures |queue'| == |queue| + added
    ensures added + Pending(m, rank, queue') == Pending(m, rank, queue) + Weight(m, rank, next)
  {
    added, queue' := 0, queue;
    if next in m {
      var children := m[next];
      ChildrenBelow(m, rank, next, 0);
      assert children[0..] == children;
      for k := 0 to |children|
        invariant Live(m, rank, queue')
        invariant |queue'| == |queue| + added
        invariant KidsBelow(m, rank, children[k..], rank[next])
        invariant added + Pending(m, rank, queue') + Load(m, rank, children[k..], rank[next])
          == Pending(m, rank, queue) + Weight(m, rank, next)
      {
        var (num, child) := children[k];
        ChildrenBelow(m, rank, next, k + 1);
        LoadStep(m, rank, children, rank[next], k);
        ghost var w := Weight(m, rank, child);
        assert num * (1 + w) == num + num * w;
        added := added + num;
        queue' := PushCopies(m, rank, queue', child, num);
      }
      assert children[|children|..] == [];
    }
  }

  /** Every colour with a rule that `kids` names with a positive count is
      ranked below `bound`. */
  ghost predicate KidsBelow(m: Rules, rank: map<string, nat>, kids: seq<(nat, string)>, bound: nat)
  {
    forall j :: 0 <= j < |kids| && kids[j].0 > 0 && kids[j].1 in m ==>
      kids[j].1 in rank && rank[kids[j].1] < bound
  }

  /** The children of a ranked rule, from any index on, rank below their
      parent. */
  lemma ChildrenBelow(m: Rules, rank: map<string, nat>, b: string, k: nat)
    requires Ranked(m, rank) && b in rank && k <= |m[b]|
    ensures KidsBelow(m, rank, m[b][k..], rank[b])
  {
    forall j | 0 <= j < |m[b][k..]| && m[b][k..][j].0 > 0 && m[b][k..][j].1 in m
      ensures m[b][k..][j].1 in rank && rank[m[b][k..][j].1] < rank[b]
    {
      assert m[b][k..][j] == m[b][k + j];
    }
  }

  /** `for _ in 0..num { queue.push_back(child) }`. */
  method PushCopies(m: Rules, ghost rank: map<string, nat>, queue: seq<string>, child: string, num: nat)
    returns (queue': seq<string>)
    requires Ranked(m, rank) && Live(m, rank, queue)
    requires num > 0 && child in m ==> child in rank
    ensures Live(m, rank, queue')
    ensures |queue'| == |queue| + num
    ensures Pending(m, rank, queue') == Pending(m, rank, queue) + num * Weight(m, rank, child)
  {
    queue' := queue;
    for c := 0 to num
      invariant Live(m, rank, queue')
      invariant |queue'| == |queue| + c
      invariant Pending(m, rank, queue') == Pending(m, rank, queue) + c * Weight(m, rank, child)
    {
      PendingAppend(m, rank, queue', child);
      queue' := queue' + [child];
    }
  }

  /** Rules where shiny gold holds no bag of its own but two other colours
      hold each other: the cycle is reached only through a count of 0, so
      the queue empties and the answer is 0. */
  const CycleRules: Rules := map[
    ShinyGold := [(0, "dark red")], "dark red" := [(1, "dark blue")],
    "dark blue" := [(1, "dark red")]]

  lemma UnreachableCycle()
    ensures Ranked(CycleRules, map[ShinyGold := 0])
    ensures Weight(CycleRules, map[ShinyGold := 0], ShinyGold) == 0
  {
    var m, rank := CycleRules, map[ShinyGold := 0];
    assert rank.Keys == {ShinyGold};
    assert Ranked(m, rank);
    var kids := m[ShinyGold];
    assert kids == [(0, "dark red")] && kids[1..] == [];
    assert Load(m, rank, kids, 0) == 0 * 1 + Load(m, rank, kids[1..], 0);
  }

  /** The sample whose colours form a chain of seven, two of each inside
      the previous one. */
  const ChainRules: Rules := map[
    ShinyGold := [(2, "dark red")], "dark red" := [(2, "dark orange")],
    "dark orange" := [(2, "dark yellow")], "dark yellow" := [(2, "dark green")],
    "dark green" := [(2, "dark blue")], "dark blue" := [(2, "dark violet")],
    "dark violet" := []]

  const ChainRank: map<string, nat> := map[
    ShinyGold := 6, "dark red" := 5, "dark orange" := 4, "dark yellow" := 3,
    "dark green" := 2, "dark blue" := 1, "dark violet" := 0]

  /** 126 bags inside the shiny gold bag. */
  lemma SampleInside()
    ensures Ranked(ChainRules, ChainRank) && Weight(ChainRules, ChainRank, ShinyGold) == 126
  {
    ChainRanked();
    ChainInnerLow();
    ChainInnerHigh();
  }

  lemma ChainRanked()
    ensures Ranked(ChainRules, ChainRank)
  {
  }

  lemma ChainInnerLow()
    ensures Ranked(ChainRules, ChainRank)
    ensures Inner(ChainRules, ChainRank, "dark green") == 6
  {
    ChainRanked();
    var m, rank := ChainRules, ChainRank;
    assert Inner(m, rank, "dark violet") == 0;
    assert Inner(m, rank, "dark blue") == 2;
  }

  lemma ChainInnerHigh()
    ensures Ranked(ChainRules, ChainRank)
    ensures Inner(ChainRules, ChainRank, ShinyGold) == 126
  {
    ChainInnerLow();
    var m, rank := ChainRules, ChainRank;
    assert Inner(m, rank, "dark yellow") == 14;
    assert Inner(m, rank, "dark orange") == 30;
    assert Inner(m, rank, "dark red") == 62;
  }

  /* ---------------------------------------------------------------- holding shiny gold (part one) */

  /** Some rule of `a` names `b` (with any count). */
  ghost predicate Holds(m: Rules, a: string, b: string)
  {
    a in m && exists j :: 0 <= j < |m[a]| && m[a][j].1 == b
  }

  /** A chain of colours each directly containing the next. */
  ghost predicate Chain(m: Rules, p: seq<string>)
  {
    forall i :: 0 <= i < |p| - 1 ==> Holds(m, p[i], p[i + 1])
  }

  /** A bag of colour `a` can hold, at some depth, a bag of colour `b`. */
  ghost predicate Reaches(m: Rules, a: string, b: string)
  {
    exists p :: |p| >= 2 && p[0] == a && p[|p| - 1] == b && Chain(m, p)
  }

  /** The colours with a rule that names some colour in `s`. */
  function Containers(m: Rules, s: set<string>): (r: set<string>)
    ensures r <= m.Keys
  {
    set a | a in m.Keys && exists j :: 0 <= j < |m[a]| && m[a][j].1 in s
  }

  /** Add containers until nothing new appears: the least superset of `s`
      closed under "is contained in". */
  function Grow(m: Rules, s: set<string>): (r: set<string>)
    ensures s <= r
    ensures Containers(m, r) <= r
    decreases |m.Keys - s|
  {
    var t := s + Containers(m, s);
    if t <= s then s
    else
      ProperSubsetSmaller(m.Keys - t, m.Keys - s);
      Grow(m, t)
  }

  /** `solve_part1`: the colours, other than shiny gold, that the search
      from shiny gold along reversed containment edges reaches. */
  function SolvePart1(m: Rules): nat
  {
    |Grow(m, {ShinyGold}) - {ShinyGold}|
  }

  /** What `Grow` adds is reachable... */
  lemma {:induction false} GrowSound(m: Rules, s: set<string>, target: string)
    requires forall x :: x in s ==> x == target || Reaches(m, x, target)
    ensures forall x :: x in Grow(m, s) ==> x == target || Reaches(m, x, target)
    decreases |m.Keys - s|
  {
    var t := s + Containers(m, s);
    if !(t <= s) {
      forall x | x in Containers(m, s)
        ensures Reaches(m, x, target)
      {
        var j :| 0 <= j < |m[x]| && m[x][j].1 in s;
        ReachesThrough(m, x, m[x][j].1, target);
      }
      ProperSubsetSmaller(m.Keys - t, m.Keys - s);
      GrowSound(m, t, target);
    }
  }

  lemma ReachesThrough(m: Rules, a: string, b: string, target: string)
    requires Holds(m, a, b) && (b == target || Reaches(m, b, target))
    ensures Reaches(m, a, target)
  {
    if b == target {
      var p := [a, b];
      assert Chain(m, p);
    } else {
      var p :| |p| >= 2 && p[0] == b && p[|p| - 1] == target && Chain(m, p);
      var q := [a] + p;
      assert Chain(m, q) by {
        forall i | 0 <= i < |q| - 1
          ensures Holds(m, q[i], q[i + 1])
        {
          if i > 0 { assert q[i] == p[i - 1] && q[i + 1] == p[i]; }
        }
      }
      assert q[|q| - 1] == target;
    }
  }

  /** ...and every colour that reaches a member of a closed set is in it. */
  lemma {:induction false} ClosedComplete(m: Rules, r: set<string>, p: seq<string>)
    requires Containers(m, r) <= r
    requires |p| >= 1 && Chain(m, p) && p[|p| - 1] in r
    ensures p[0] in r
    decreases |p|
  {
    if |p| > 1 {
      var tail := p[1..];
      assert Chain(m, tail) by {
        forall i | 0 <= i < |tail| - 1
          ensures Holds(m, tail[i], tail[i + 1])
        {
          assert Holds(m, p[i + 1], p[i + 2]);
        }
      }
      ClosedComplete(m, r, tail);
      assert Holds(m, p[0], p[1]);
      var j :| 0 <= j < |m[p[0]]| && m[p[0]][j].1 == p[1];
      assert p[0] in Containers(m, r);
    }
  }

  /** Part one counts exactly the colours that can hold a shiny gold bag. */
  lemma SolvePart1Counts(m: Rules)
    ensures forall x :: x in Grow(m, {ShinyGold}) - {ShinyGold} <==> x != ShinyGold && Reaches(m, x, ShinyGold)
  {
    GrowSound(m, {ShinyGold}, ShinyGold);
    var r := Grow(m, {ShinyGold});
    forall x | x != ShinyGold && Reaches(m, x, ShinyGold)
      ensures x in r
    {
      var p :| |p| >= 2 && p[0] == x && p[|p| - 1] == ShinyGold && Chain(m, p);
      ClosedComplete(m, r, p);
    }
  }
}
