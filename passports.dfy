/** The passport batch of src/day4.rs: passports are runs of `key:value`
    pairs separated by a space or a line break, and passports are
    separated by a blank line. Part one counts the passports with the seven
    required fields; part two also validates each field's value. */
module Passports {
  import opened Common

  type Pair = (string, string)

  /** `HashMap<String, String>`: the fields of one passport. */
  type Passport = map<string, string>

  /* ---------------------------------------------------------------- hex colours */

  /** `is_digit(16)`. */
  predicate IsHexDigit(c: char)
  {
    '0' <= c <= '9' || 'a' <= c <= 'f' || 'A' <= c <= 'F'
  }

  function HexValue(c: char): (d: nat)
    requires IsHexDigit(c)
    ensures d < 16
  {
    if '0' <= c <= '9' then c as int - '0' as int
    else if 'a' <= c <= 'f' then c as int - 'a' as int + 10
    else c as int - 'A' as int + 10
  }

  /** `hex_primary`: exactly two hex digits, read as one byte. */
  function HexPrimary(s: string): (r: Option<(string, nat)>)
    ensures r.Some? <==> |s| >= 2 && IsHexDigit(s[0]) && IsHexDigit(s[1])
    ensures r.Some? ==> r.value.1 < 256 && r.value.0 == s[2..]
  {
    if |s| >= 2 && IsHexDigit(s[0]) && IsHexDigit(s[1]) then Some((s[2..], 16 * HexValue(s[0]) + HexValue(s[1])))
    else None
  }

  /** `hex_color`: a `#` and three bytes; what follows is left unread. */
  function HexColor(s: string): (r: Option<(string, (nat, nat, nat))>)
  {
    if |s| == 0 || s[0] != '#' then None
    else
      match HexPrimary(s[1..])
      case None => None
      case Some((s1, red)) =>
        match HexPrimary(s1)
        case None => None
        case Some((s2, green)) =>
          match HexPrimary(s2)
          case None => None
          case Some((s3, blue)) => Some((s3, (red, green, blue)))
  }

  /** A colour passes exactly when it starts with `#` and six hex digits. */
  lemma HexColorAccepts(s: string)
    ensures HexColor(s).Some? <==> |s| >= 7 && s[0] == '#' && forall i :: 1 <= i < 7 ==> IsHexDigit(s[i])
    ensures HexColor(s).Some? ==> HexColor(s).value.0 == s[7..]
  {
    if |s| >= 3 && s[0] == '#' && IsHexDigit(s[1]) && IsHexDigit(s[2]) {
      assert s[1..][2..] == s[3..];
      if |s| >= 5 && IsHexDigit(s[3]) && IsHexDigit(s[4]) {
        assert s[3..][2..] == s[5..];
      }
    }
  }

  function HexChar(d: nat): (c: char)
    requires d < 16
    ensures IsHexDigit(c) && HexValue(c) == d
  {
    if d < 10 then ('0' as int + d) as char else ('a' as int + d - 10) as char
  }

  /** A byte as two lower-case hex digits. */
  function ShowByte(b: nat): (s: string)
    requires b < 256
    ensures |s| == 2
  {
    [HexChar(b / 16), HexChar(b % 16)]
  }

  /** Round trip: a colour written as `#rrggbb` is read back. */
  lemma HexColorOfShown(red: nat, green: nat, blue: nat, rest: string)
    requires red < 256 && green < 256 && blue < 256
    ensures HexColor("#" + ShowByte(red) + ShowByte(green) + ShowByte(blue) + rest) == Some((rest, (red, green, blue)))
  {
    var s := "#" + ShowByte(red) + ShowByte(green) + ShowByte(blue) + rest;
    assert s[1..] == ShowByte(red) + (ShowByte(green) + ShowByte(blue) + rest);
    assert s[1..][2..] == ShowByte(green) + (ShowByte(blue) + rest);
    assert s[1..][2..][2..] == ShowByte(blue) + rest;
    assert s[1..][2..][2..][2..] == rest;
  }

  /* ---------------------------------------------------------------- pairs */

  /** What ends a value. */
  predicate IsSeparator(c: char)
  {
    c == ' ' || c == '\n'
  }

  /** `take_till(|x| x == ' ' || x == '\n')`: the length of the longest
      prefix without a separator. */
  function TakeTill(s: string): (n: nat)
    ensures n <= |s| && (n < |s| ==> IsSeparator(s[n]))
    ensures forall i :: 0 <= i < n ==> !IsSeparator(s[i])
  {
    if |s| == 0 || IsSeparator(s[0]) then 0
    else
      var n := 1 + TakeTill(s[1..]);
      assert forall i :: 1 <= i < n ==> s[i] == s[1..][i - 1];
      n
  }

  /** `parse_pair`: not at a line break; the key up to the first `:`; the
      value up to the next separator; at most one separator consumed. */
  function ParsePair(s: string): (r: Option<(string, Pair)>)
    ensures r.Some? ==> |r.value.0| < |s|
  {
    if StartsWith(s, "\n") then None
    else
      match Find(s, ":")
      case None => None
      case Some(i) =>
        var after := s[i + 1..];
        var n := TakeTill(after);
        Some((if n < |after| then after[n + 1..] else after[n..], (s[..i], after[..n])))
  }

  /** What a parsed pair consumed: the key, which holds no `:`, then `:`,
      the value, which holds no separator, then one separator unless the
      input ends there. */
  lemma ParsePairMeaning(s: string)
    requires ParsePair(s).Some?
    ensures var (rest, (key, value)) := ParsePair(s).value;
      var j := |key| + 1 + |value|;
      && !StartsWith(s, "\n") && !Contains(key, ":")
      && (forall i :: 0 <= i < |value| ==> !IsSeparator(value[i]))
      && j <= |s| && s[..|key|] == key && s[|key|] == ':' && s[|key| + 1..j] == value
      && (j == |s| ==> rest == "")
      && (j < |s| ==> IsSeparator(s[j]) && rest == s[j + 1..])
  {
    var i := Find(s, ":").value;
    KeyBeforeColon(s, i);
  }

  lemma KeyBeforeColon(s: string, i: nat)
    requires Find(s, ":") == Some(i)
    ensures !Contains(s[..i], ":") && s[i] == ':'
  {
    var key := s[..i];
    forall j | 0 <= j && j + 1 <= |key|
      ensures key[j] != ':'
    {
      assert !OccursAt(s, ":", j);
      assert s[j..j + 1] == [s[j]];
    }
    FirstCharAbsent(key, ":");
    assert s[i..i + 1] == ":";
  }

  /* ---------------------------------------------------------------- passports */

  /** `many0(parse_pair)`: the pairs read one after the other, and what is
      left when the next one fails. */
  function ManyPairs(s: string): (r: (string, seq<Pair>))
    ensures |r.0| <= |s| && (|r.1| > 0 ==> |r.0| < |s|)
    decreases |s|
  {
    match ParsePair(s)
    case None => (s, [])
    case Some((rest, p)) =>
      var (left, ps) := ManyPairs(rest);
      (left, [p] + ps)
  }

  /** `pairs.into_iter().collect()`: inserted in order, so a later pair
      replaces an earlier one with the same key. */
  function Collect(pairs: seq<Pair>): Passport
  {
    if |pairs| == 0 then map[]
    else
      var last := pairs[|pairs| - 1];
      Collect(pairs[..|pairs| - 1])[last.0 := last.1]
  }

  /** The passport holds exactly the keys of the pairs, each with the value
      of its last pair. */
  lemma {:induction false} CollectMeaning(pairs: seq<Pair>, k: string)
    ensures k in Collect(pairs) <==> exists i :: 0 <= i < |pairs| && pairs[i].0 == k
    ensures k in Collect(pairs) ==>
      exists i :: (0 <= i < |pairs| && pairs[i] == (k, Collect(pairs)[k]) &&
                   forall j :: i < j < |pairs| ==> pairs[j].0 != k)
  {
    if |pairs| > 0 {
      var init := pairs[..|pairs| - 1];
      CollectMeaning(init, k);
      assert forall i :: 0 <= i < |init| ==> init[i] == pairs[i];
      if pairs[|pairs| - 1].0 != k && k in Collect(pairs) {
        var i :| 0 <= i < |init| && init[i] == (k, Collect(init)[k]) &&
                 forall j :: i < j < |init| ==> init[j].0 != k;
        assert pairs[i] == (k, Collect(pairs)[k]);
      }
    }
  }

  /** `parse_passport`: one or more pairs, then an optional line break. */
  function ParsePassport(s: string): (r: Option<(string, Passport)>)
    ensures r.Some? ==> |r.value.0| < |s|
  {
    var (rest, pairs) := ManyPairs(s);
    if |pairs| == 0 then None
    else Some((if StartsWith(rest, "\n") then rest[1..] else rest, Collect(pairs)))
  }

  /** `generator`: `many0(parse_passport)`; the text after the last passport
      that parses is ignored, so the `unwrap` never panics. */
  function Generator(input: string): seq<Passport>
    decreases |input|
  {
    match ParsePassport(input)
    case None => []
    case Some((rest, p)) => [p] + Generator(rest)
  }

  /* ---------------------------------------------------------------- written form */

  /** A pair that can be written: a key without `:` or line break, a value
      without separators, followed by one separator. */
  predicate WritablePair(p: (Pair, char))
  {
    && (forall i :: 0 <= i < |p.0.0| ==> p.0.0[i] != ':' && p.0.0[i] != '\n')
    && (forall i :: 0 <= i < |p.0.1| ==> !IsSeparator(p.0.1[i]))
    && IsSeparator(p.1)
  }

  function ShowPair(p: (Pair, char)): string
  {
    p.0.0 + ":" + p.0.1 + [p.1]
  }

  /** A passport as written: every pair followed by its separator. */
  function ShowPairs(ps: seq<(Pair, char)>): string
  {
    if |ps| == 0 then "" else ShowPair(ps[0]) + ShowPairs(ps[1..])
  }

  function PairsOf(ps: seq<(Pair, char)>): (r: seq<Pair>)
    ensures |r| == |ps| && forall i :: 0 <= i < |ps| ==> r[i] == ps[i].0
  {
    if |ps| == 0 then [] else [ps[0].0] + PairsOf(ps[1..])
  }

  /** A batch as written: passports separated by one more line break. */
  function ShowBatch(batch: seq<seq<(Pair, char)>>): string
  {
    if |batch| == 0 then ""
    else if |batch| == 1 then ShowPairs(batch[0])
    else ShowPairs(batch[0]) + "\n" + ShowBatch(batch[1..])
  }

  predicate WritableBatch(batch: seq<seq<(Pair, char)>>)
  {
    forall k :: 0 <= k < |batch| ==> |batch[k]| > 0 && forall i :: 0 <= i < |batch[k]| ==> WritablePair(batch[k][i])
  }

  lemma {:induction false} TakeTillShown(value: string, c: char, rest: string)
    requires forall i :: 0 <= i < |value| ==> !IsSeparator(value[i])
    requires IsSeparator(c)
    ensures TakeTill(value + [c] + rest) == |value|
  {
    if |value| > 0 {
      assert (value + [c] + rest)[1..] == value[1..] + [c] + rest;
      TakeTillShown(value[1..], c, rest);
    }
  }

  /** Round trip of one pair. */
  lemma ParsePairShown(p: (Pair, char), rest: string)
    requires WritablePair(p)
    ensures ParsePair(ShowPair(p) + rest) == Some((rest, p.0))
  {
    var (key, value) := p.0;
    var s := ShowPair(p) + rest;
    PairLayout(p, rest);
    var after := s[|key| + 1..];
    TakeTillShown(value, p.1, rest);
    var n := TakeTill(after);
    assert n == |value| < |after|;
    assert after[..n] == value;
    assert after[n + 1..] == rest;
  }

  /** Where the key ends in a written pair. */
  lemma PairLayout(p: (Pair, char), rest: string)
    requires WritablePair(p)
    ensures var s := ShowPair(p) + rest;
      && Find(s, ":") == Some(|p.0.0|) && !StartsWith(s, "\n")
      && s[..|p.0.0|] == p.0.0 && s[|p.0.0| + 1..] == p.0.1 + [p.1] + rest
  {
    var (key, value) := p.0;
    var s := ShowPair(p) + rest;
    var after := ":" + (value + [p.1] + rest);
    assert s == key + after;
    NoCharNoMatch(key, ':');
    FindAtJoin(key, after, ":");
    if |key| > 0 {
      assert s[0] == key[0];
    } else {
      assert s[0] == ':';
    }
  }

  lemma {:induction false} ManyPairsShown(ps: seq<(Pair, char)>, rest: string)
    requires forall i :: 0 <= i < |ps| ==> WritablePair(ps[i])
    requires ParsePair(rest).None?
    ensures ManyPairs(ShowPairs(ps) + rest) == (rest, PairsOf(ps))
  {
    if |ps| == 0 {
      assert ShowPairs(ps) + rest == rest;
    } else {
      var tail := ShowPairs(ps[1..]) + rest;
      assert ShowPairs(ps) + rest == ShowPair(ps[0]) + tail;
      ParsePairShown(ps[0], tail);
      ManyPairsShown(ps[1..], rest);
    }
  }

  lemma ParsePassportShown(ps: seq<(Pair, char)>, rest: string)
    requires |ps| > 0 && forall i :: 0 <= i < |ps| ==> WritablePair(ps[i])
    requires rest == "" || (|rest| > 0 && rest[0] == '\n')
    ensures ParsePassport(ShowPairs(ps) + rest) == Some((if rest == "" then "" else rest[1..], Collect(PairsOf(ps))))
  {
    if rest == "" {
      NoPairInEmpty();
    } else {
      assert StartsWith(rest, "\n");
    }
    ManyPairsShown(ps, rest);
    assert StartsWith(rest, "\n") <==> rest != "";
  }

  lemma NoPairInEmpty()
    ensures ParsePair("").None?
  {
    assert !OccursAt("", ":", 0);
  }

  /** The passports a written batch holds. */
  function Passports(batch: seq<seq<(Pair, char)>>): (r: seq<Passport>)
    ensures |r| == |batch| && forall k :: 0 <= k < |batch| ==> r[k] == Collect(PairsOf(batch[k]))
  {
    if |batch| == 0 then [] else [Collect(PairsOf(batch[0]))] + Passports(batch[1..])
  }

  /** Round trip: a written batch is read back as the passports of its
      pairs. */
  lemma {:induction false} GeneratorOfShown(batch: seq<seq<(Pair, char)>>)
    requires WritableBatch(batch)
    ensures Generator(ShowBatch(batch)) == Passports(batch)
  {
    if |batch| == 0 {
      GeneratorOfEmpty();
    } else {
      var first := batch[0];
      assert |first| > 0 && forall i :: 0 <= i < |first| ==> WritablePair(first[i]);
      if |batch| == 1 {
        GeneratorShownLast(first);
      } else {
        var more := ShowBatch(batch[1..]);
        WritableTail(batch);
        GeneratorOfShown(batch[1..]);
        assert ShowBatch(batch) == ShowPairs(first) + ("\n" + more);
        GeneratorShownCons(first, more, Passports(batch[1..]));
      }
    }
  }

  /** The last passport of a written batch. */
  lemma GeneratorShownLast(ps: seq<(Pair, char)>)
    requires |ps| > 0 && forall i :: 0 <= i < |ps| ==> WritablePair(ps[i])
    ensures Generator(ShowPairs(ps)) == [Collect(PairsOf(ps))]
  {
    ParsePassportShown(ps, "");
    assert ShowPairs(ps) + "" == ShowPairs(ps);
    GeneratorOfEmpty();
    GeneratorCons(ShowPairs(ps), Collect(PairsOf(ps)), "");
  }

  /** A written passport ahead of a blank line and the rest of the batch. */
  lemma GeneratorShownCons(ps: seq<(Pair, char)>, more: string, tail: seq<Passport>)
    requires |ps| > 0 && forall i :: 0 <= i < |ps| ==> WritablePair(ps[i])
    requires Generator(more) == tail
    ensures Generator(ShowPairs(ps) + ("\n" + more)) == [Collect(PairsOf(ps))] + tail
  {
    ParsePassportShown(ps, "\n" + more);
    assert ("\n" + more)[1..] == more;
    GeneratorCons(ShowPairs(ps) + ("\n" + more), Collect(PairsOf(ps)), more);
  }

  lemma WritableTail(batch: seq<seq<(Pair, char)>>)
    requires |batch| >= 1 && WritableBatch(batch)
    ensures WritableBatch(batch[1..])
  {
    assert forall k :: 1 <= k < |batch| ==> batch[1..][k - 1] == batch[k];
  }

  lemma GeneratorOfEmpty()
    ensures Generator("") == []
  {
    NoPairInEmpty();
  }

  lemma GeneratorCons(s: string, p: Passport, rest: string)
    requires ParsePassport(s) == Some((rest, p))
    ensures Generator(s) == [p] + Generator(rest)
  {
  }

  /* ---------------------------------------------------------------- part one */

  /** The seven required fields are present; `cid` is not needed. */
  predicate Complete(p: Passport)
  {
    "byr" in p && "iyr" in p && "eyr" in p && "hgt" in p && "hcl" in p && "ecl" in p && "pid" in p
  }

  /** `solve_part1`. */
  function SolvePart1(ps: seq<Passport>): (r: nat)
    ensures r <= |ps|
  {
    if |ps| == 0 then 0 else (if Complete(ps[0]) then 1 else 0) + SolvePart1(ps[1..])
  }

  /** `cid` makes no difference to part one. */
  lemma CidOptional(p: Passport, v: string)
    ensures Complete(p["cid" := v]) == Complete(p) == Complete(p - {"cid"})
  {
  }

  /* ---------------------------------------------------------------- part two */

  /** `(lo..=hi).contains(&v.parse::<i32>().unwrap())`, `None` where the
      `unwrap` panics. */
  function YearIn(v: string, lo: int, hi: int): (r: Option<bool>)
    ensures r.None? <==> ParseI32(v).None?
    ensures r == Some(true) <==> ParseI32(v).Some? && lo <= ParseI32(v).value <= hi
  {
    match ParseI32(v)
    case None => None
    case Some(y) => Some(lo <= y <= hi)
  }

  predicate EndsWith(s: string, suffix: string)
  {
    |suffix| <= |s| && s[|s| - |suffix|..] == suffix
  }

  /** `trim_end_matches`: removes the suffix as often as it repeats. */
  function TrimEnd(s: string, suffix: string): (r: string)
    requires |suffix| > 0
    ensures |r| <= |s| && !EndsWith(r, suffix) && s[..|r|] == r
    decreases |s|
  {
    if EndsWith(s, suffix) then
      var r := TrimEnd(s[..|s| - |suffix|], suffix);
      assert s[..|s| - |suffix|][..|r|] == s[..|r|];
      r
    else s
  }

  function Repeat(s: string, n: nat): string
  {
    if n == 0 then "" else s + Repeat(s, n - 1)
  }

  /** What `trim_end_matches` removed is a number of copies of the suffix. */
  lemma {:induction false} TrimEndMeaning(s: string, suffix: string)
    requires |suffix| > 0
    ensures exists n: nat :: s == TrimEnd(s, suffix) + Repeat(suffix, n)
    decreases |s|
  {
    if EndsWith(s, suffix) {
      var init := s[..|s| - |suffix|];
      TrimEndMeaning(init, suffix);
      var n: nat :| init == TrimEnd(init, suffix) + Repeat(suffix, n);
      var t := TrimEnd(init, suffix);
      assert TrimEnd(s, suffix) == t;
      RepeatSnoc(suffix, n);
      assert s == init + suffix;
      assert s == t + (Repeat(suffix, n) + suffix);
    } else {
      assert s == TrimEnd(s, suffix) + Repeat(suffix, 0);
    }
  }

  lemma {:induction false} RepeatSnoc(s: string, n: nat)
    ensures Repeat(s, n + 1) == Repeat(s, n) + s
  {
    if n > 0 {
      RepeatSnoc(s, n - 1);
    }
  }

  /** The height rule: 150 to 193 with `cm`, 59 to 76 with `in`, anything
      else fails; `None` where the number does not parse. */
  function HeightValid(h: string): (r: Option<bool>)
    ensures !EndsWith(h, "cm") && !EndsWith(h, "in") ==> r == Some(false)
    ensures EndsWith(h, "cm") ==> r == YearIn(TrimEnd(h, "cm"), 150, 193)
    ensures !EndsWith(h, "cm") && EndsWith(h, "in") ==> r == YearIn(TrimEnd(h, "in"), 59, 76)
  {
    if EndsWith(h, "cm") then YearIn(TrimEnd(h, "cm"), 150, 193)
    else if EndsWith(h, "in") then YearIn(TrimEnd(h, "in"), 59, 76)
    else Some(false)
  }

  predicate EyeColour(e: string)
  {
    e in {"amb", "blu", "brn", "gry", "grn", "hzl", "oth"}
  }

  /** `format!("{:09}", pid)`: a string is padded on the right with spaces
      to width 9 (the `0` flag only affects numbers). */
  function Padded(s: string, width: nat): (r: string)
    ensures |r| == if |s| < width then width else |s|
    ensures r[..|s|] == s && forall i :: |s| <= i < |r| ==> r[i] == ' '
  {
    if |s| < width then s + seq(width - |s|, _ => ' ') else s
  }

  predicate PidValid(pid: string)
  {
    var num := Padded(pid, 9);
    |num| == 9 && AllDigits(num)
  }

  /** The padding never helps: a passport ID passes iff it is nine digits. */
  lemma PidValidMeaning(pid: string)
    ensures PidValid(pid) <==> |pid| == 9 && AllDigits(pid)
  {
    var num := Padded(pid, 9);
    if |pid| < 9 {
      assert !IsDigit(num[8]);
    }
  }

  /** Runs `next` only when `first` passed: the short-circuit of the
      `filter` chain. */
  function AndThen(first: Option<bool>, next: Option<bool>): (r: Option<bool>)
    ensures r == Some(true) <==> first == Some(true) && next == Some(true)
    ensures first != Some(true) ==> r == first
  {
    if first == Some(true) then next else first
  }

  /** The filters of `solve_part2` after the presence check, in order. */
  function Valid(p: Passport): (r: Option<bool>)
    requires Complete(p)
  {
    AndThen(YearIn(p["byr"], 1920, 2002),
    AndThen(YearIn(p["iyr"], 2010, 2020),
    AndThen(YearIn(p["eyr"], 2020, 2030),
    AndThen(HeightValid(p["hgt"]),
            Some(HexColor(p["hcl"]).Some? && EyeColour(p["ecl"]) && PidValid(p["pid"]))))))
  }

  /** What a valid passport is. */
  lemma ValidMeaning(p: Passport)
    requires Complete(p)
    ensures Valid(p) == Some(true) <==>
      && ParseI32(p["byr"]).Some? && 1920 <= ParseI32(p["byr"]).value <= 2002
      && ParseI32(p["iyr"]).Some? && 2010 <= ParseI32(p["iyr"]).value <= 2020
      && ParseI32(p["eyr"]).Some? && 2020 <= ParseI32(p["eyr"]).value <= 2030
      && HeightValid(p["hgt"]) == Some(true)
      && |p["hcl"]| >= 7 && p["hcl"][0] == '#' && (forall i :: 1 <= i < 7 ==> IsHexDigit(p["hcl"][i]))
      && EyeColour(p["ecl"])
      && |p["pid"]| == 9 && AllDigits(p["pid"])
  {
    HexColorAccepts(p["hcl"]);
    PidValidMeaning(p["pid"]);
  }

  /** Where a passport with all fields makes part two panic. */
  predicate Panics(p: Passport)
  {
    Complete(p) && Valid(p).None?
  }

  /** Which passports panic: the first of the four parsing filters whose
      number does not parse, provided every filter before it passed. */
  lemma PanicsMeaning(p: Passport)
    requires Complete(p)
    ensures Panics(p) <==>
      || ParseI32(p["byr"]).None?
      || (InRange(ParseI32(p["byr"]), 1920, 2002) && ParseI32(p["iyr"]).None?)
      || (InRange(ParseI32(p["byr"]), 1920, 2002) && InRange(ParseI32(p["iyr"]), 2010, 2020)
          && ParseI32(p["eyr"]).None?)
      || (InRange(ParseI32(p["byr"]), 1920, 2002) && InRange(ParseI32(p["iyr"]), 2010, 2020)
          && InRange(ParseI32(p["eyr"]), 2020, 2030) && HeightValid(p["hgt"]).None?)
  {
  }

  /** A parsed number in `lo..=hi`. */
  predicate InRange(n: Option<int>, lo: int, hi: int)
  {
    n.Some? && lo <= n.value <= hi
  }

  /** `solve_part2`; `None` where an `unwrap` panics. */
  function SolvePart2(ps: seq<Passport>): (r: Option<nat>)
    ensures r.None? <==> exists k :: 0 <= k < |ps| && Panics(ps[k])
  {
    if |ps| == 0 then Some(0)
    else if Panics(ps[0]) then None
    else
      var rest := SolvePart2(ps[1..]);
      assert forall k :: 1 <= k < |ps| ==> ps[k] == ps[1..][k - 1];
      match rest
      case None => None
      case Some(n) => Some((if Complete(ps[0]) && Valid(ps[0]) == Some(true) then 1 else 0) + n)
  }

  /** Part two never counts more than part one: it filters what part one
      counts. */
  lemma {:induction false} Part2WithinPart1(ps: seq<Passport>)
    requires SolvePart2(ps).Some?
    ensures SolvePart2(ps).value <= SolvePart1(ps)
  {
    if |ps| > 0 {
      Part2WithinPart1(ps[1..]);
    }
  }

  /* ---------------------------------------------------------------- samples */

  lemma ParsePairExamples()
    ensures ParsePair("ecl:gry ") == Some(("", ("ecl", "gry")))
    ensures ParsePair("ecl:gry\n") == Some(("", ("ecl", "gry")))
  {
    ParsePairBefore(' ');
    assert "ecl:gry" + [' '] == "ecl:gry ";
    ParsePairBefore('\n');
    assert "ecl:gry" + ['\n'] == "ecl:gry\n";
  }

  lemma ParsePairBefore(c: char)
    requires IsSeparator(c)
    ensures ParsePair("ecl:gry" + [c]) == Some(("", ("ecl", "gry")))
  {
    ParsePairShown((("ecl", "gry"), c), "");
    assert ShowPair((("ecl", "gry"), c)) + "" == "ecl:gry" + [c];
  }

  const Sample1: seq<(Pair, char)> :=
    [(("ecl", "gry"), ' '), (("pid", "860033327"), ' '), (("eyr", "2020"), ' '), (("hcl", "#fffffd"), '\n'),
     (("byr", "1937"), ' '), (("iyr", "2017"), ' '), (("cid", "147"), ' '), (("hgt", "183cm"), '\n')]
  const Sample2: seq<(Pair, char)> :=
    [(("iyr", "2013"), ' '), (("ecl", "amb"), ' '), (("cid", "350"), ' '), (("eyr", "2023"), ' '), (("pid", "028048884"), '\n'),
     (("hcl", "#cfa07d"), ' '), (("byr", "1929"), '\n')]
  const Sample3: seq<(Pair, char)> :=
    [(("hcl", "#ae17e1"), ' '), (("iyr", "2013"), '\n'), (("eyr", "2024"), '\n'), (("ecl", "brn"), ' '),
     (("pid", "760753108"), ' '), (("byr", "1931"), '\n'), (("hgt", "179cm"), '\n')]
  const Sample4: seq<(Pair, char)> :=
    [(("hcl", "#cfa07d"), ' '), (("eyr", "2025"), ' '), (("pid", "166559648"), '\n'),
     (("iyr", "2011"), ' '), (("ecl", "brn"), ' '), (("hgt", "59in"), '\n')]

  /** The batch of the part one and part two tests, pair by pair with the
      separator written after each. */
  const Sample: seq<seq<(Pair, char)>> := [Sample1, Sample2, Sample3, Sample4]

  /** The pair at `i` gives its key's value when no later pair has that
      key. */
  lemma {:induction false} LastPairWins(pairs: seq<Pair>, i: nat)
    requires i < |pairs| && forall j :: i < j < |pairs| ==> pairs[j].0 != pairs[i].0
    ensures pairs[i].0 in Collect(pairs) && Collect(pairs)[pairs[i].0] == pairs[i].1
  {
    if i < |pairs| - 1 {
      var init := pairs[..|pairs| - 1];
      assert init[i] == pairs[i];
      LastPairWins(init, i);
    }
  }

  const Pairs1: seq<Pair> := [("ecl", "gry"), ("pid", "860033327"), ("eyr", "2020"), ("hcl", "#fffffd"),
                              ("byr", "1937"), ("iyr", "2017"), ("cid", "147"), ("hgt", "183cm")]

  lemma SamplePairs1()
    ensures PairsOf(Sample1) == Pairs1
  {
  }

  /** The seven fields of the first sample passport and what they read. */
  lemma SampleFields1()
    ensures var p := Collect(Pairs1);
      && Complete(p)
      && p["byr"] == "1937" && p["iyr"] == "2017" && p["eyr"] == "2020" && p["hgt"] == "183cm"
      && p["hcl"] == "#fffffd" && p["ecl"] == "gry" && p["pid"] == "860033327"
  {
    var ps := Pairs1;
    LastPairWins(ps, 0);
    LastPairWins(ps, 1);
    LastPairWins(ps, 2);
    LastPairWins(ps, 3);
    LastPairWins(ps, 4);
    LastPairWins(ps, 5);
    LastPairWins(ps, 7);
  }

  const Pairs2: seq<Pair> := [("iyr", "2013"), ("ecl", "amb"), ("cid", "350"), ("eyr", "2023"), ("pid", "028048884"),
                              ("hcl", "#cfa07d"), ("byr", "1929")]
  const Pairs3: seq<Pair> := [("hcl", "#ae17e1"), ("iyr", "2013"), ("eyr", "2024"), ("ecl", "brn"),
                              ("pid", "760753108"), ("byr", "1931"), ("hgt", "179cm")]
  const Pairs4: seq<Pair> := [("hcl", "#cfa07d"), ("eyr", "2025"), ("pid", "166559648"),
                              ("iyr", "2011"), ("ecl", "brn"), ("hgt", "59in")]

  lemma SamplePairs2()
    ensures PairsOf(Sample2) == Pairs2
  {
  }

  lemma SamplePairs3()
    ensures PairsOf(Sample3) == Pairs3
  {
  }

  lemma SamplePairs4()
    ensures PairsOf(Sample4) == Pairs4
  {
  }

  /** The second sample passport has no height. */
  lemma SampleFields2()
    ensures !Complete(Collect(Pairs2))
  {
    CollectMeaning(Pairs2, "hgt");
  }

  lemma SampleFields3()
    ensures var p := Collect(Pairs3);
      && Complete(p)
      && p["byr"] == "1931" && p["iyr"] == "2013" && p["eyr"] == "2024" && p["hgt"] == "179cm"
      && p["hcl"] == "#ae17e1" && p["ecl"] == "brn" && p["pid"] == "760753108"
  {
    var ps := Pairs3;
    LastPairWins(ps, 0);
    LastPairWins(ps, 1);
    LastPairWins(ps, 2);
    LastPairWins(ps, 3);
    LastPairWins(ps, 4);
    LastPairWins(ps, 5);
    LastPairWins(ps, 6);
  }

  /** The fourth sample passport has no birth year. */
  lemma SampleFields4()
    ensures !Complete(Collect(Pairs4))
  {
    CollectMeaning(Pairs4, "byr");
  }

  /** A number written in decimal reads back as an `i32`. */
  lemma ReadsAs(s: string, n: nat)
    requires ShowNat(n) == s && n <= I32Max
    ensures ParseI32(s) == Some(n)
  {
    ParseNatOfShowNat(n);
  }

  /** A height with one unit suffix trims to its number. */
  lemma TrimUnit(number: string, unit: string)
    requires |unit| == 2 && AllDigits(number) && !IsDigit(unit[1])
    ensures TrimEnd(number + unit, unit) == number && EndsWith(number + unit, unit)
  {
    assert (number + unit)[..|number|] == number;
    if |number| >= 2 {
      assert number[|number| - 2..][1] == number[|number| - 1];
    }
  }

  /** A passport whose seven fields pass every filter is valid. */
  lemma ValidWhen(p: Passport)
    requires Complete(p)
    requires YearIn(p["byr"], 1920, 2002) == Some(true) && YearIn(p["iyr"], 2010, 2020) == Some(true)
    requires YearIn(p["eyr"], 2020, 2030) == Some(true) && HeightValid(p["hgt"]) == Some(true)
    requires HexColor(p["hcl"]).Some? && EyeColour(p["ecl"]) && PidValid(p["pid"])
    ensures Valid(p) == Some(true)
  {
  }

  lemma Reads1937()
    ensures ParseI32("1937") == Some(1937)
  {
    assert ShowNat(1937) == "1937";
    ReadsAs("1937", 1937);
  }

  lemma Reads2017()
    ensures ParseI32("2017") == Some(2017)
  {
    assert ShowNat(2017) == "2017";
    ReadsAs("2017", 2017);
  }

  lemma Reads2020()
    ensures ParseI32("2020") == Some(2020)
  {
    assert ShowNat(2020) == "2020";
    ReadsAs("2020", 2020);
  }

  lemma Reads183()
    ensures ParseI32("183") == Some(183)
  {
    assert ShowNat(183) == "183";
    ReadsAs("183", 183);
  }

  lemma Reads1931()
    ensures ParseI32("1931") == Some(1931)
  {
    assert ShowNat(1931) == "1931";
    ReadsAs("1931", 1931);
  }

  lemma Reads2013()
    ensures ParseI32("2013") == Some(2013)
  {
    assert ShowNat(2013) == "2013";
    ReadsAs("2013", 2013);
  }

  lemma Reads2024()
    ensures ParseI32("2024") == Some(2024)
  {
    assert ShowNat(2024) == "2024";
    ReadsAs("2024", 2024);
  }

  lemma Reads179()
    ensures ParseI32("179") == Some(179)
  {
    assert ShowNat(179) == "179";
    ReadsAs("179", 179);
  }

  lemma SampleValid1()
    ensures Complete(Collect(Pairs1)) && Valid(Collect(Pairs1)) == Some(true)
  {
    SampleFields1();
    ValidFields1(Collect(Pairs1));
  }

  /** The fields of the first sample passport pass every filter. */
  lemma ValidFields1(p: Passport)
    requires Complete(p)
    requires p["byr"] == "1937" && p["iyr"] == "2017" && p["eyr"] == "2020" && p["hgt"] == "183cm"
    requires p["hcl"] == "#fffffd" && p["ecl"] == "gry" && p["pid"] == "860033327"
    ensures Valid(p) == Some(true)
  {
    Reads1937();
    Reads2017();
    Reads2020();
    Height183();
    Hex1();
    Pid1();
    ValidWhen(p);
  }

  lemma Height183()
    ensures HeightValid("183cm") == Some(true)
  {
    TrimUnit("183", "cm");
    assert "183" + "cm" == "183cm";
    Reads183();
  }

  lemma Hex1()
    ensures HexColor("#fffffd").Some?
  {
    HexColorAccepts("#fffffd");
  }

  lemma Pid1()
    ensures PidValid("860033327")
  {
    PidValidMeaning("860033327");
  }

  lemma SampleValid3()
    ensures Complete(Collect(Pairs3)) && Valid(Collect(Pairs3)) == Some(true)
  {
    SampleFields3();
    ValidFields3(Collect(Pairs3));
  }

  /** The fields of the third sample passport pass every filter. */
  lemma ValidFields3(p: Passport)
    requires Complete(p)
    requires p["byr"] == "1931" && p["iyr"] == "2013" && p["eyr"] == "2024" && p["hgt"] == "179cm"
    requires p["hcl"] == "#ae17e1" && p["ecl"] == "brn" && p["pid"] == "760753108"
    ensures Valid(p) == Some(true)
  {
    Reads1931();
    Reads2013();
    Reads2024();
    Height179();
    Hex3();
    Pid3();
    ValidWhen(p);
  }

  lemma Height179()
    ensures HeightValid("179cm") == Some(true)
  {
    TrimUnit("179", "cm");
    assert "179" + "cm" == "179cm";
    Reads179();
  }

  lemma Hex3()
    ensures HexColor("#ae17e1").Some?
  {
    HexColorAccepts("#ae17e1");
  }

  lemma Pid3()
    ensures PidValid("760753108")
  {
    PidValidMeaning("760753108");
  }

  /** The shape of the test batch: the first and third passports are
      complete and valid, the second and fourth incomplete. */
  lemma CountShape(a: Passport, b: Passport, c: Passport, d: Passport)
    requires Complete(a) && Valid(a) == Some(true) && !Complete(b)
    requires Complete(c) && Valid(c) == Some(true) && !Complete(d)
    ensures SolvePart1([a, b, c, d]) == 2 && SolvePart2([a, b, c, d]) == Some(2)
  {
    var ps := [a, b, c, d];
    assert ps[1..] == [b, c, d] && ps[1..][1..] == [c, d] && ps[1..][1..][1..] == [d];
    assert [d][1..] == [];
    assert SolvePart1([d]) == 0 && SolvePart2([d]) == Some(0);
    assert SolvePart1([c, d]) == 1 && SolvePart2([c, d]) == Some(1);
    assert SolvePart1([b, c, d]) == 1 && SolvePart2([b, c, d]) == Some(1);
  }

  lemma SamplePassports()
    ensures Passports(Sample) == [Collect(Pairs1), Collect(Pairs2), Collect(Pairs3), Collect(Pairs4)]
  {
    SamplePairs1();
    SamplePairs2();
    SamplePairs3();
    SamplePairs4();
    FourPassports(Sample, Pairs1, Pairs2, Pairs3, Pairs4);
  }

  lemma FourPassports(batch: seq<seq<(Pair, char)>>, a: seq<Pair>, b: seq<Pair>, c: seq<Pair>, d: seq<Pair>)
    requires |batch| == 4
    requires PairsOf(batch[0]) == a && PairsOf(batch[1]) == b && PairsOf(batch[2]) == c && PairsOf(batch[3]) == d
    ensures Passports(batch) == [Collect(a), Collect(b), Collect(c), Collect(d)]
  {
    PassportsOfFour(batch);
  }

  lemma PassportsOfFour(batch: seq<seq<(Pair, char)>>)
    requires |batch| == 4
    ensures Passports(batch) ==
      [Collect(PairsOf(batch[0])), Collect(PairsOf(batch[1])), Collect(PairsOf(batch[2])), Collect(PairsOf(batch[3]))]
  {
  }

  /** The test batch: two passports have every field, and both are valid. */
  lemma SampleCounts()
    ensures SolvePart1(Passports(Sample)) == 2 && SolvePart2(Passports(Sample)) == Some(2)
  {
    SamplePassports();
    SampleFields2();
    SampleFields4();
    SampleValid1();
    SampleValid3();
    CountShape(Collect(Pairs1), Collect(Pairs2), Collect(Pairs3), Collect(Pairs4));
  }


  lemma SampleWritable()
    ensures WritableBatch(Sample)
  {
    SampleWritable1();
    SampleWritable2();
    SampleWritable3();
    SampleWritable4();
  }

  lemma SampleWritable1()
    ensures forall i :: 0 <= i < |Sample1| ==> WritablePair(Sample1[i])
  {
  }

  lemma SampleWritable2()
    ensures forall i :: 0 <= i < |Sample2| ==> WritablePair(Sample2[i])
  {
  }

  lemma SampleWritable3()
    ensures forall i :: 0 <= i < |Sample3| ==> WritablePair(Sample3[i])
  {
  }

  lemma SampleWritable4()
    ensures forall i :: 0 <= i < |Sample4| ==> WritablePair(Sample4[i])
  {
  }

  /** The written test batch is read back and counted: 2 and 2. */
  lemma SampleText()
    ensures Generator(ShowBatch(Sample)) == Passports(Sample)
    ensures SolvePart1(Generator(ShowBatch(Sample))) == 2 && SolvePart2(Generator(ShowBatch(Sample))) == Some(2)
  {
    SampleWritable();
    GeneratorOfShown(Sample);
    SampleCounts();
  }
}
