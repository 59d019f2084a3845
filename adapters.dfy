/** The joltage adapters of src/day10.rs: the adapter ratings become a map
    from each rating to the ratings that may follow it, and part two counts
    the chains from the outlet (0) to the device (the largest rating + 3). */
module Adapters {
  import opened Common

  /** Which ratings may follow which, as `generator` builds it. */
  type Adjacency = map<int, seq<int>>

  /* ---------------------------------------------------------------- generator */

  /** The ratings that may follow the first one of a window: at most 3
      above it, and not equal to it. */
  function Keep(w: seq<int>, first: int): (r: seq<int>)
    ensures |r| <= |w|
  {
    if |w| == 0 then []
    else (if w[0] <= first + 3 && w[0] != first then [w[0]] else []) + Keep(w[1..], first)
  }

  /** `Keep` keeps exactly the entries within 3 above `first`, other than
      `first` itself. */
  lemma {:induction false} KeepMembers(w: seq<int>, first: int)
    ensures forall y :: y in Keep(w, first) <==> y in w && y <= first + 3 && y != first
  {
    if |w| > 0 {
      KeepMembers(w[1..], first);
      assert w == [w[0]] + w[1..];
    }
  }

  /** The `(first, followers)` pair of every window of four. */
  function Windows(nums: seq<int>): (r: seq<(int, seq<int>)>)
    ensures |r| == if |nums| < 4 then 0 else |nums| - 3
    ensures forall i :: 0 <= i < |r| ==> r[i].0 == nums[i]
  {
    if |nums| < 4 then []
    else [(nums[0], Keep(nums[..4], nums[0]))] + Windows(nums[1..])
  }

  /** The followers in window `i` are those kept from `nums[i..i + 4]`. */
  lemma {:induction false} WindowAt(nums: seq<int>, i: nat)
    requires i + 4 <= |nums|
    ensures Windows(nums)[i].1 == Keep(nums[i..i + 4], nums[i])
  {
    if i > 0 {
      WindowAt(nums[1..], i - 1);
      assert nums[1..][i - 1..i + 3] == nums[i..i + 4];
    }
  }

  /** Collect pairs into a map; a later pair for the same key replaces an
      earlier one. */
  function ToMap(ps: seq<(int, seq<int>)>): Adjacency
  {
    if |ps| == 0 then map[]
    else ToMap(ps[..|ps| - 1])[ps[|ps| - 1].0 := ps[|ps| - 1].1]
  }

  /** The keys of the map are the keys of the pairs, and each key holds the
      followers of one of its pairs. */
  lemma {:induction false} ToMapMeaning(ps: seq<(int, seq<int>)>)
    ensures forall k :: k in ToMap(ps) <==> exists i :: 0 <= i < |ps| && ps[i].0 == k
    ensures forall k :: k in ToMap(ps) ==> exists i :: 0 <= i < |ps| && ps[i] == (k, ToMap(ps)[k])
  {
    if |ps| > 0 {
      var init := ps[..|ps| - 1];
      ToMapMeaning(init);
      assert forall i :: 0 <= i < |init| ==> init[i] == ps[i];
    }
  }

  /** The outlet, the sorted ratings, the device, and three zeros of padding
      so that the last real ratings still start a window. */
  function Chain(sorted: seq<int>): (r: seq<int>)
    requires |sorted| > 0
  {
    [0] + sorted + [sorted[|sorted| - 1] + 3, 0, 0, 0]
  }

  /** `generator`; `None` where `nums.last().unwrap()` panics on an input
      with no rating, or where the filter's `x[0] + 3` overflows `usize` on
      the last window, whose first entry is the device (the largest rating
      plus 3). */
  function Generator(input: string): Option<Adjacency>
  {
    Build(Readings(Lines(input)))
  }

  /** What `generator` does once the ratings are read. */
  function Build(nums: seq<int>): Option<Adjacency>
  {
    var sorted := Sort(nums);
    if |sorted| == 0 || sorted[|sorted| - 1] + 6 >= UsizeLimit then None
    else Some(ChainMap(sorted))
  }

  /** The map of the windows of the padded chain. */
  function ChainMap(sorted: seq<int>): Adjacency
    requires |sorted| > 0
  {
    ToMap(Windows(Chain(sorted)))
  }

  /** `generator` panics exactly on ratings that are empty, where
      `last().unwrap()` fails, and where the largest rating plus 6 (the
      device plus 3) overflows. */
  lemma BuildFails(nums: seq<int>)
    ensures Build(nums).None? <==> |nums| == 0 || SeqMax(nums) + 6 >= UsizeLimit
  {
    if |nums| > 0 {
      SortLastIsMax(nums);
    }
  }

  /** The largest ratings that still leave room for the device window. */
  lemma DeviceWindowBound()
    ensures Build([UsizeLimit - 7]).Some? && Build([UsizeLimit - 6]).None?
  {
    assert Sort([UsizeLimit - 7]) == [UsizeLimit - 7];
    assert Sort([UsizeLimit - 6]) == [UsizeLimit - 6];
  }

  /* ---------------------------------------------------------------- path counting */

  /** Every non-zero follower is a larger key: what makes `total_paths`
      terminate. */
  predicate Ascending(m: Adjacency)
  {
    forall k, j :: k in m && 0 <= j < |m[k]| && m[k][j] != 0 ==> k < m[k][j] && m[k][j] in m
  }

  /** The non-zero entries of `ys` are keys above `from`. */
  predicate Above(m: Adjacency, from: int, ys: seq<int>)
  {
    forall j :: 0 <= j < |ys| && ys[j] != 0 ==> from < ys[j] && ys[j] in m
  }

  /** Every key is at most `target`. */
  predicate Below(m: Adjacency, target: int)
  {
    forall k :: k in m ==> k <= target
  }

  /** `total_paths(input, node, target)` without its cache: 1 at the
      target, otherwise the sum over the non-zero followers. */
  function TotalPaths(m: Adjacency, node: int, target: int): nat
    requires Ascending(m) && Below(m, target) && node in m
    decreases target - node, 1
  {
    if node == target then 1 else SumPaths(m, node, m[node], target)
  }

  /** The sum of `total_paths` over the non-zero entries of `ys`, all of
      them followers of `from`. */
  function SumPaths(m: Adjacency, from: int, ys: seq<int>, target: int): nat
    requires Ascending(m) && Below(m, target) && from in m
    requires Above(m, from, ys)
    decreases target - from, 0, |ys|
  {
    if |ys| == 0 then 0
    else (if ys[0] == 0 then 0 else TotalPaths(m, ys[0], target)) + SumPaths(m, from, ys[1..], target)
  }

  /** `solve_part2`: the chains from the smallest key to the largest;
      `None` where `min().unwrap()` panics on an empty map. */
  function SolvePart2(m: Adjacency): (r: Option<nat>)
    requires Ascending(m)
    ensures r.None? <==> m == map[]
  {
    if m == map[] then None
    else
      var lo := SetMin(m.Keys);
      var hi := SetMax(m.Keys);
      Some(TotalPaths(m, lo, hi))
  }

  /* ---------------------------------------------------------------- paths */

  /** A chain from `node` to `target` in which each step goes to a non-zero
      follower listed in the map. */
  ghost predicate IsPath(m: Adjacency, p: seq<int>, node: int, target: int)
  {
    && |p| > 0 && p[0] == node && p[|p| - 1] == target
    && forall i, j :: 0 <= i && j == i + 1 && j < |p| ==> Step(m, p[i], p[j])
  }

  /** `b` is a non-zero follower of the key `a`. */
  predicate Step(m: Adjacency, a: int, b: int)
  {
    a in m && b != 0 && b in m[a]
  }

  /** Every path from `node`, one per choice of follower at each step. */
  function Paths(m: Adjacency, node: int, target: int): seq<seq<int>>
    requires Ascending(m) && Below(m, target) && node in m
    decreases target - node, 1
  {
    if node == target then [[node]] else PathsVia(m, node, m[node], target)
  }

  /** The paths from `from` whose second step is one of the entries of `ys`. */
  function PathsVia(m: Adjacency, from: int, ys: seq<int>, target: int): seq<seq<int>>
    requires Ascending(m) && Below(m, target) && from in m
    requires Above(m, from, ys)
    decreases target - from, 0, |ys|
  {
    if |ys| == 0 then []
    else (if ys[0] == 0 then [] else Prepend(from, Paths(m, ys[0], target))) + PathsVia(m, from, ys[1..], target)
  }

  function Prepend(x: int, ps: seq<seq<int>>): (r: seq<seq<int>>)
    ensures |r| == |ps| && forall i :: 0 <= i < |ps| ==> r[i] == [x] + ps[i]
  {
    seq(|ps|, i requires 0 <= i < |ps| => [x] + ps[i])
  }

  /** The count `total_paths` returns is the number of paths listed. */
  lemma {:induction false} PathsCount(m: Adjacency, node: int, target: int)
    requires Ascending(m) && Below(m, target) && node in m
    ensures |Paths(m, node, target)| == TotalPaths(m, node, target)
    decreases target - node, 1
  {
    if node != target {
      PathsViaCount(m, node, m[node], target);
    }
  }

  lemma {:induction false} PathsViaCount(m: Adjacency, from: int, ys: seq<int>, target: int)
    requires Ascending(m) && Below(m, target) && from in m
    requires Above(m, from, ys)
    ensures |PathsVia(m, from, ys, target)| == SumPaths(m, from, ys, target)
    decreases target - from, 0, |ys|
  {
    if |ys| > 0 {
      if ys[0] != 0 {
        PathsCount(m, ys[0], target);
      }
      PathsViaCount(m, from, ys[1..], target);
    }
  }

  /** Everything listed is a path. */
  lemma {:induction false} PathsSound(m: Adjacency, node: int, target: int)
    requires Ascending(m) && Below(m, target) && node in m
    ensures forall p :: p in Paths(m, node, target) ==> IsPath(m, p, node, target)
    decreases target - node, 1
  {
    if node != target {
      PathsViaSound(m, node, m[node], target);
    }
  }

  lemma {:induction false} PathsViaSound(m: Adjacency, from: int, ys: seq<int>, target: int)
    requires Ascending(m) && Below(m, target) && from in m
    requires Above(m, from, ys)
    requires forall y :: y in ys ==> y in m[from]
    ensures forall p :: p in PathsVia(m, from, ys, target) ==> IsPath(m, p, from, target)
    decreases target - from, 0, |ys|
  {
    if |ys| > 0 {
      var head := if ys[0] == 0 then [] else Prepend(from, Paths(m, ys[0], target));
      if ys[0] != 0 {
        PathsSound(m, ys[0], target);
        forall p | p in head
          ensures IsPath(m, p, from, target)
        {
          var i :| 0 <= i < |head| && head[i] == p;
          var q := Paths(m, ys[0], target)[i];
          assert IsPath(m, q, ys[0], target);
          assert p == [from] + q;
          forall a, b | 0 <= a && b == a + 1 && b < |p|
            ensures Step(m, p[a], p[b])
          {
            if a > 0 {
              assert p[a] == q[a - 1] && p[b] == q[b - 1];
            }
          }
        }
      }
      PathsViaSound(m, from, ys[1..], target);
    }
  }

  /** Every path is listed. */
  lemma {:induction false} PathsComplete(m: Adjacency, node: int, target: int, p: seq<int>)
    requires Ascending(m) && Below(m, target) && node in m
    requires IsPath(m, p, node, target)
    ensures p in Paths(m, node, target)
    decreases target - node, 1
  {
    if node == target {
      if |p| > 1 {
        assert false;
      }
      assert p == [node];
    } else {
      assert |p| > 1;
      var k :| 0 <= k < |m[node]| && m[node][k] == p[1];
      PathsViaComplete(m, node, m[node], target, k, p);
    }
  }

  lemma {:induction false} PathsViaComplete(m: Adjacency, from: int, ys: seq<int>, target: int, k: nat, p: seq<int>)
    requires Ascending(m) && Below(m, target) && from in m
    requires Above(m, from, ys)
    requires IsPath(m, p, from, target) && |p| > 1 && k < |ys| && ys[k] == p[1]
    ensures p in PathsVia(m, from, ys, target)
    decreases target - from, 0, |ys|
  {
    if k == 0 {
      var q := p[1..];
      assert IsPath(m, q, ys[0], target) by {
        forall a, b | 0 <= a && b == a + 1 && b < |q|
          ensures Step(m, q[a], q[b])
        {
          assert q[a] == p[a + 1] && q[b] == p[b + 1];
        }
      }
      PathsComplete(m, ys[0], target, q);
      var ps := Paths(m, ys[0], target);
      var i :| 0 <= i < |ps| && ps[i] == q;
      assert p == [from] + q;
      assert Prepend(from, ps)[i] == p;
    } else {
      PathsViaComplete(m, from, ys[1..], target, k - 1, p);
    }
  }

  /* ---------------------------------------------------------------- distinct chains */

  /** No two entries of `ps` are the same chain. */
  ghost predicate NoDuplicates(ps: seq<seq<int>>)
  {
    forall i, j :: 0 <= i < j < |ps| ==> ps[i] != ps[j]
  }

  /** No non-zero entry of `ys` occurs twice. */
  predicate NonZeroDistinct(ys: seq<int>)
  {
    forall i, j :: 0 <= i < j < |ys| && ys[i] != 0 ==> ys[i] != ys[j]
  }

  /** No key lists a non-zero follower twice. */
  predicate FollowersDistinct(m: Adjacency)
  {
    forall k :: k in m ==> NonZeroDistinct(m[k])
  }

  /** The enumeration counts each chain once when no key lists a
      follower twice; `total_paths` counts with multiplicity otherwise. */
  lemma {:induction false} PathsDistinct(m: Adjacency, node: int, target: int)
    requires Ascending(m) && Below(m, target) && node in m && FollowersDistinct(m)
    ensures NoDuplicates(Paths(m, node, target))
    ensures forall p :: p in Paths(m, node, target) ==> |p| > 0 && p[0] == node
    decreases target - node, 1
  {
    if node != target {
      PathsViaDistinct(m, node, m[node], target);
    }
  }

  lemma {:induction false} PathsViaDistinct(m: Adjacency, from: int, ys: seq<int>, target: int)
    requires Ascending(m) && Below(m, target) && from in m && FollowersDistinct(m)
    requires Above(m, from, ys) && NonZeroDistinct(ys)
    ensures NoDuplicates(PathsVia(m, from, ys, target))
    ensures forall p :: p in PathsVia(m, from, ys, target) ==> |p| > 1 && p[0] == from && p[1] in ys
    decreases target - from, 0, |ys|
  {
    if |ys| > 0 {
      var tail := ys[1..];
      assert forall j :: 0 <= j < |tail| ==> tail[j] == ys[j + 1];
      PathsViaDistinct(m, from, tail, target);
      var b := PathsVia(m, from, tail, target);
      if ys[0] == 0 {
        assert PathsVia(m, from, ys, target) == [] + b;
      } else {
        PathsDistinct(m, ys[0], target);
        var ps := Paths(m, ys[0], target);
        assert PathsVia(m, from, ys, target) == Prepend(from, ps) + b;
        PrependDistinct(from, ys[0], ps);
        JoinChains(from, ys, Prepend(from, ps), b);
      }
    }
  }

  /** Putting the same node in front of distinct chains from `y` keeps
      them distinct, with `y` second. */
  lemma PrependDistinct(x: int, y: int, ps: seq<seq<int>>)
    requires NoDuplicates(ps) && forall p :: p in ps ==> |p| > 0 && p[0] == y
    ensures NoDuplicates(Prepend(x, ps))
    ensures forall q :: q in Prepend(x, ps) ==> |q| > 1 && q[0] == x && q[1] == y
  {
    var r := Prepend(x, ps);
    forall i, j | 0 <= i < j < |r|
      ensures r[i] != r[j]
    {
      assert r[i][1..] == ps[i] && r[j][1..] == ps[j];
    }
    forall q | q in r
      ensures |q| > 1 && q[0] == x && q[1] == y
    {
      var i :| 0 <= i < |r| && r[i] == q;
      assert ps[i] in ps;
    }
  }

  /** The chains through the first follower and those through the rest
      have different second nodes, so joining them keeps them distinct. */
  lemma JoinChains(from: int, ys: seq<int>, a: seq<seq<int>>, b: seq<seq<int>>)
    requires |ys| > 0 && ys[0] !in ys[1..]
    requires NoDuplicates(a) && forall q :: q in a ==> |q| > 1 && q[0] == from && q[1] == ys[0]
    requires NoDuplicates(b) && forall q :: q in b ==> |q| > 1 && q[0] == from && q[1] in ys[1..]
    ensures NoDuplicates(a + b)
    ensures forall q :: q in a + b ==> |q| > 1 && q[0] == from && q[1] in ys
  {
    ConcatNoDuplicates(a, b);
  }

  lemma ConcatNoDuplicates(a: seq<seq<int>>, b: seq<seq<int>>)
    requires NoDuplicates(a) && NoDuplicates(b)
    requires forall x, y :: x in a && y in b ==> x != y
    ensures NoDuplicates(a + b)
  {
    var r := a + b;
    forall i, j | 0 <= i < j < |r|
      ensures r[i] != r[j]
    {
      if j < |a| {
        assert r[i] == a[i] && r[j] == a[j];
      } else if i >= |a| {
        assert r[i] == b[i - |a|] && r[j] == b[j - |a|];
      } else {
        assert r[i] == a[i] && r[j] == b[j - |a|];
        assert a[i] in a && b[j - |a|] in b;
      }
    }
  }

  /** No rating is listed twice. */
  ghost predicate NoRepeats(nums: seq<int>)
  {
    forall x :: multiset(nums)[x] <= 1
  }

  /** Two positions of a sequence hold two of its elements. */
  lemma PairInMultiset(s: seq<int>, i: nat, j: nat)
    requires i < j < |s|
    ensures multiset{s[i], s[j]} <= multiset(s)
  {
    assert s == s[..i] + [s[i]] + s[i + 1..j] + [s[j]] + s[j + 1..];
  }

  /** Sorted ratings without repeats strictly ascend. */
  lemma SortedStrict(nums: seq<int>)
    requires NoRepeats(nums)
    ensures forall i, j :: 0 <= i < j < |Sort(nums)| ==> Sort(nums)[i] < Sort(nums)[j]
  {
    var sorted := Sort(nums);
    assert multiset(sorted) == multiset(nums);
    AscendingStrict(sorted);
  }

  lemma AscendingStrict(s: seq<int>)
    requires SortedAsc(s) && NoRepeats(s)
    ensures forall i, j :: 0 <= i < j < |s| ==> s[i] < s[j]
  {
    forall i, j | 0 <= i < j < |s|
      ensures s[i] < s[j]
    {
      PairInMultiset(s, i, j);
      assert multiset{s[i], s[j]}[s[i]] <= multiset(s)[s[i]] <= 1;
    }
  }

  /** The chain of strictly ascending ratings repeats no non-zero entry. */
  lemma ChainDistinct(c: seq<int>, sorted: seq<int>)
    requires ChainOf(c, sorted)
    requires forall i, j :: 0 <= i < j < |sorted| ==> sorted[i] < sorted[j]
    ensures NonZeroDistinct(c)
  {
    var n := |sorted|;
    forall i, j | 0 <= i < j < |c| && c[i] != 0
      ensures c[i] != c[j]
    {
      if j <= n {
        assert c[i] == sorted[i - 1] && c[j] == sorted[j - 1];
      } else if j == n + 1 {
        assert c[i] == sorted[i - 1] && sorted[i - 1] <= sorted[n - 1];
      }
    }
  }

  /** Filtering keeps non-zero entries distinct. */
  lemma {:induction false} KeepDistinct(w: seq<int>, first: int)
    requires NonZeroDistinct(w)
    ensures NonZeroDistinct(Keep(w, first))
  {
    if |w| > 0 {
      var tail := w[1..];
      assert forall j :: 0 <= j < |tail| ==> tail[j] == w[j + 1];
      KeepDistinct(tail, first);
      KeepMembers(tail, first);
      var r := Keep(w, first);
      var h := if w[0] <= first + 3 && w[0] != first then [w[0]] else [];
      assert r == h + Keep(tail, first);
      if h != [] && w[0] != 0 {
        assert w[0] !in tail;
        forall j | 0 < j < |r|
          ensures r[j] != r[0]
        {
          assert r[j] == Keep(tail, first)[j - 1];
        }
        forall i, j | 0 < i < j < |r| && r[i] != 0
          ensures r[i] != r[j]
        {
          assert r[i] == Keep(tail, first)[i - 1] && r[j] == Keep(tail, first)[j - 1];
        }
      }
    }
  }

  /** The map of a chain that repeats no non-zero entry lists no follower
      twice. */
  lemma WindowMapDistinct(c: seq<int>)
    requires NonZeroDistinct(c)
    ensures FollowersDistinct(ToMap(Windows(c)))
  {
    var ws := Windows(c);
    var m := ToMap(ws);
    ToMapMeaning(ws);
    forall k | k in m
      ensures NonZeroDistinct(m[k])
    {
      var i :| 0 <= i < |ws| && ws[i] == (k, m[k]);
      WindowAt(c, i);
      var w := c[i..i + 4];
      assert forall a :: 0 <= a < 4 ==> w[a] == c[i + a];
      KeepDistinct(w, c[i]);
    }
  }

  /** With no rating listed twice, the chains that part two counts are
      distinct chains from the outlet to the device. */
  lemma DistinctChains(nums: seq<int>)
    requires Build(nums).Some? && NoRepeats(nums)
    requires forall i :: 0 <= i < |nums| ==> 0 <= nums[i]
    ensures var m := Build(nums).value;
      var device := Sort(nums)[|nums| - 1] + 3;
      && Ascending(m) && Below(m, device) && 0 in m
      && SolvePart2(m) == Some(|Paths(m, 0, device)|)
      && NoDuplicates(Paths(m, 0, device))
  {
    var sorted := Sort(nums);
    Part2CountsChains(nums);
    BuildIsChainMap(nums);
    ChainIsChainOf(sorted);
    SortedStrict(nums);
    ChainDistinct(Chain(sorted), sorted);
    WindowMapDistinct(Chain(sorted));
    PathsDistinct(Build(nums).value, 0, sorted[|nums| - 1] + 3);
  }

  /* ---------------------------------------------------------------- generator facts */

  /** `c` is the outlet, the sorted ratings, the device and three zeros,
      stated entry by entry. */
  predicate ChainOf(c: seq<int>, sorted: seq<int>)
  {
    && |sorted| > 0 && |c| == |sorted| + 5
    && c[0] == 0 && c[|sorted| + 1] == sorted[|sorted| - 1] + 3
    && (forall i :: 0 < i <= |sorted| ==> c[i] == sorted[i - 1])
    && (forall i :: |sorted| + 2 <= i < |c| ==> c[i] == 0)
  }

  lemma ChainIsChainOf(sorted: seq<int>)
    requires |sorted| > 0
    ensures ChainOf(Chain(sorted), sorted)
  {
  }

  /** The chain of sorted ratings is padded and not negative. */
  lemma ChainFacts(c: seq<int>, sorted: seq<int>)
    requires ChainOf(c, sorted) && SortedAsc(sorted)
    requires forall i :: 0 <= i < |sorted| ==> 0 <= sorted[i]
    ensures Padded(c) && forall i :: 0 <= i < |c| - 3 ==> 0 <= c[i]
  {
    var n := |sorted|;
    forall i, j | 0 <= i <= j < |c| - 3
      ensures c[i] <= c[j]
    {
      if 0 < i && j <= n {
        assert c[i] == sorted[i - 1] && c[j] == sorted[j - 1];
      } else if 0 < i < j {
        assert c[i] == sorted[i - 1] && c[j] == sorted[n - 1] + 3;
      } else if i == 0 && 0 < j <= n {
        assert c[j] == sorted[j - 1];
      }
    }
  }

  /** The windows of the chain: each first rating's followers are larger,
      at most 3 above it, and themselves start a window. */
  lemma WindowFacts(c: seq<int>, i: int)
    requires Padded(c) && 0 <= i < |c| - 3
    ensures var f := Keep(c[i..i + 4], c[i]);
      && |f| <= 3
      && (forall y :: y in f && y != 0 ==> c[i] < y <= c[i] + 3 && exists j :: i < j < |c| - 3 && c[j] == y)
  {
    var w := c[i..i + 4];
    var f := Keep(w, c[i]);
    KeepDropsFirst(w, c[i]);
    KeepMembers(w, c[i]);
    forall y | y in f && y != 0
      ensures c[i] < y <= c[i] + 3 && exists j :: i < j < |c| - 3 && c[j] == y
    {
      var t :| 0 <= t < 4 && w[t] == y;
      assert c[i + t] == y;
      assert t != 0;
      assert i + t < |c| - 3;
      assert c[i] <= c[i + t];
    }
  }

  lemma KeepDropsFirst(w: seq<int>, first: int)
    requires |w| > 0 && w[0] == first
    ensures |Keep(w, first)| <= |w| - 1
  {
    assert Keep(w, first) == Keep(w[1..], first);
  }

  /** Every key has at most 3 followers. */
  predicate Narrow(m: Adjacency)
  {
    forall k :: k in m ==> |m[k]| <= 3
  }

  /** Every non-zero follower is a key 1 to 3 above its predecessor. */
  predicate StepsUp(m: Adjacency)
  {
    forall k, y :: k in m && y in m[k] && y != 0 ==> k < y <= k + 3 && y in m
  }

  /** A chain whose first `|c| - 3` entries ascend and whose last three are
      zero. */
  predicate Padded(c: seq<int>)
  {
    && |c| >= 4
    && (forall a, b :: 0 <= a <= b < |c| - 3 ==> c[a] <= c[b])
    && (forall a :: |c| - 3 <= a < |c| ==> c[a] == 0)
  }

  /** The map of the windows of a padded chain: each key has at most 3
      followers, and every non-zero follower is a key 1 to 3 above it. */
  lemma WindowMapFacts(c: seq<int>)
    requires Padded(c)
    ensures var m := ToMap(Windows(c));
      && (forall k :: k in m ==> exists i :: 0 <= i < |c| - 3 && c[i] == k)
      && Narrow(m) && StepsUp(m)
  {
    var ws := Windows(c);
    var m := ToMap(ws);
    ToMapMeaning(ws);
    forall k | k in m
      ensures |m[k]| <= 3 && exists i :: 0 <= i < |c| - 3 && c[i] == k
      ensures forall y :: y in m[k] && y != 0 ==> k < y <= k + 3 && y in m
    {
      var i :| 0 <= i < |ws| && ws[i] == (k, m[k]);
      WindowAt(c, i);
      WindowFacts(c, i);
      forall y | y in m[k] && y != 0
        ensures k < y <= k + 3 && y in m
      {
        var j :| i < j < |c| - 3 && c[j] == y;
        assert ws[j].0 == y;
      }
    }
  }

  /** Every entry of a padded chain before the padding is a key. */
  lemma WindowMapKeys(c: seq<int>, j: int)
    requires 0 <= j < |c| - 3
    ensures c[j] in ToMap(Windows(c))
  {
    ToMapMeaning(Windows(c));
    assert Windows(c)[j].0 == c[j];
  }

  /** A key of the generated map is the outlet, a rating or the device. */
  lemma KeySource(c: seq<int>, sorted: seq<int>, nums: seq<int>, x: int)
    requires ChainOf(c, sorted) && multiset(sorted) == multiset(nums)
    requires x in ToMap(Windows(c))
    ensures x == 0 || x in nums || x == sorted[|sorted| - 1] + 3
  {
    var ws := Windows(c);
    ToMapMeaning(ws);
    var i :| 0 <= i < |ws| && ws[i].0 == x;
    if 0 < i <= |sorted| {
      assert x == sorted[i - 1];
      assert sorted[i - 1] in multiset(nums);
    }
  }

  /** The outlet, every rating and the device are keys. */
  lemma KeyPresent(c: seq<int>, sorted: seq<int>, nums: seq<int>, x: int)
    requires ChainOf(c, sorted) && multiset(sorted) == multiset(nums)
    requires x == 0 || x in nums || x == sorted[|sorted| - 1] + 3
    ensures x in ToMap(Windows(c))
  {
    var n := |sorted|;
    if x == 0 {
      WindowMapKeys(c, 0);
    } else if x in nums {
      assert x in multiset(sorted);
      var j :| 0 <= j < n && sorted[j] == x;
      assert c[j + 1] == x;
      WindowMapKeys(c, j + 1);
    } else {
      WindowMapKeys(c, n + 1);
    }
  }

  /** The keys of the generated map are the outlet, the ratings and the
      device. */
  lemma ChainKeys(c: seq<int>, sorted: seq<int>, nums: seq<int>)
    requires ChainOf(c, sorted) && multiset(sorted) == multiset(nums)
    ensures forall x :: x in ToMap(Windows(c)) <==> x == 0 || x in nums || x == sorted[|sorted| - 1] + 3
  {
    forall x
      ensures x in ToMap(Windows(c)) <==> x == 0 || x in nums || x == sorted[|sorted| - 1] + 3
    {
      if x in ToMap(Windows(c)) {
        KeySource(c, sorted, nums, x);
      }
      if x == 0 || x in nums || x == sorted[|sorted| - 1] + 3 {
        KeyPresent(c, sorted, nums, x);
      }
    }
  }

  /** The sorted ratings are not negative. */
  lemma SortedNonNegative(nums: seq<int>)
    requires forall i :: 0 <= i < |nums| ==> 0 <= nums[i]
    ensures forall i :: 0 <= i < |Sort(nums)| ==> 0 <= Sort(nums)[i]
  {
    var sorted := Sort(nums);
    forall i | 0 <= i < |sorted|
      ensures 0 <= sorted[i]
    {
      assert sorted[i] in multiset(nums);
    }
  }

  /** The map `generator` builds: its keys are the outlet, the ratings and
      the device; every key has at most 3 followers; every non-zero follower
      is a key larger than its predecessor by 1 to 3. */
  lemma BuildFacts(nums: seq<int>)
    requires Build(nums).Some?
    requires forall i :: 0 <= i < |nums| ==> 0 <= nums[i]
    ensures var m := Build(nums).value;
      var device := Sort(nums)[|nums| - 1] + 3;
      && (forall x :: x in m <==> x == 0 || x in nums || x == device)
      && Narrow(m) && StepsUp(m)
      && (forall k :: k in m ==> 0 <= k <= device)
  {
    var sorted := Sort(nums);
    BuildIsChainMap(nums);
    ChainIsChainOf(sorted);
    ChainKeys(Chain(sorted), sorted, nums);
    BuildShape(nums);
  }

  lemma BuildIsChainMap(nums: seq<int>)
    requires Build(nums).Some?
    ensures |Sort(nums)| > 0 && Build(nums).value == ChainMap(Sort(nums))
  {
  }

  /** The map of the sorted ratings: every key has at most 3 followers,
      every non-zero follower is a key 1 to 3 above it, and the keys lie
      between the outlet and the device. */
  lemma BuildShape(nums: seq<int>)
    requires Build(nums).Some?
    requires forall i :: 0 <= i < |nums| ==> 0 <= nums[i]
    ensures var m := Build(nums).value;
      && Narrow(m) && StepsUp(m)
      && (forall k :: k in m ==> 0 <= k <= Sort(nums)[|nums| - 1] + 3)
  {
    BuildIsChainMap(nums);
    SortedNonNegative(nums);
    ChainShape(Sort(nums));
  }

  lemma ChainShape(sorted: seq<int>)
    requires |sorted| > 0 && SortedAsc(sorted)
    requires forall i :: 0 <= i < |sorted| ==> 0 <= sorted[i]
    ensures var m := ChainMap(sorted);
      && Narrow(m) && StepsUp(m)
      && (forall k :: k in m ==> 0 <= k <= sorted[|sorted| - 1] + 3)
  {
    var c := Chain(sorted);
    ChainIsChainOf(sorted);
    ChainFacts(c, sorted);
    WindowMapFacts(c);
    ChainTop(c, sorted);
  }

  lemma ChainTop(c: seq<int>, sorted: seq<int>)
    requires ChainOf(c, sorted) && Padded(c)
    requires forall i :: 0 <= i < |c| - 3 ==> 0 <= c[i]
    ensures forall i :: 0 <= i < |c| - 3 ==> 0 <= c[i] <= sorted[|sorted| - 1] + 3
  {
    forall i | 0 <= i < |c| - 3
      ensures c[i] <= sorted[|sorted| - 1] + 3
    {
      assert c[i] <= c[|c| - 4];
    }
  }

  lemma StepsUpAscending(m: Adjacency)
    requires StepsUp(m)
    ensures Ascending(m)
  {
    forall k, j | k in m && 0 <= j < |m[k]| && m[k][j] != 0
      ensures k < m[k][j] && m[k][j] in m
    {
      var y := m[k][j];
      assert y in m[k];
      assert k < y <= k + 3 && y in m;
    }
  }

  lemma KeyRange(m: Adjacency, device: int)
    requires 0 in m && device in m && forall k :: k in m ==> 0 <= k <= device
    ensures SetMin(m.Keys) == 0 && SetMax(m.Keys) == device
  {
  }

  /** The generated map steps up and its keys run from the outlet to the
      device. */
  lemma BuildBounds(nums: seq<int>)
    requires Build(nums).Some?
    requires forall i :: 0 <= i < |nums| ==> 0 <= nums[i]
    ensures var m := Build(nums).value;
      var device := Sort(nums)[|nums| - 1] + 3;
      && StepsUp(m) && 0 in m && device in m
      && forall k :: k in m ==> 0 <= k <= device
  {
    BuildShape(nums);
    BuildEnds(nums);
  }

  /** The outlet and the device are keys. */
  lemma BuildEnds(nums: seq<int>)
    requires Build(nums).Some?
    ensures 0 in Build(nums).value && Sort(nums)[|nums| - 1] + 3 in Build(nums).value
  {
    var sorted := Sort(nums);
    BuildIsChainMap(nums);
    var c := Chain(sorted);
    assert c[0] == 0 && c[|sorted| + 1] == sorted[|sorted| - 1] + 3;
    WindowMapKeys(c, 0);
    WindowMapKeys(c, |sorted| + 1);
  }

  /** A map whose keys run from 0 to `device` and whose followers step up. */
  lemma Walkable(m: Adjacency, device: int)
    requires StepsUp(m) && 0 in m && device in m
    requires forall k :: k in m ==> 0 <= k <= device
    ensures Ascending(m) && m != map[] && SetMin(m.Keys) == 0 && SetMax(m.Keys) == device
  {
    KeyRange(m, device);
    StepsUpAscending(m);
  }

  /** Part two on generated input counts the chains from the outlet to the
      device. */
  lemma Part2CountsChains(nums: seq<int>)
    requires Build(nums).Some?
    requires forall i :: 0 <= i < |nums| ==> 0 <= nums[i]
    ensures var m := Build(nums).value;
      var device := Sort(nums)[|nums| - 1] + 3;
      && Ascending(m) && Below(m, device) && 0 in m
      && SolvePart2(m) == Some(|Paths(m, 0, device)|)
  {
    var m := Build(nums).value;
    var device := Sort(nums)[|nums| - 1] + 3;
    BuildBounds(nums);
    assert StepsUp(m) && 0 in m && device in m && forall k :: k in m ==> 0 <= k <= device;
    WalkCounts(m, device);
  }

  /** On a map whose followers step up and whose keys run from the outlet
      to the device, part two counts the chains between the two. */
  lemma WalkCounts(m: Adjacency, device: int)
    requires StepsUp(m) && 0 in m && device in m
    requires forall k :: k in m ==> 0 <= k <= device
    ensures Ascending(m) && Below(m, device)
    ensures SolvePart2(m) == Some(|Paths(m, 0, device)|)
  {
    Walkable(m, device);
    PathsCount(m, 0, device);
  }

  /* ---------------------------------------------------------------- sample */

  /** The map for the ratings 1, 2, 3 and 5: the device is 8 and there are
      6 chains. */
  const SampleMap: Adjacency := map[0 := [1, 2, 3], 1 := [2, 3], 2 := [3, 5], 3 := [5, 0], 5 := [8, 0, 0], 8 := [0, 0, 0]]

  lemma SampleChains()
    ensures Ascending(SampleMap) && SolvePart2(SampleMap) == Some(6)
  {
    SampleShape();
    SampleTotal();
  }

  /** The sample map steps up from the outlet 0 to the device 8. */
  lemma SampleShape()
    ensures Ascending(SampleMap) && Below(SampleMap, 8)
    ensures SampleMap != map[] && SetMin(SampleMap.Keys) == 0 && SetMax(SampleMap.Keys) == 8
  {
    var m := SampleMap;
    assert m.Keys == {0, 1, 2, 3, 5, 8};
    KeyRange(m, 8);
  }

  lemma SampleTotal()
    ensures Ascending(SampleMap) && Below(SampleMap, 8)
    ensures TotalPaths(SampleMap, 0, 8) == 6
  {
    SampleShape();
    var m := SampleMap;
    assert TotalPaths(m, 8, 8) == 1;
    assert TotalPaths(m, 5, 8) == 1;
    assert TotalPaths(m, 3, 8) == 1;
    assert TotalPaths(m, 2, 8) == 2;
    assert TotalPaths(m, 1, 8) == 3;
  }
}
