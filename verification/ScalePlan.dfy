/**
 * Planning a questionnaire of an exact size: lists of numbers settled to an exact total in
 * place, and the pool of question types shuffled in place.
 */
module ScalePlan {
  import opened SplitMix

  // ------------------------------------------------------------------- sums

  function Sum(s: seq<int>): int
  {
    if s == [] then 0 else s[0] + Sum(s[1..])
  }

  lemma {:induction false} SumUpdate(s: seq<int>, i: nat, x: int)
    requires i < |s|
    ensures Sum(s[i := x]) == Sum(s) - s[i] + x
  {
    if i > 0 {
      assert s[i := x][1..] == s[1..][i - 1 := x];
      SumUpdate(s[1..], i - 1, x);
    } else {
      assert s[i := x][1..] == s[1..];
    }
  }

  lemma {:induction false} SumAtMost(s: seq<int>, bound: int)
    requires forall i | 0 <= i < |s| :: s[i] <= bound
    ensures Sum(s) <= bound * |s|
  {
    if s != [] {
      SumAtMost(s[1..], bound);
      assert bound * |s| == bound * |s[1..]| + bound;
    }
  }

  lemma ModNext(index: nat, n: nat)
    requires n > 0
    ensures (index + 1) % n == if index % n + 1 == n then 0 else index % n + 1
  {
    var q, r := index / n, index % n;
    assert index == q * n + r;
    if r + 1 == n {
      assert index + 1 == (q + 1) * n + 0;
      ModUnique(index + 1, n, q + 1, 0);
    } else {
      ModUnique(index + 1, n, q, r + 1);
    }
  }

  lemma {:induction false} AtLeastOne(k: nat, n: nat)
    requires k > 0
    ensures k * n >= n
  {
    assert k * n == (k - 1) * n + n;
  }

  lemma ModUnique(x: nat, n: nat, q: nat, r: nat)
    requires n > 0 && r < n && x == q * n + r
    ensures x % n == r
  {
    var p, s := x / n, x % n;
    assert x == p * n + s;
    if p > q {
      assert (p - q) * n == p * n - q * n;
      AtLeastOne(p - q, n);
    } else if p < q {
      assert (q - p) * n == q * n - p * n;
      AtLeastOne(q - p, n);
    }
  }

  // ----------------------------------------------------------- settling loops

  function Following(at: nat, n: nat): nat { if at + 1 == n then 0 else at + 1 }

  /** Whether entry i has had its turn since the round began at `from`, with `at` up next. */
  predicate HadTurn(from: nat, at: nat, i: nat)
  {
    if from <= at then from <= i < at else i >= from || i < at
  }

  /** Every entry has grown by as many rounds as there were, and by one more if it had its turn. */
  ghost predicate GrownEvenly(before: seq<int>, after: seq<int>, rounds: nat, from: nat, at: nat)
  {
    |after| == |before| && forall i | 0 <= i < |before| ::
      after[i] == before[i] + rounds + (if HadTurn(from, at, i) then 1 else 0)
  }

  lemma GrowOne(before: seq<int>, after: seq<int>, rounds: nat, from: nat, at: nat)
    requires GrownEvenly(before, after, rounds, from, at) && from < |before| && at < |before|
    ensures var at' := Following(at, |before|);
            GrownEvenly(before, after[at := after[at] + 1], if at' == from then rounds + 1 else rounds, from, at')
  {}

  /** Add one at a time, round and round, until the total is reached: no entry gets two more than another. */
  method SettleUp(sizes: array<int>, total: int, start: nat) returns (index: nat)
    requires sizes.Length > 0
    modifies sizes
    ensures Sum(sizes[..]) == if Sum(old(sizes[..])) < total then total else Sum(old(sizes[..]))
    ensures AddedEvenly(old(sizes[..]), sizes[..])
    ensures exists rounds: nat :: GrownEvenly(old(sizes[..]), sizes[..], rounds, start % sizes.Length, index % sizes.Length)
  {
    index := start;
    var n := sizes.Length;
    ghost var from, rounds := index % n, 0;
    while Sum(sizes[..]) < total
      invariant Sum(sizes[..]) <= total || Sum(sizes[..]) == Sum(old(sizes[..]))
      invariant GrownEvenly(old(sizes[..]), sizes[..], rounds, from, index % n)
      decreases total - Sum(sizes[..])
    {
      var i := index % n;
      ghost var before := sizes[..];
      ModNext(index, n);
      GrowOne(old(sizes[..]), before, rounds, from, i);
      if Following(i, n) == from { rounds := rounds + 1; }
      sizes[i] := sizes[i] + 1;
      assert sizes[..] == before[i := before[i] + 1];
      SumUpdate(before, i, before[i] + 1);
      index := index + 1;
    }
  }

  /** Nothing taken from any entry, and no entry given two more than another. */
  predicate AddedEvenly(before: seq<int>, after: seq<int>)
  {
    && |after| == |before| && (forall i | 0 <= i < |after| :: before[i] <= after[i])
    && forall i, j | 0 <= i < |after| && 0 <= j < |after| :: after[i] - before[i] <= after[j] - before[j] + 1
  }

  /** Nothing added, nothing below the floor, and no entry that is above it spared by more than one. */
  predicate TakenEvenly(before: seq<int>, after: seq<int>, floor: int)
  {
    && |after| == |before| && (forall i | 0 <= i < |after| :: floor <= after[i] <= before[i])
    && forall i, j | 0 <= i < |after| && 0 <= j < |after| && after[j] > floor ::
         before[i] - after[i] <= before[j] - after[j] + 1
  }

  /** Every entry has shrunk by as many rounds as there were, and by one more if it had its turn, but not below the floor. */
  ghost predicate ShrunkEvenly(before: seq<int>, after: seq<int>, floor: int, rounds: nat, from: nat, at: nat)
  {
    |after| == |before| && forall i | 0 <= i < |before| ::
      after[i] == Larger(floor, before[i] - rounds - (if HadTurn(from, at, i) then 1 else 0))
  }

  function Larger(a: int, b: int): int { if a >= b then a else b }

  lemma ShrinkOne(before: seq<int>, after: seq<int>, floor: int, rounds: nat, from: nat, at: nat)
    requires ShrunkEvenly(before, after, floor, rounds, from, at) && from < |before| && at < |before|
    ensures var at' := Following(at, |before|);
            var taken := if after[at] > floor then after[at := after[at] - 1] else after;
            ShrunkEvenly(before, taken, floor, if at' == from then rounds + 1 else rounds, from, at')
  {}

  /** No entry passed over since the last change is above the floor. */
  ghost predicate PassedOver(s: seq<int>, floor: int, from: nat, wrapped: bool, at: nat)
    requires from < |s| && at < |s|
  {
    if wrapped then at <= from && (forall i | from <= i < |s| :: s[i] <= floor) && (forall i | 0 <= i < at :: s[i] <= floor)
    else from <= at && forall i | from <= i < at :: s[i] <= floor
  }

  ghost function StillToPass(n: nat, from: nat, wrapped: bool, at: nat): int
  {
    if wrapped then from - at else n + from - at
  }

  lemma PassOver(s: seq<int>, floor: int, from: nat, wrapped: bool, at: nat)
    requires from < |s| && at < |s| && PassedOver(s, floor, from, wrapped, at)
    requires s[at] <= floor && !(wrapped && at == from)
    ensures var wrapped' := wrapped || at + 1 == |s|;
            && PassedOver(s, floor, from, wrapped', Following(at, |s|))
            && 0 <= StillToPass(|s|, from, wrapped', Following(at, |s|)) < StillToPass(|s|, from, wrapped, at)
  {}

  lemma NotAllPassed(s: seq<int>, floor: int, from: nat, at: nat)
    requires from < |s| && at < |s| && PassedOver(s, floor, from, true, at) && at == from
    ensures Sum(s) <= floor * |s|
  {
    SumAtMost(s, floor);
  }

  /**
   * Take one away at a time, round and round, skipping entries at the floor, until the
   * total is reached. It ends because some entry is above the floor as long as the sum is
   * above the total.
   */
  method SettleDown(sizes: array<int>, total: int, floor: int, start: nat) returns (index: nat)
    requires sizes.Length > 0 && floor * sizes.Length <= total
    requires forall i | 0 <= i < sizes.Length :: sizes[i] >= floor
    modifies sizes
    ensures Sum(sizes[..]) == if Sum(old(sizes[..])) > total then total else Sum(old(sizes[..]))
    ensures TakenEvenly(old(sizes[..]), sizes[..], floor)
    ensures exists rounds: nat ::
              ShrunkEvenly(old(sizes[..]), sizes[..], floor, rounds, start % sizes.Length, index % sizes.Length)
  {
    index := start;
    var n := sizes.Length;
    ghost var was, first: nat, rounds: nat := sizes[..], index % n, 0;
    ghost var at: nat, from: nat, wrapped := first, first, false;
    NothingShrunk(was, floor, first);
    NothingPassed(was, floor, first);
    hide ShrunkEvenly, PassedOver, StillToPass, Sum, HadTurn, TakenEvenly;
    while Sum(sizes[..]) > total
      invariant at == index % n && at < n && from < n
      invariant Sum(sizes[..]) >= total || Sum(sizes[..]) == Sum(was)
      invariant PassedOver(sizes[..], floor, from, wrapped, at) && StillToPass(n, from, wrapped, at) >= 0
      invariant ShrunkEvenly(was, sizes[..], floor, rounds, first, at)
      decreases Sum(sizes[..]) - total, StillToPass(n, from, wrapped, at)
    {
      var i := index % n;
      ghost var before := sizes[..];
      ModNext(index, n);
      ShrinkOne(was, before, floor, rounds, first, i);
      if Following(i, n) == first { rounds := rounds + 1; }
      at := Following(i, n);
      if sizes[i] > floor {
        sizes[i] := sizes[i] - 1;
        assert sizes[..] == before[i := before[i] - 1];
        SumUpdate(before, i, before[i] - 1);
        from, wrapped := at, false;
        NothingPassed(sizes[..], floor, from);
      } else {
        if wrapped && i == from { NotAllPassed(before, floor, from, i); }
        PassOver(before, floor, from, wrapped, i);
        wrapped := wrapped || i + 1 == n;
      }
      index := index + 1;
    }
    ShrunkAlike(was, sizes[..], floor, rounds, first, at);
  }

  lemma NothingPassed(s: seq<int>, floor: int, from: nat)
    requires from < |s|
    ensures PassedOver(s, floor, from, false, from) && StillToPass(|s|, from, false, from) >= 0
  {}

  lemma NothingShrunk(s: seq<int>, floor: int, from: nat)
    requires from < |s| && forall i | 0 <= i < |s| :: s[i] >= floor
    ensures ShrunkEvenly(s, s, floor, 0, from, from)
  {}

  lemma ShrunkAlike(before: seq<int>, after: seq<int>, floor: int, rounds: nat, from: nat, at: nat)
    requires ShrunkEvenly(before, after, floor, rounds, from, at) && forall i | 0 <= i < |before| :: before[i] >= floor
    ensures TakenEvenly(before, after, floor)
  {}

  // ------------------------------------------------------------ section sizes

  /** The share of the total that goes with a weight, rounded down. */
  function ShareOf(weights: seq<nat>, total: nat, i: nat): nat
    requires i < |weights| && Sum(weights) > 0
  {
    weights[i] * total / Sum(weights)
  }

  function RoundedShares(weights: seq<nat>, total: nat): seq<int>
    requires Sum(weights) > 0
  {
    seq(|weights|, i requires 0 <= i < |weights| => ShareOf(weights, total, i))
  }

  /** The shares, none below the floor. */
  function Floored(weights: seq<nat>, total: nat, floor: nat): seq<int>
    requires Sum(weights) > 0
  {
    seq(|weights|, i requires 0 <= i < |weights| => Larger(floor, ShareOf(weights, total, i)))
  }

  lemma {:induction false} SumOver(a: seq<int>, b: seq<int>, factor: int, all: int)
    requires |a| == |b| && forall i | 0 <= i < |a| :: a[i] * factor - all < all * b[i] <= a[i] * factor
    ensures all * Sum(b) <= factor * Sum(a) && factor * Sum(a) - all * |a| <= all * Sum(b)
    ensures a != [] ==> factor * Sum(a) - all * |a| < all * Sum(b)
  {
    if a != [] {
      SumOver(a[1..], b[1..], factor, all);
      Distributes(all, b[0], Sum(b[1..]));
      Distributes(factor, a[0], Sum(a[1..]));
      Distributes(all, 1, |a[1..]|);
      AddUp(all * b[0], all * Sum(b[1..]), factor * a[0], factor * Sum(a[1..]), all, all * |a[1..]|);
    }
  }

  lemma Distributes(x: int, y: int, z: int)
    ensures x * (y + z) == x * y + x * z
  {}

  lemma AddUp(b: int, bs: int, a: int, more: int, all: int, alls: int)
    requires a - all < b <= a && bs <= more && more - alls <= bs
    ensures b + bs <= a + more && (a + more) - (all + alls) < b + bs
  {}

  lemma RoundedDown(x: nat, all: nat)
    requires all > 0
    ensures x - all < all * (x / all) <= x
  {
    assert x == all * (x / all) + x % all;
  }

  /** Rounding down loses less than one a section. */
  lemma SharesAlmostAll(weights: seq<nat>, total: nat)
    requires weights != [] && Sum(weights) > 0
    ensures total - |weights| < Sum(RoundedShares(weights, total)) <= total
  {
    hide Sum;
    var all, shares := Sum(weights), RoundedShares(weights, total);
    forall i | 0 <= i < |weights| ensures weights[i] * total - all < all * shares[i] <= weights[i] * total {
      RoundedDown(weights[i] * total, all);
    }
    SumOver(weights, shares, total, all);
    Cancel(all, Sum(shares), total, |weights|);
  }

  lemma Cancel(all: int, sum: int, total: int, n: nat)
    requires all > 0 && all * sum <= total * all && total * all - all * n < all * sum
    ensures total - n < sum <= total
  {
    assert all * (sum - total) == all * sum - total * all;
    NotAbove(all, sum - total, 0);
    assert all * (sum - (total - n)) == all * sum - (total * all - all * n);
    Positive(all, sum - (total - n));
  }

  lemma NotAbove(all: int, a: int, b: int)
    requires all > 0 && all * a <= all * b
    ensures a <= b
  {}

  lemma Positive(all: int, a: int)
    requires all > 0 && all * a > 0
    ensures a > 0
  {}

  lemma {:induction false} SumOrdered(a: seq<int>, b: seq<int>, more: int)
    requires |a| == |b| && forall i | 0 <= i < |a| :: a[i] + more <= b[i]
    ensures Sum(a) + more * |a| <= Sum(b)
  {
    if a != [] {
      SumOrdered(a[1..], b[1..], more);
      assert more * |a| == more + more * |a[1..]|;
    }
  }

  /** Where everything grows alike and by less than one each in all, nothing grows by more than one. */
  lemma GrownByOne(before: seq<int>, after: seq<int>, i: nat)
    requires |after| == |before| && i < |before| && Sum(after) < Sum(before) + |before|
    requires forall i, j | 0 <= i < |before| && 0 <= j < |before| :: after[i] - before[i] <= after[j] - before[j] + 1
    ensures after[i] <= before[i] + 1
  {
    if after[i] > before[i] + 1 {
      forall j | 0 <= j < |before| ensures before[j] + 1 <= after[j] {
        assert after[i] - before[i] <= after[j] - before[j] + 1;
      }
      SumOrdered(before, after, 1);
    }
  }

  /**
   * Sections as uneven as their weights: each size is its share, or one more, when no share
   * is below the floor; more generally so over the shares lifted to the floor, if those do
   * not exceed the total, and otherwise they are cut back evenly, but not below the floor.
   */
  predicate FollowsWeights(sizes: seq<int>, weights: seq<nat>, total: nat, floor: nat)
    requires |sizes| == |weights| && Sum(weights) > 0
  {
    var lifted := Floored(weights, total, floor);
    && ((forall i | 0 <= i < |sizes| :: floor <= ShareOf(weights, total, i)) ==>
          forall i | 0 <= i < |sizes| :: ShareOf(weights, total, i) <= sizes[i] <= ShareOf(weights, total, i) + 1)
    && (Sum(lifted) <= total ==> forall i | 0 <= i < |sizes| :: lifted[i] <= sizes[i] <= lifted[i] + 1)
    && (Sum(lifted) >= total ==> TakenEvenly(lifted, sizes, floor))
  }

  lemma UpFollows(sizes: seq<int>, weights: seq<nat>, total: nat, floor: nat)
    requires weights != [] && |sizes| == |weights| && Sum(weights) > 0
    requires var lifted := Floored(weights, total, floor);
             && Sum(lifted) <= total && Sum(sizes) == total
             && AddedEvenly(lifted, sizes)
    ensures forall i | 0 <= i < |sizes| :: Floored(weights, total, floor)[i] <= sizes[i] <= Floored(weights, total, floor)[i] + 1
  {
    var lifted := Floored(weights, total, floor);
    SharesAlmostAll(weights, total);
    SumOrdered(RoundedShares(weights, total), lifted, 0);
    forall i | 0 <= i < |sizes| ensures sizes[i] <= lifted[i] + 1 { GrownByOne(lifted, sizes, i); }
  }

  lemma {:induction false} SameSum(a: seq<int>, b: seq<int>)
    requires |a| == |b| && Sum(a) == Sum(b) && forall i | 0 <= i < |a| :: a[i] <= b[i]
    ensures a == b
  {
    if a != [] {
      SumOrdered(a[1..], b[1..], 0);
      SameSum(a[1..], b[1..]);
      assert a == [a[0]] + a[1..] && b == [b[0]] + b[1..];
    }
  }

  /** `section_sizes`, for any weights and total that leave room for the minimum. */
  method SectionSizes(weights: seq<nat>, total: nat, floor: nat) returns (sizes: array<int>)
    requires weights != [] && Sum(weights) > 0 && floor * |weights| <= total
    ensures fresh(sizes) && sizes.Length == |weights|
    ensures Sum(sizes[..]) == total
    ensures forall i | 0 <= i < sizes.Length :: sizes[i] >= floor
    ensures FollowsWeights(sizes[..], weights, total, floor)
  {
    var all := Sum(weights);
    sizes := new int[|weights|](i requires 0 <= i < |weights| =>
      if weights[i] * total / all > floor then weights[i] * total / all else floor);
    ghost var lifted := Floored(weights, total, floor);
    assert sizes[..] == lifted;
    var index := SettleUp(sizes, total, 0);
    ghost var up := sizes[..];
    index := SettleDown(sizes, total, floor, index);
    Settled(lifted, up, sizes[..], weights, total, floor);
  }

  lemma Settled(lifted: seq<int>, up: seq<int>, sizes: seq<int>, weights: seq<nat>, total: nat, floor: nat)
    requires weights != [] && Sum(weights) > 0 && lifted == Floored(weights, total, floor)
    requires |lifted| == |up| == |sizes| == |weights|
    requires Sum(up) == if Sum(lifted) < total then total else Sum(lifted)
    requires AddedEvenly(lifted, up)
    requires Sum(sizes) == if Sum(up) > total then total else Sum(up)
    requires TakenEvenly(up, sizes, floor)
    ensures FollowsWeights(sizes, weights, total, floor)
  {
    hide ShareOf, Floored, Sum, RoundedShares;
    if Sum(lifted) <= total {
      SameSum(sizes, up);
      UpFollows(sizes, weights, total, floor);
    }
    if Sum(lifted) >= total { SameSum(lifted, up); }
    if forall i | 0 <= i < |sizes| :: floor <= ShareOf(weights, total, i) { SharesAreLifted(weights, total, floor); }
  }

  lemma SharesAreLifted(weights: seq<nat>, total: nat, floor: nat)
    requires weights != [] && Sum(weights) > 0
    requires forall i | 0 <= i < |weights| :: floor <= ShareOf(weights, total, i)
    ensures forall i | 0 <= i < |weights| :: Floored(weights, total, floor)[i] == ShareOf(weights, total, i)
    ensures Sum(Floored(weights, total, floor)) <= total
  {
    hide ShareOf, Sum;
    assert Floored(weights, total, floor) == RoundedShares(weights, total);
    SharesAlmostAll(weights, total);
  }

  // ----------------------------------------------------------- option counts

  /** A size that a roll of a hundred may give: a great many short lists, a few long ones. */
  predicate InBand(roll: nat, size: int)
  {
    if roll < 42 then 2 <= size <= 3
    else if roll < 70 then 3 <= size <= 4
    else if roll < 90 then 5 <= size <= 8
    else if roll < 98 then 9 <= size <= 15
    else 20 <= size <= 40
  }

  /** The size two draws decide. */
  function DrawnSize(first: nat, second: nat): int
  {
    var roll := first % 100;
    if roll < 42 then 2 + second % 2
    else if roll < 70 then 3 + second % 2
    else if roll < 90 then 5 + second % 4
    else if roll < 98 then 9 + second % 7
    else 20 + second % 21
  }

  /** The second draw decides among all sizes of the band, and no others. */
  lemma BandsExactly(first: nat, size: int)
    ensures InBand(first % 100, size) <==> exists second: nat :: DrawnSize(first, second) == size
  {
    if InBand(first % 100, size) {
      var roll := first % 100;
      var least := if roll < 42 then 2 else if roll < 70 then 3 else if roll < 90 then 5 else if roll < 98 then 9 else 20;
      var second: nat := size - least;
      assert DrawnSize(first, second) == size;
    }
  }

  function DrawnSizes(seed: nat, draws: nat, lists: nat): seq<int>
  {
    seq(lists, i requires 0 <= i < lists => DrawnSize(Draw(seed, draws + 2 * i + 1), Draw(seed, draws + 2 * i + 2)))
  }

  /** The five bands of `option_counts`. */
  method OneCount(rng: Rng) returns (size: int)
    requires rng.Valid()
    modifies rng
    ensures rng.Valid() && rng.draws == old(rng.draws) + 2 && 2 <= size <= 40
    ensures size == DrawnSize(Draw(rng.seed, old(rng.draws) + 1), Draw(rng.seed, old(rng.draws) + 2))
  {
    hide Draw;
    var roll := rng.Below(100);
    var extra;
    if roll < 42 {
      extra := rng.Below(2);
      size := 2 + extra;
    } else if roll < 70 {
      extra := rng.Below(2);
      size := 3 + extra;
    } else if roll < 90 {
      extra := rng.Below(4);
      size := 5 + extra;
    } else if roll < 98 {
      extra := rng.Below(7);
      size := 9 + extra;
    } else {
      extra := rng.Below(21);
      size := 20 + extra;
    }
  }

  /** Sizes cut back evenly to a total, not below the floor, or filled up evenly to it. */
  predicate SettledEvenly(before: seq<int>, after: seq<int>, total: int, floor: int)
    requires |before| == |after|
  {
    && (Sum(before) >= total ==> TakenEvenly(before, after, floor))
    && (Sum(before) <= total ==> AddedEvenly(before, after))
  }

  /** `option_counts`, for any number of lists and any total that leaves two options to each. */
  method OptionCounts(rng: Rng, lists: nat, total: nat) returns (sizes: array<int>)
    requires rng.Valid() && lists > 0 && 2 * lists <= total
    modifies rng
    ensures rng.Valid() && fresh(sizes) && sizes.Length == lists
    ensures Sum(sizes[..]) == total
    ensures forall i | 0 <= i < lists :: sizes[i] >= 2
    ensures SettledEvenly(DrawnSizes(rng.seed, old(rng.draws), lists), sizes[..], total, 2)
  {
    sizes := DrawCounts(rng, lists);
    ghost var drawn := sizes[..];
    var index := SettleDown(sizes, total, 2, 0);
    ghost var down := sizes[..];
    index := SettleUp(sizes, total, index);
    DownThenUp(drawn, down, sizes[..], total, 2);
  }

  method DrawCounts(rng: Rng, lists: nat) returns (sizes: array<int>)
    requires rng.Valid()
    modifies rng
    ensures rng.Valid() && fresh(sizes) && sizes.Length == lists
    ensures forall i | 0 <= i < lists :: sizes[i] >= 2
    ensures sizes[..] == DrawnSizes(rng.seed, old(rng.draws), lists)
  {
    hide Draw, DrawnSize;
    sizes := new int[lists](_ => 2);
    for i := 0 to lists
      invariant rng.Valid() && rng.draws == old(rng.draws) + 2 * i
      invariant forall k | 0 <= k < lists :: sizes[k] >= 2
      invariant forall k | 0 <= k < i :: sizes[k] == DrawnSizes(rng.seed, old(rng.draws), lists)[k]
    {
      var size := OneCount(rng);
      sizes[i] := size;
    }
  }

  lemma DownThenUp(drawn: seq<int>, down: seq<int>, up: seq<int>, total: int, floor: int)
    requires |drawn| == |down| == |up|
    requires Sum(down) == if Sum(drawn) > total then total else Sum(drawn)
    requires TakenEvenly(drawn, down, floor) && AddedEvenly(down, up)
    requires Sum(up) == if Sum(down) < total then total else Sum(down)
    ensures SettledEvenly(drawn, up, total, floor)
  {
    if Sum(drawn) >= total { SameSum(down, up); }
    if Sum(drawn) <= total { SameSum(down, drawn); }
  }

  // --------------------------------------------------------------- shuffling

  datatype Kind =
    | SelectOne | SelectMultiple | PersonId | TextKind | IntegerKind | DecimalKind
    | DateKind | TimeKind | Geoshape | Note | School | HealthFacility

  function Repeat(kind: Kind, count: nat): seq<Kind> { seq(count, _ => kind) }

  /** The census, type by type, before shuffling. */
  function Census(): seq<Kind>
  {
    Repeat(SelectOne, 1461)
    + (Repeat(TextKind, 191) + Repeat(IntegerKind, 170) + Repeat(DecimalKind, 64))
    + Repeat(SelectMultiple, 88) + Repeat(PersonId, 73) + Repeat(SelectMultiple, 65)
    + Repeat(TextKind, 5) + Repeat(SelectOne, 3) + Repeat(TimeKind, 2) + Repeat(SelectOne, 2)
    + Repeat(DateKind, 2) + Repeat(Geoshape, 1) + Repeat(Note, 1)
  }

  lemma Swapped(s: seq<Kind>, i: nat, j: nat)
    requires i < |s| && j < |s|
    ensures multiset(s[i := s[j]][j := s[i]]) == multiset(s)
  {}

  /** The outputs of a seed, by number. */
  function Draws(seed: nat): nat -> nat { (n: nat) => Draw(seed, n) }

  function Exchanged(s: seq<Kind>, i: nat, j: nat): seq<Kind>
    requires i < |s| && j < |s|
  {
    s[i := s[j]][j := s[i]]
  }

  /** Fisher-Yates from position i down, with the draws that come after `draws`. */
  function Shuffled(s: seq<Kind>, i: int, draw: nat -> nat, draws: nat): seq<Kind>
    requires i < |s|
    decreases i
  {
    if i <= 0 then s else Shuffled(Exchanged(s, i, draw(draws + 1) % (i + 1)), i - 1, draw, draws + 1)
  }

  lemma {:induction false} ShuffledRearranges(s: seq<Kind>, i: int, draw: nat -> nat, draws: nat)
    requires i < |s|
    ensures |Shuffled(s, i, draw, draws)| == |s| && multiset(Shuffled(s, i, draw, draws)) == multiset(s)
    decreases i
  {
    if i > 0 {
      var j := draw(draws + 1) % (i + 1);
      Swapped(s, i, j);
      ShuffledRearranges(Exchanged(s, i, j), i - 1, draw, draws + 1);
    }
  }

  /** Only the draws still to come matter. */
  lemma {:induction false} LaterDrawsOnly(s: seq<Kind>, i: int, draw: nat -> nat, draw': nat -> nat, draws: nat)
    requires i < |s| && forall n: nat | n > draws :: draw(n) == draw'(n)
    ensures Shuffled(s, i, draw, draws) == Shuffled(s, i, draw', draws)
    decreases i
  {
    if i > 0 {
      LaterDrawsOnly(Exchanged(s, i, draw(draws + 1) % (i + 1)), i - 1, draw, draw', draws + 1);
    }
  }

  /** The draws with the next one given. */
  function Before(draw: nat -> nat, next: nat, j: nat): nat -> nat
  {
    (n: nat) => if n == next then j else draw(n)
  }

  /** Every arrangement of the entries up to position i can come out: no order is out of the shuffle's reach. */
  lemma {:induction false} EveryArrangement(s: seq<Kind>, i: int, draws: nat, target: seq<Kind>) returns (draw: nat -> nat)
    requires -1 <= i < |s| == |target| && multiset(s[..i + 1]) == multiset(target[..i + 1]) && s[i + 1..] == target[i + 1..]
    ensures Shuffled(s, i, draw, draws) == target
    decreases i
  {
    draw := (n: nat) => 0;
    if i <= 0 {
      NothingToChoose(s, i, target);
      assert Shuffled(s, i, draw, draws) == s;
    } else {
      hide Shuffled, Exchanged;
      var j := Chosen(s, i, target);
      var next := Exchanged(s, i, j);
      ChosenStands(s, i, j, target);
      assert i - 1 + 1 == i;
      var rest := EveryArrangement(next, i - 1, draws + 1, target);
      draw := Before(rest, draws + 1, j);
      ShuffledOne(s, i, rest, draws, j);
    }
  }

  lemma ShuffledOne(s: seq<Kind>, i: nat, rest: nat -> nat, draws: nat, j: nat)
    requires 0 < i < |s| && j <= i
    ensures Shuffled(s, i, Before(rest, draws + 1, j), draws) == Shuffled(Exchanged(s, i, j), i - 1, rest, draws + 1)
  {
    assert j % (i + 1) == j;
    LaterDrawsOnly(Exchanged(s, i, j), i - 1, Before(rest, draws + 1, j), rest, draws + 1);
  }

  lemma NothingToChoose(s: seq<Kind>, i: int, target: seq<Kind>)
    requires -1 <= i <= 0 && i < |s| == |target|
    requires multiset(s[..i + 1]) == multiset(target[..i + 1]) && s[i + 1..] == target[i + 1..]
    ensures s == target
  {
    if i == 0 {
      OneLeft(s, target);
    } else {
      assert i + 1 == 0;
      assert s[0..] == s && target[0..] == target;
    }
  }

  lemma OneLeft(s: seq<Kind>, target: seq<Kind>)
    requires |s| == |target| > 0 && multiset(s[..1]) == multiset(target[..1]) && s[1..] == target[1..]
    ensures s == target
  {
    var a, b := s[0], target[0];
    assert s[..1] == [a] && target[..1] == [b];
    SingleBag(a, b);
    assert s == [a] + s[1..] && target == [b] + target[1..];
  }

  lemma SingleBag(a: Kind, b: Kind)
    requires multiset([a]) == multiset([b])
    ensures a == b
  {
    assert a in multiset([b]);
  }

  /** An entry, not after position i, that is to end there. */
  lemma Chosen(s: seq<Kind>, i: nat, target: seq<Kind>) returns (j: nat)
    requires i < |s| == |target| && multiset(s[..i + 1]) == multiset(target[..i + 1])
    ensures j <= i && s[j] == target[i]
  {
    assert target[..i + 1][i] == target[i];
    assert target[i] in multiset(target[..i + 1]);
    assert target[i] in s[..i + 1];
    j :| 0 <= j < i + 1 && s[..i + 1][j] == target[i];
  }

  lemma ChosenStands(s: seq<Kind>, i: nat, j: nat, target: seq<Kind>)
    requires j <= i < |s| == |target| && s[j] == target[i]
    requires multiset(s[..i + 1]) == multiset(target[..i + 1]) && s[i + 1..] == target[i + 1..]
    ensures multiset(Exchanged(s, i, j)[..i]) == multiset(target[..i])
    ensures Exchanged(s, i, j)[i..] == target[i..]
  {
    var next := Exchanged(s, i, j);
    Swapped(s[..i + 1], i, j);
    assert next[..i + 1] == Exchanged(s[..i + 1], i, j);
    WithoutLast(next[..i + 1], target[..i + 1]);
    assert next[..i + 1][..i] == next[..i] && target[..i + 1][..i] == target[..i];
    assert next[i..] == [next[i]] + s[i + 1..] && target[i..] == [target[i]] + target[i + 1..];
  }

  lemma WithoutLast(a: seq<Kind>, b: seq<Kind>)
    requires |a| == |b| > 0 && multiset(a) == multiset(b) && a[|a| - 1] == b[|b| - 1]
    ensures multiset(a[..|a| - 1]) == multiset(b[..|b| - 1])
  {
    var c := a[|a| - 1];
    assert a == a[..|a| - 1] + [c] && b == b[..|b| - 1] + [c];
    assert multiset(a[..|a| - 1]) == multiset(a) - multiset{c};
  }

  /** Fisher-Yates with the generator's own numbers: what comes out is decided by its outputs. */
  method Shuffle(pool: array<Kind>, rng: Rng)
    requires rng.Valid()
    modifies pool, rng
    ensures rng.Valid()
    ensures pool[..] == Shuffled(old(pool[..]), pool.Length - 1, Draws(rng.seed), old(rng.draws))
  {
    hide Draw;
    hide StateAfter;
    var i := pool.Length - 1;
    ghost var goal := Shuffled(pool[..], i, Draws(rng.seed), rng.draws);
    while i > 0
      invariant -1 <= i < pool.Length && rng.Valid()
      invariant goal == Shuffled(pool[..], i, Draws(rng.seed), rng.draws)
    {
      var j := rng.Below(i + 1);
      ghost var before := pool[..];
      pool[i], pool[j] := pool[j], pool[i];
      assert pool[..] == Exchanged(before, i, j);
      i := i - 1;
    }
  }

  /** `type_pool`: the census, shuffled; each type as often as the census has it. */
  method TypePool(rng: Rng) returns (pool: array<Kind>)
    requires rng.Valid()
    modifies rng
    ensures rng.Valid() && fresh(pool) && pool.Length == 2128
    ensures pool[..] == Shuffled(Census(), |Census()| - 1, Draws(rng.seed), old(rng.draws))
    ensures multiset(pool[..]) == multiset(Census())
  {
    var census := Census();
    pool := new Kind[|census|](i requires 0 <= i < |census| => census[i]);
    assert pool[..] == census;
    hide Draw;
    ghost var draws := rng.draws;
    Shuffle(pool, rng);
    ShuffledRearranges(census, |census| - 1, Draws(rng.seed), draws);
  }
}
