/**
 * The whole questionnaire: the shuffled pool of types with two external lists put in, cut
 * into sections, two of them with a roster, and written out row by row.
 */
module ScaleForm {
  import opened Options
  import opened ScaleBuild
  import opened ScalePlan
  import opened SplitMix

  const SECTIONS := 95
  const OPTIONS := 7080
  const QUESTIONS := 2128

  // ------------------------------------------------------- the external lists

  /** The first single selection at `from` or after it, or the end of the pool. */
  function FirstSelect(pool: seq<Kind>, from: nat): (slot: nat)
    requires from <= |pool|
    ensures from <= slot <= |pool|
    ensures slot < |pool| ==> pool[slot] == SelectOne
    ensures forall i | from <= i < slot :: pool[i] != SelectOne
    decreases |pool| - from
  {
    if from == |pool| || pool[from] == SelectOne then from else FirstSelect(pool, from + 1)
  }

  /** The pool with one single selection made external, or nothing when there is none left. */
  function External(pool: seq<Kind>, from: nat, external: Kind): Option<seq<Kind>>
    requires from <= |pool|
  {
    var slot := FirstSelect(pool, from);
    if slot == |pool| then None else Some(pool[slot := external])
  }

  /** `next(...)`: it finds the slot by looking at one position after the other. */
  method PutExternal(pool: array<Kind>, wanted: nat, external: Kind) returns (found: bool)
    requires wanted <= pool.Length
    modifies pool
    ensures found == External(old(pool[..]), wanted, external).Some?
    ensures pool[..] == if found then External(old(pool[..]), wanted, external).value else old(pool[..])
  {
    var i := wanted;
    while i < pool.Length && pool[i] != SelectOne
      invariant wanted <= i <= pool.Length
      invariant FirstSelect(pool[..], wanted) == FirstSelect(pool[..], i)
    {
      i := i + 1;
    }
    found := i < pool.Length;
    if found { pool[i] := external; }
  }

  /** The first single selection at the place wanted or after it is replaced, and nothing else; without one, nothing. */
  lemma ExternalExactly(pool: seq<Kind>, wanted: nat, external: Kind)
    requires wanted <= |pool|
    ensures External(pool, wanted, external).None? <==> SelectOne !in pool[wanted..]
    ensures External(pool, wanted, external).Some? ==>
      exists i | wanted <= i < |pool| ::
        pool[i] == SelectOne && SelectOne !in pool[wanted..i] && External(pool, wanted, external).value == pool[i := external]
  {
    var slot := FirstSelect(pool, wanted);
    if slot < |pool| {
      assert pool[slot] == pool[wanted..][slot - wanted];
      assert SelectOne !in pool[wanted..slot];
    } else {
      assert SelectOne !in pool[wanted..];
    }
  }

  /** Both external lists, the school's first. */
  function WithExternals(pool: seq<Kind>): Option<seq<Kind>>
    requires |pool| >= 1904
  {
    match External(pool, 311, School)
    case None => None
    case Some(pool') => External(pool', 1904, HealthFacility)
  }

  lemma {:induction false} RepeatCounts(kind: Kind, count: nat, other: Kind)
    ensures multiset(Repeat(kind, count))[other] == if kind == other then count else 0
  {
    if count > 0 {
      assert Repeat(kind, count) == Repeat(kind, count - 1) + [kind];
      RepeatCounts(kind, count - 1, other);
    }
  }

  /** The census, type by type. */
  lemma CensusCounts(kind: Kind)
    ensures multiset(Census())[kind] == match kind
      case SelectOne => 1466
      case SelectMultiple => 153
      case TextKind => 196
      case IntegerKind => 170
      case DecimalKind => 64
      case PersonId => 73
      case TimeKind => 2
      case DateKind => 2
      case Geoshape => 1
      case Note => 1
      case _ => 0
  {
    RepeatCounts(SelectOne, 1461, kind);
    RepeatCounts(TextKind, 191, kind);
    RepeatCounts(IntegerKind, 170, kind);
    RepeatCounts(DecimalKind, 64, kind);
    RepeatCounts(SelectMultiple, 88, kind);
    RepeatCounts(PersonId, 73, kind);
    RepeatCounts(SelectMultiple, 65, kind);
    RepeatCounts(TextKind, 5, kind);
    RepeatCounts(SelectOne, 3, kind);
    RepeatCounts(TimeKind, 2, kind);
    RepeatCounts(SelectOne, 2, kind);
    RepeatCounts(DateKind, 2, kind);
    RepeatCounts(Geoshape, 1, kind);
    RepeatCounts(Note, 1, kind);
  }

  lemma Members(a: seq<Kind>, n: nat, kind: Kind)
    requires n <= |a|
    ensures multiset(a)[kind] == multiset(a[..n])[kind] + multiset(a[n..])[kind]
    ensures multiset(a[..n])[kind] <= n
  {
    assert a == a[..n] + a[n..];
    assert multiset(a[..n])[kind] <= |multiset(a[..n])|;
  }

  lemma Replaced(pool: seq<Kind>, slot: nat, kind: Kind)
    requires slot < |pool|
    ensures multiset(pool[slot := kind]) == multiset(pool) - multiset{pool[slot]} + multiset{kind}
  {}

  /** The school's slot is always there: the census has more single selections than fit before it. */
  lemma SchoolFits(pool: seq<Kind>)
    requires |pool| == QUESTIONS && multiset(pool) == multiset(Census())
    ensures FirstSelect(pool, 311) < |pool|
  {
    CensusCounts(SelectOne);
    Members(pool, 311, SelectOne);
    assert SelectOne in pool[311..];
    var i :| 0 <= i < |pool[311..]| && pool[311..][i] == SelectOne;
    assert pool[311 + i] == SelectOne;
  }

  /** The health facility's slot is there exactly when one is left at 1904 or later. */
  lemma ExternalsExactly(pool: seq<Kind>)
    requires |pool| == QUESTIONS && multiset(pool) == multiset(Census())
    ensures WithExternals(pool).None? <==>
      forall i | 1904 <= i < |pool| && pool[i] == SelectOne :: i == FirstSelect(pool, 311)
  {
    SchoolFits(pool);
    var school := FirstSelect(pool, 311);
    var pool' := pool[school := School];
    var facility := FirstSelect(pool', 1904);
    if facility < |pool'| {
      assert pool[facility] == SelectOne && facility != school;
    } else {
      forall i | 1904 <= i < |pool| && pool[i] == SelectOne ensures i == school {
        assert pool'[i] == if i == school then School else SelectOne;
      }
    }
  }

  /** What is asked in the end: the census, two single selections of it turned external. */
  ghost function Asked(): multiset<Kind>
  {
    multiset(Census()) - multiset{SelectOne, SelectOne} + multiset{School, HealthFacility}
  }

  lemma TwoReplaced(census: multiset<Kind>, one: multiset<Kind>, two: multiset<Kind>)
    requires census[SelectOne] >= 2
    requires one == census - multiset{SelectOne} + multiset{School}
    requires two == one - multiset{SelectOne} + multiset{HealthFacility}
    ensures two == census - multiset{SelectOne, SelectOne} + multiset{School, HealthFacility}
  {
    forall kind ensures two[kind] == (census - multiset{SelectOne, SelectOne} + multiset{School, HealthFacility})[kind] {
      assert one[kind] == if kind == SelectOne then census[kind] - 1 else if kind == School then census[kind] + 1 else census[kind];
    }
  }

  lemma SelectsReplaced(census: multiset<Kind>, two: multiset<Kind>)
    requires census[SelectOne] >= 2
    requires two == census - multiset{SelectOne, SelectOne} + multiset{School, HealthFacility}
    ensures two[SelectOne] == census[SelectOne] - 2 && two[SelectMultiple] == census[SelectMultiple]
  {}

  lemma ExternalsCount(pool: seq<Kind>)
    requires |pool| == QUESTIONS && multiset(pool) == multiset(Census()) && WithExternals(pool).Some?
    ensures |WithExternals(pool).value| == QUESTIONS && multiset(WithExternals(pool).value) == Asked()
    ensures CountSelects(WithExternals(pool).value) == 1617
  {
    var school := FirstSelect(pool, 311);
    var pool' := pool[school := School];
    var facility := FirstSelect(pool', 1904);
    var pool'' := pool'[facility := HealthFacility];
    CensusCounts(SelectOne);
    CensusCounts(SelectMultiple);
    Counted(pool, school, facility, pool', pool'');
    SelectsAreMembers(pool'');
  }

  lemma Counted(pool: seq<Kind>, school: nat, facility: nat, pool': seq<Kind>, pool'': seq<Kind>)
    requires school < |pool| && pool[school] == SelectOne && pool' == pool[school := School]
    requires facility < |pool| && pool'[facility] == SelectOne && pool'' == pool'[facility := HealthFacility]
    requires multiset(pool) == multiset(Census()) && multiset(Census())[SelectOne] >= 2
    ensures multiset(pool'') == Asked()
    ensures multiset(pool'')[SelectOne] == multiset(Census())[SelectOne] - 2
    ensures multiset(pool'')[SelectMultiple] == multiset(Census())[SelectMultiple]
  {
    Replaced(pool, school, School);
    Replaced(pool', facility, HealthFacility);
    TwoReplaced(multiset(Census()), multiset(pool'), multiset(pool''));
    SelectsReplaced(multiset(Census()), multiset(pool''));
  }

  // ----------------------------------------------------------------- sections

  function WithGateFirst(types: seq<Kind>): seq<Kind>
  {
    var slot := FirstSelect(types, 0);
    if slot == |types| then types else types[0 := types[slot]][slot := types[0]]
  }

  /** The first single selection of a section, if it has one, is swapped to its front. */
  method GateFirst(types: array<Kind>)
    modifies types
    ensures multiset(types[..]) == multiset(old(types[..]))
    ensures SelectOne in old(types[..]) ==> types.Length > 0 && types[0] == SelectOne
    ensures SelectOne !in old(types[..]) ==> types[..] == old(types[..])
    ensures SelectOne in old(types[..]) ==> exists k | 0 <= k < types.Length ::
              && old(types[k]) == SelectOne && SelectOne !in old(types[..])[..k] && types[k] == old(types[0])
              && forall i | 0 < i < types.Length && i != k :: types[i] == old(types[i])
    ensures types[..] == WithGateFirst(old(types[..]))
  {
    var position := 0;
    while position < types.Length && types[position] != SelectOne
      invariant position <= types.Length && SelectOne !in types[..position]
      invariant FirstSelect(types[..], 0) == FirstSelect(types[..], position)
    {
      position := position + 1;
    }
    if position < types.Length {
      ghost var before := types[..];
      types[0], types[position] := types[position], types[0];
      assert types[..] == before[0 := before[position]][position := before[0]];
      Swapped(before, 0, position);
    } else {
      assert types[..position] == types[..];
    }
  }

  /** Where a section's roster starts and how long it is. */
  function RosterSize(size: nat): nat
    requires size >= 3
  {
    var at := RosterAt(size);
    if size - at - 1 < 16 then size - at - 1 else 16
  }

  function RosterAt(size: nat): nat { if size / 3 < 6 then size / 3 else 6 }

  const ROSTER_SECTIONS := {2, 47}

  lemma {:induction false} SumUpTo(s: seq<int>, n: nat)
    requires n <= |s| && forall x <- s :: x >= 0
    ensures 0 <= Sum(s[..n]) <= Sum(s)
  {
    if n > 0 {
      assert s[..n][1..] == s[1..][..n - 1];
      assert s[0] in s;
      assert forall x <- s[1..] :: x in s;
      SumUpTo(s[1..], n - 1);
    } else if s != [] {
      assert s[0] in s;
      assert forall x <- s[1..] :: x in s;
      SumUpTo(s[1..], 0);
    }
  }

  function Weight(i: nat): nat { 3 + i * 7 % 31 + if i % 9 == 0 then 12 else 0 }

  function Weights(count: nat): seq<nat> { seq(count, i requires i >= 0 => Weight(i)) }

  /** The sizes are uneven as the weights are. */
  ghost predicate Uneven(sizes: seq<int>)
  {
    |sizes| == SECTIONS && Sum(Weights(|sizes|)) > 0 && FollowsWeights(sizes, Weights(|sizes|), QUESTIONS, 3)
  }

  lemma {:induction false} SumPositive(s: seq<int>)
    requires s != [] && forall x <- s :: x >= 3
    ensures Sum(s) > 0
  {
    assert s[0] in s;
    if |s| > 1 {
      assert forall x <- s[1..] :: x in s;
      SumPositive(s[1..]);
    }
  }

  /** How many inline lists the pool needs. */
  method InlineLists(pool: array<Kind>) returns (lists: nat)
    ensures lists == CountSelects(pool[..])
  {
    lists := 0;
    for i := 0 to pool.Length
      invariant lists + CountSelects(pool[..][i..]) == CountSelects(pool[..])
    {
      Further([], pool[..], i);
      if IsSelect(pool[i]) { lists := lists + 1; }
    }
  }

  /** Each section's share follows those before it and stays within the whole. */
  lemma SharesFit(sizes: seq<int>, n: nat)
    requires n < |sizes| && forall x <- sizes :: x >= 3
    ensures 0 <= Sum(sizes[..n]) && Sum(sizes[..n + 1]) == Sum(sizes[..n]) + sizes[n] && sizes[n] >= 3
    ensures Sum(sizes[..n + 1]) <= Sum(sizes)
  {
    SumUpTo(sizes, n);
    SumUpTo(sizes, n + 1);
    SumSnoc(sizes, n);
    assert sizes[n] in sizes;
  }

  /** What the pool has for one section. */
  function Share(pool: seq<Kind>, sizes: seq<int>, n: nat): seq<Kind>
    requires n < |sizes| && (forall x <- sizes :: x >= 3) && Sum(sizes) == |pool|
  {
    SharesFit(sizes, n);
    pool[Sum(sizes[..n])..Sum(sizes[..n]) + sizes[n]]
  }

  /** The questions of the first n sections: each section's share of the pool, its gate swapped to the front. */
  function Arranged(pool: seq<Kind>, sizes: seq<int>, n: nat): seq<Kind>
    requires n <= |sizes| && (forall x <- sizes :: x >= 3) && Sum(sizes) == |pool|
  {
    if n == 0 then [] else
      Arranged(pool, sizes, n - 1) + WithGateFirst(Share(pool, sizes, n - 1))
  }

  lemma GateKeepsMembers(types: seq<Kind>)
    ensures multiset(WithGateFirst(types)) == multiset(types)
  {
    var slot := FirstSelect(types, 0);
    if slot < |types| { Swapped(types, 0, slot); }
  }

  /** No entry of the pool is lost, doubled or invented by the arrangement. */
  lemma {:induction false} ArrangedMembers(pool: seq<Kind>, sizes: seq<int>, n: nat)
    requires n <= |sizes| && (forall x <- sizes :: x >= 3) && Sum(sizes) == |pool|
    ensures 0 <= Sum(sizes[..n]) <= |pool|
    ensures multiset(Arranged(pool, sizes, n)) == multiset(pool[..Sum(sizes[..n])])
  {
    SumUpTo(sizes, n);
    if n > 0 {
      ArrangedMembers(pool, sizes, n - 1);
      ShareMembers(pool, sizes, n - 1, Arranged(pool, sizes, n - 1));
    }
  }

  lemma ShareMembers(pool: seq<Kind>, sizes: seq<int>, n: nat, before: seq<Kind>)
    requires n < |sizes| && (forall x <- sizes :: x >= 3) && Sum(sizes) == |pool|
    requires 0 <= Sum(sizes[..n]) <= |pool| && multiset(before) == multiset(pool[..Sum(sizes[..n])])
    ensures 0 <= Sum(sizes[..n + 1]) <= |pool|
    ensures multiset(before + WithGateFirst(Share(pool, sizes, n))) == multiset(pool[..Sum(sizes[..n + 1])])
  {
    hide Sum, WithGateFirst;
    SharesFit(sizes, n);
    GateKeepsMembers(Share(pool, sizes, n));
    MembersOfTwo(pool, Sum(sizes[..n]), Sum(sizes[..n + 1]), before, WithGateFirst(Share(pool, sizes, n)));
  }

  lemma MembersOfTwo(pool: seq<Kind>, from: nat, to: nat, a: seq<Kind>, b: seq<Kind>)
    requires from <= to <= |pool|
    requires multiset(a) == multiset(pool[..from]) && multiset(b) == multiset(pool[from..to])
    ensures multiset(a + b) == multiset(pool[..to])
  {
    assert pool[..to] == pool[..from] + pool[from..to];
  }

  /** Some sizes of the sections, uneven as the weights are, none below three and all of the pool used up, arrange the pool like this. */
  ghost predicate LaidOut(kinds: seq<Kind>, pool: seq<Kind>)
  {
    exists sizes: seq<int> | |sizes| == SECTIONS && (forall x <- sizes :: x >= 3) && Sum(sizes) == |pool| && Uneven(sizes) ::
      kinds == Arranged(pool, sizes, SECTIONS)
  }

  /** Laid out, every entry of the pool is asked exactly once. */
  lemma LaidOutMembers(kinds: seq<Kind>, pool: seq<Kind>)
    requires LaidOut(kinds, pool)
    ensures multiset(kinds) == multiset(pool)
  {
    hide Uneven;
    var sizes: seq<int> :| |sizes| == SECTIONS && (forall x <- sizes :: x >= 3) && Sum(sizes) == |pool| && Uneven(sizes)
                           && kinds == Arranged(pool, sizes, SECTIONS);
    ArrangedMembers(pool, sizes, SECTIONS);
    assert sizes[..SECTIONS] == sizes && pool[..|pool|] == pool;
  }

  /** One section's rows, out of the next `size` types of the pool. */
  method SectionFrom(builder: Builder, types: array<Kind>, cursor: nat, size: nat, section: nat,
                     ghost pool: seq<Kind>, ghost share: seq<Kind>, ghost left: nat)
    requires builder.Valid() && builder.reading.frames == [] && builder.reading.scopes == []
    requires types[..] == pool && size >= 3 && cursor + size <= |pool| && share == pool[cursor..cursor + size]
    requires builder.listIndex + CountSelects(pool[cursor..]) == |builder.listSizes|
    requires left == CountSelects(pool[cursor + size..])
    modifies builder, builder.rng
    ensures builder.Valid() && builder.reading.frames == [] && builder.reading.scopes == []
    ensures builder.reading.kinds == old(builder.reading.kinds) + WithGateFirst(share)
    ensures builder.listIndex + left == |builder.listSizes|
    ensures builder.reading.sections == old(builder.reading.sections) + 1
    ensures builder.reading.rosters == old(builder.reading.rosters) + if section in ROSTER_SECTIONS then 1 else 0
  {
    var mine := new Kind[size](i requires 0 <= i < size && cursor + size <= types.Length reads types => types[cursor + i]);
    assert mine[..] == share;
    GateFirst(mine);
    SliceOut(pool, cursor, size, mine[..]);
    var at, length := 0, 0;
    if section in ROSTER_SECTIONS { at, length := RosterAt(size), RosterSize(size); }
    builder.SectionRows(mine[..], at, length, section == 2);
  }

  /** Taking a section's worth out of the pool: what selects are left. */
  lemma SliceOut(pool: seq<Kind>, cursor: nat, size: nat, types: seq<Kind>)
    requires cursor + size <= |pool| && multiset(types) == multiset(pool[cursor..cursor + size])
    ensures CountSelects(pool[cursor..]) == CountSelects(types) + CountSelects(pool[cursor + size..])
  {
    FurtherBy([], pool, cursor, size);
    SelectsAreMembers(types);
    SelectsAreMembers(pool[cursor..cursor + size]);
  }

  /** The pool a seed decides: the census, shuffled by the draws after the first `draws`. */
  function PoolOf(seed: nat, draws: nat): seq<Kind> { Shuffled(Census(), |Census()| - 1, Draws(seed), draws) }

  lemma PoolIsCensus(seed: nat, draws: nat)
    ensures |PoolOf(seed, draws)| == QUESTIONS && multiset(PoolOf(seed, draws)) == multiset(Census())
  {
    hide Draw;
    ShuffledRearranges(Census(), |Census()| - 1, Draws(seed), draws);
  }

  /** The shuffled pool with the external lists put in. */
  method Pool(rng: Rng) returns (types: array<Kind>, found: bool)
    requires rng.Valid()
    modifies rng
    ensures rng.Valid() && |PoolOf(rng.seed, old(rng.draws))| == QUESTIONS
    ensures found == WithExternals(PoolOf(rng.seed, old(rng.draws))).Some?
    ensures found ==> fresh(types) && types[..] == WithExternals(PoolOf(rng.seed, old(rng.draws))).value
    ensures found ==> types.Length == QUESTIONS && CountSelects(types[..]) == 1617
  {
    hide Draw;
    PoolIsCensus(rng.seed, rng.draws);
    types := TypePool(rng);
    ghost var pool := types[..];
    SchoolFits(pool);
    var school := PutExternal(types, 311, School);
    found := PutExternal(types, 1904, HealthFacility);
    if found { ExternalsCount(pool); }
  }

  method Sizes() returns (sizes: array<int>)
    ensures fresh(sizes) && sizes.Length == SECTIONS && Sum(sizes[..]) == QUESTIONS
    ensures forall x <- sizes[..] :: x >= 3
    ensures Uneven(sizes[..])
  {
    var weights := Weights(SECTIONS);
    SumPositive(weights);
    hide Sum, FollowsWeights, Weights;
    sizes := SectionSizes(weights, QUESTIONS, 3);
  }

  ghost predicate Shares(shares: seq<int>, pool: seq<Kind>)
  {
    |shares| == SECTIONS && (forall x <- shares :: x >= 3) && Sum(shares) == |pool|
  }

  /** After a number of sections: what is asked, and that the lists left are those the rest needs. */
  ghost predicate DoneUpTo(reading: Reading, listsLeft: int, pool: seq<Kind>, shares: seq<int>, sections: nat, cursor: nat)
    requires Shares(shares, pool)
  {
    && reading.frames == [] && reading.scopes == []
    && sections <= SECTIONS && cursor == Sum(shares[..sections]) && cursor <= |pool|
    && reading.kinds == Arranged(pool, shares, sections)
    && listsLeft == CountSelects(pool[cursor..])
    && reading.sections == sections
    && reading.rosters == (if sections > 2 then 1 else 0) + (if sections > 47 then 1 else 0)
  }

  ghost predicate SectionsDone(builder: Builder, pool: seq<Kind>, shares: seq<int>, sections: nat, cursor: nat)
    requires Shares(shares, pool)
    reads builder, builder.rng
  {
    builder.Valid() && DoneUpTo(builder.reading, |builder.listSizes| - builder.listIndex, pool, shares, sections, cursor)
  }

  lemma OneMoreSection(before: Reading, after: Reading, listsBefore: int, listsAfter: int,
                       pool: seq<Kind>, shares: seq<int>, section: nat, cursor: nat, size: nat)
    requires Shares(shares, pool) && section < SECTIONS && size == shares[section]
    requires DoneUpTo(before, listsBefore, pool, shares, section, cursor)
    requires cursor + size <= |pool|
    requires after.frames == [] && after.scopes == [] && listsAfter == CountSelects(pool[cursor + size..])
    requires after.kinds == before.kinds + WithGateFirst(Share(pool, shares, section))
    requires after.sections == before.sections + 1
    requires after.rosters == before.rosters + if section in ROSTER_SECTIONS then 1 else 0
    ensures DoneUpTo(after, listsAfter, pool, shares, section + 1, cursor + size)
  {
    SharesFit(shares, section);
  }

  lemma ShareAt(pool: seq<Kind>, shares: seq<int>, section: nat, cursor: nat)
    requires Shares(shares, pool) && section < SECTIONS && cursor == Sum(shares[..section])
    ensures shares[section] >= 3 && cursor + shares[section] <= |pool|
    ensures pool[cursor..cursor + shares[section]] == Share(pool, shares, section)
  {
    SharesFit(shares, section);
  }

  method NextSection(builder: Builder, types: array<Kind>, size: nat, section: nat, cursor: nat,
                     ghost pool: seq<Kind>, ghost shares: seq<int>)
    requires Shares(shares, pool) && types[..] == pool
    requires section < SECTIONS && size == shares[section]
    requires SectionsDone(builder, pool, shares, section, cursor)
    modifies builder, builder.rng
    ensures SectionsDone(builder, pool, shares, section + 1, cursor + size)
  {
    ShareAt(pool, shares, section, cursor);
    ghost var before, lists := builder.reading, |builder.listSizes| - builder.listIndex;
    ghost var left := CountSelects(pool[cursor + size..]);
    SectionFrom(builder, types, cursor, size, section, pool, Share(pool, shares, section), left);
    OneMoreSection(before, builder.reading, lists, left, pool, shares, section, cursor, size);
  }

  lemma NothingDone(pool: seq<Kind>, shares: seq<int>)
    requires Shares(shares, pool)
    ensures DoneUpTo(NOTHING, CountSelects(pool), pool, shares, 0, 0)
  {
    assert pool[0..] == pool && shares[..0] == [];
  }

  /** The sections, one after the other, until the pool is used up. */
  method WriteOut(builder: Builder, types: array<Kind>, sizes: array<int>)
    requires builder.Valid() && builder.reading == NOTHING
    requires Shares(sizes[..], types[..]) && CountSelects(types[..]) == |builder.listSizes|
    modifies builder, builder.rng
    ensures SectionsDone(builder, types[..], sizes[..], SECTIONS, types.Length)
  {
    var cursor: nat := 0;
    ghost var pool, shares := types[..], sizes[..];
    NothingDone(pool, shares);
    hide DoneUpTo, Arranged, Read, Sum;
    for section := 0 to SECTIONS
      invariant types[..] == pool && sizes[..] == shares
      invariant SectionsDone(builder, pool, shares, section, cursor)
    {
      assert sizes[section] == shares[section] && shares[section] in shares;
      NextSection(builder, types, sizes[section], section, cursor, pool, shares);
      cursor := cursor + sizes[section];
    }
    AllDone(builder.reading, |builder.listSizes| - builder.listIndex, pool, shares, cursor);
  }

  /** After the last section the pool is used up. */
  lemma AllDone(reading: Reading, listsLeft: int, pool: seq<Kind>, shares: seq<int>, cursor: nat)
    requires Shares(shares, pool) && DoneUpTo(reading, listsLeft, pool, shares, SECTIONS, cursor)
    ensures cursor == |pool|
  {
    assert shares[..SECTIONS] == shares;
  }

  /** What a reader makes of the finished survey: nothing left open, the pool laid out, 95 sections, two rosters. */
  ghost predicate Accepted(survey: seq<Row>, block: int, pool: seq<Kind>)
  {
    match Read(survey, block)
    case None => false
    case Some(reading) =>
      reading.frames == [] && LaidOut(reading.kinds, pool) && reading.sections == SECTIONS && reading.rosters == 2
  }

  /** The builder, filled from a pool that the option total suffices for. */
  method FromPool(rng: Rng, types: array<Kind>, block: int) returns (builder: Builder)
    requires rng.Valid() && types.Length == QUESTIONS && 0 < CountSelects(types[..]) <= OPTIONS / 2
    modifies rng
    ensures fresh(builder) && |builder.choices| == OPTIONS
    ensures Accepted(builder.survey, block, types[..])
  {
    hide Uneven;
    var sizes := Sizes();
    var lists := InlineLists(types);
    var counts := OptionCounts(rng, lists, OPTIONS);
    builder := new Builder(rng, counts[..], block);
    WriteOut(builder, types, sizes);
    Finished(builder, types[..], sizes[..]);
  }

  lemma Finished(builder: Builder, pool: seq<Kind>, shares: seq<int>)
    requires Shares(shares, pool) && Uneven(shares) && SectionsDone(builder, pool, shares, SECTIONS, |pool|)
    ensures |builder.choices| == Sum(builder.listSizes) && Accepted(builder.survey, builder.block, pool)
  {
    hide Uneven;
    assert pool[|pool|..] == [] && builder.listSizes[..builder.listIndex] == builder.listSizes;
    assert LaidOut(builder.reading.kinds, pool) by {
      assert builder.reading.kinds == Arranged(pool, shares, SECTIONS);
    }
  }

  /**
   * `build`, for every seed, whatever was drawn before, and every block size. It fails
   * exactly when the pool the seed decides has no slot for the health facility. Otherwise
   * every entry of that pool, the external lists in it, is asked exactly once, section by
   * section in the pool's order, the choices number exactly the option total, and a reader
   * of the survey accepts every row.
   */
  method Build(rng: Rng, block: int) returns (builder: Builder?)
    requires rng.Valid()
    modifies rng
    ensures |PoolOf(rng.seed, old(rng.draws))| == QUESTIONS
    ensures builder == null <==> WithExternals(PoolOf(rng.seed, old(rng.draws))).None?
    ensures builder != null ==> fresh(builder) && |builder.choices| == OPTIONS
    ensures builder != null ==>
              Accepted(builder.survey, block, WithExternals(PoolOf(rng.seed, old(rng.draws))).value)
  {
    var types, found := Pool(rng);
    if !found { return null; }
    builder := FromPool(rng, types, block);
  }

  /** When a generator's build fails, said of its pool; and what it asks when it does not. */
  lemma BuildFailsExactly(seed: nat, draws: nat)
    ensures |PoolOf(seed, draws)| == QUESTIONS
    ensures WithExternals(PoolOf(seed, draws)).None? <==>
      forall i | 1904 <= i < QUESTIONS && PoolOf(seed, draws)[i] == SelectOne :: i == FirstSelect(PoolOf(seed, draws), 311)
    ensures WithExternals(PoolOf(seed, draws)).Some? ==> multiset(WithExternals(PoolOf(seed, draws)).value) == Asked()
  {
    PoolIsCensus(seed, draws);
    ExternalsExactly(PoolOf(seed, draws));
    if WithExternals(PoolOf(seed, draws)).Some? { ExternalsCount(PoolOf(seed, draws)); }
  }
}
