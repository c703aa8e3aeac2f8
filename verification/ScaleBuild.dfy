/**
 * Building the questionnaire, row by row: sections, rosters and field-list blocks, a list of
 * options for every select question, and conditions that read earlier answers.
 */
module ScaleBuild {
  import opened Options
  import opened SplitMix
  import opened ScalePlan

  /** A survey row; a question is known by its number, and carries what it reads. */
  datatype Row =
    | BeginGroup(fieldList: bool)
    | EndGroup
    | BeginRepeat(counter: Option<nat>)
    | EndRepeat
    | Ask(number: nat, kind: Kind, relevant: seq<nat>, prefill: Option<nat>)

  /** A row of the choices sheet: an option of a question's own list. */
  datatype Choice = Choice(question: nat, option: nat)

  // ------------------------------------------------------- what a row may read

  predicate IsSelect(kind: Kind) { kind.SelectOne? || kind.SelectMultiple? }

  predicate IsNumeric(kind: Kind) { kind.IntegerKind? || kind.DecimalKind? }

  /** What a condition or a prefilled value is after. */
  datatype Wanted = ASelect | ANumber | AText

  predicate Is(kind: Kind, wanted: Wanted)
  {
    match wanted
    case ASelect => IsSelect(kind)
    case ANumber => IsNumeric(kind)
    case AText => kind.TextKind?
  }

  /** Question q - the q-th asked - stands among `kinds` and answers what is wanted. */
  predicate Source(q: nat, kinds: seq<Kind>, wanted: Wanted)
  {
    1 <= q <= |kinds| && Is(kinds[q - 1], wanted)
  }

  predicate AreAll(numbers: seq<nat>, kinds: seq<Kind>, wanted: Wanted)
  {
    forall q <- numbers :: Source(q, kinds, wanted)
  }

  lemma StillAll(numbers: seq<nat>, kinds: seq<Kind>, kind: Kind, wanted: Wanted)
    requires AreAll(numbers, kinds, wanted)
    ensures AreAll(numbers, kinds + [kind], wanted)
    ensures Is(kind, wanted) ==> AreAll(numbers + [|kinds| + 1], kinds + [kind], wanted)
  {}

  predicate Prefills(q: nat, kinds: seq<Kind>) { Source(q, kinds, ANumber) || Source(q, kinds, AText) }

  /**
   * A question's row, given the kinds asked before it: it is numbered in order; its
   * condition reads selects and numbers asked before it, or itself where it is a number;
   * a person's id may be prefilled from a number or a text asked before it.
   */
  predicate ReadsBack(row: Row, kinds: seq<Kind>)
    requires row.Ask?
  {
    && row.number == |kinds| + 1
    && (forall r <- row.relevant :: Source(r, kinds, ASelect) || Source(r, kinds + [row.kind], ANumber))
    && (row.prefill.Some? ==> row.kind.PersonId? && Prefills(row.prefill.value, kinds))
  }

  // ------------------------------------------------------- reading a survey

  datatype Frame = Section | Block | Roster

  /** What a reader of the survey knows: the kinds asked, what is open (innermost last), how
      many questions stand since the last group began, how many were selects, and which
      questions stand in each section and roster that is open; and the sections and rosters so far. */
  datatype Reading = Reading(kinds: seq<Kind>, frames: seq<Frame>, held: nat, selects: nat, scopes: seq<set<nat>>,
                             sections: nat, rosters: nat)

  const NOTHING := Reading([], [], 0, 0, [], 0, 0)

  function Capacity(block: int): nat { if block < 1 then 1 else block }

  /** A condition reads its own section or roster, and nothing outside it. */
  predicate StaysInScope(row: Row, scopes: seq<set<nat>>)
    requires row.Ask?
  {
    scopes != [] && forall r <- row.relevant :: r in scopes[|scopes| - 1] || r == row.number
  }

  /** The scopes once a question stands in the innermost one. */
  function Joining(scopes: seq<set<nat>>, number: nat): seq<set<nat>>
    requires scopes != []
  {
    scopes[..|scopes| - 1] + [scopes[|scopes| - 1] + {number}]
  }

  /**
   * The next row, or nothing if it may not stand there: an end closes what it names; a
   * roster never stands in a roster or in a block, and counts on a number asked before it;
   * a block holds no more questions than its capacity; a question stands in a section and
   * reads only what it may.
   */
  function Next(reading: Reading, row: Row, block: int): Option<Reading>
  {
    var Reading(kinds, frames, held, selects, scopes, sections, rosters) := reading;
    match row
    case BeginGroup(fieldList) =>
      if fieldList then
        (if block == 0 then None else Some(reading.(frames := frames + [Block], held := 0)))
      else Some(reading.(frames := frames + [Section], held := 0, scopes := scopes + [{}], sections := sections + 1))
    case BeginRepeat(counter) =>
      if Roster in frames || Block in frames || (counter.Some? && !Source(counter.value, kinds, ANumber)) then None
      else Some(reading.(frames := frames + [Roster], scopes := scopes + [{}], rosters := rosters + 1))
    case EndGroup =>
      if frames == [] || frames[|frames| - 1].Roster? then None
      else if frames[|frames| - 1].Block? then Some(reading.(frames := frames[..|frames| - 1]))
      else if scopes == [] then None
      else Some(reading.(frames := frames[..|frames| - 1], scopes := scopes[..|scopes| - 1]))
    case EndRepeat =>
      if frames == [] || !frames[|frames| - 1].Roster? || scopes == [] then None
      else Some(reading.(frames := frames[..|frames| - 1], scopes := scopes[..|scopes| - 1]))
    case Ask(number, kind, _, _) =>
      if !ReadsBack(row, kinds) || !StaysInScope(row, scopes) || (Block in frames && held >= Capacity(block)) then None
      else Some(Reading(kinds + [kind], frames, held + 1, selects + (if IsSelect(kind) then 1 else 0),
                        Joining(scopes, number), sections, rosters))
  }

  function Read(rows: seq<Row>, block: int): Option<Reading>
  {
    if rows == [] then Some(NOTHING) else
      match Read(rows[..|rows| - 1], block)
      case None => None
      case Some(reading) => Next(reading, rows[|rows| - 1], block)
  }

  lemma ReadSnoc(rows: seq<Row>, row: Row, block: int)
    requires Read(rows, block).Some?
    ensures Read(rows + [row], block) == Next(Read(rows, block).value, row, block)
  {
    assert (rows + [row])[..|rows|] == rows;
  }

  function Kinds(rows: seq<Row>): seq<Kind>
  {
    if rows == [] then [] else
      Kinds(rows[..|rows| - 1]) + (if rows[|rows| - 1].Ask? then [rows[|rows| - 1].kind] else [])
  }

  /** One accepted row adds the kind it asks, and stands only where it may. */
  lemma AcceptedRow(reading: Reading, row: Row, block: int)
    requires Next(reading, row, block).Some?
    ensures Next(reading, row, block).value.kinds == reading.kinds + if row.Ask? then [row.kind] else []
    ensures row.Ask? ==> ReadsBack(row, reading.kinds) && StaysInScope(row, reading.scopes)
    ensures row.BeginRepeat? ==> Roster !in reading.frames && Block !in reading.frames
  {}

  lemma {:induction false} ReadKinds(rows: seq<Row>, block: int)
    requires Read(rows, block).Some?
    ensures Read(rows, block).value.kinds == Kinds(rows)
  {
    if rows != [] {
      var front := rows[..|rows| - 1];
      ReadKinds(front, block);
      AcceptedRow(Read(front, block).value, rows[|rows| - 1], block);
      hide Next;
    }
  }

  lemma {:induction false} ReadPrefix(rows: seq<Row>, block: int, i: nat)
    requires Read(rows, block).Some? && i <= |rows|
    ensures Read(rows[..i], block).Some?
    decreases |rows|
  {
    hide Next;
    if i < |rows| {
      ReadPrefix(rows[..|rows| - 1], block, i);
      assert rows[..|rows| - 1][..i] == rows[..i];
    } else {
      assert rows[..i] == rows;
    }
  }

  /** What reading a survey to its end says about every row of it. */
  lemma ReadToTheEnd(rows: seq<Row>, block: int, i: nat)
    requires Read(rows, block).Some? && i < |rows|
    ensures Read(rows, block).value.kinds == Kinds(rows)
    ensures rows[i].Ask? ==> ReadsBack(rows[i], Kinds(rows[..i]))
    ensures Read(rows[..i], block).Some? && Next(Read(rows[..i], block).value, rows[i], block).Some?
    ensures rows[i].Ask? ==> StaysInScope(rows[i], Read(rows[..i], block).value.scopes)
    ensures rows[i].BeginRepeat? ==> Roster !in Read(rows[..i], block).value.frames && Block !in Read(rows[..i], block).value.frames
  {
    hide Next, ReadsBack, StaysInScope;
    ReadKinds(rows, block);
    ReadPrefix(rows, block, i);
    ReadPrefix(rows, block, i + 1);
    assert rows[..i + 1][..i] == rows[..i];
    ReadKinds(rows[..i], block);
    AcceptedRow(Read(rows[..i], block).value, rows[i], block);
  }

  // ------------------------------------------------------- counting selects

  function CountSelects(kinds: seq<Kind>): nat
  {
    if kinds == [] then 0 else (if IsSelect(kinds[0]) then 1 else 0) + CountSelects(kinds[1..])
  }

  lemma {:induction false} SelectsAreMembers(kinds: seq<Kind>)
    ensures CountSelects(kinds) == multiset(kinds)[SelectOne] + multiset(kinds)[SelectMultiple]
  {
    if kinds != [] {
      SelectsAreMembers(kinds[1..]);
      assert kinds == [kinds[0]] + kinds[1..];
    }
  }

  lemma {:induction false} SelectsAppend(a: seq<Kind>, b: seq<Kind>)
    ensures CountSelects(a + b) == CountSelects(a) + CountSelects(b)
  {
    SelectsAreMembers(a);
    SelectsAreMembers(b);
    SelectsAreMembers(a + b);
  }

  lemma {:induction false} SumSnoc(s: seq<int>, n: nat)
    requires n < |s|
    ensures Sum(s[..n + 1]) == Sum(s[..n]) + s[n]
  {
    if n == 0 {
      assert s[..1] == [s[0]];
      assert [s[0]][1..] == [];
    } else {
      assert s[..n + 1][1..] == s[1..][..n] && s[..n][1..] == s[1..][..n - 1];
      SumSnoc(s[1..], n - 1);
    }
  }

  // ---------------------------------------------------------------- scopes

  /** The questions of one scope - a section or a roster - that conditions may read. */
  datatype Scope = Scope(selects: seq<nat>, numerics: seq<nat>, texts: seq<nat>)

  const EMPTY_SCOPE := Scope([], [], [])

  predicate ScopeOk(scope: Scope, kinds: seq<Kind>)
  {
    && AreAll(scope.selects, kinds, ASelect)
    && AreAll(scope.numerics, kinds, ANumber)
    && AreAll(scope.texts, kinds, AText)
  }

  /** Every question of the scope stands in the innermost section or roster. */
  predicate Within(scope: Scope, scopes: seq<set<nat>>)
  {
    && scopes != []
    && (forall q <- scope.selects :: q in scopes[|scopes| - 1])
    && (forall q <- scope.numerics :: q in scopes[|scopes| - 1])
  }

  /** The scope once a question of this kind stands in it. */
  function Joined(scope: Scope, kind: Kind, number: nat): Scope
  {
    if IsSelect(kind) then scope.(selects := scope.selects + [number])
    else if IsNumeric(kind) then scope.(numerics := scope.numerics + [number])
    else if kind.TextKind? then scope.(texts := scope.texts + [number])
    else scope
  }

  lemma JoinedOk(scope: Scope, kinds: seq<Kind>, kind: Kind)
    requires ScopeOk(scope, kinds)
    ensures ScopeOk(Joined(scope, kind, |kinds| + 1), kinds + [kind])
  {
    StillAll(scope.selects, kinds, kind, ASelect);
    StillAll(scope.numerics, kinds, kind, ANumber);
    StillAll(scope.texts, kinds, kind, AText);
  }

  lemma StillOk(scope: Scope, kinds: seq<Kind>, more: seq<Kind>)
    requires ScopeOk(scope, kinds)
    ensures ScopeOk(scope, kinds + more)
  {}

  lemma JoinedWithin(scope: Scope, scopes: seq<set<nat>>, kind: Kind, number: nat)
    requires Within(scope, scopes)
    ensures Within(Joined(scope, kind, number), Joining(scopes, number))
  {}

  /** Sources out of the scope, the question's own number included, stand before the question. */
  lemma SourcesReadBack(row: Row, scope: Scope, kinds: seq<Kind>, scopes: seq<set<nat>>)
    requires row.Ask? && row.number == |kinds| + 1 && ScopeOk(scope, kinds) && Within(scope, scopes)
    requires var after := Joined(scope, row.kind, row.number);
             forall s <- row.relevant :: (s in after.selects && s != row.number) || s in after.numerics
    requires row.prefill.Some? ==> row.kind.PersonId? && Prefills(row.prefill.value, kinds)
    ensures ReadsBack(row, kinds) && StaysInScope(row, scopes)
  {
    JoinedOk(scope, kinds, row.kind);
    var after := Joined(scope, row.kind, row.number);
    forall r <- row.relevant ensures Source(r, kinds, ASelect) || Source(r, kinds + [row.kind], ANumber) {
      if r in after.selects && r != row.number { assert r in scope.selects; }
    }
  }

  function Except(numbers: seq<nat>, number: nat): (r: seq<nat>)
    ensures forall q <- r :: q in numbers && q != number
  {
    if numbers == [] then []
    else Except(numbers[..|numbers| - 1], number)
         + (if numbers[|numbers| - 1] == number then [] else [numbers[|numbers| - 1]])
  }

  /** The reading once a question of this kind is asked. */
  function Asked(reading: Reading, kind: Kind): Reading
    requires reading.scopes != []
  {
    Reading(reading.kinds + [kind], reading.frames, reading.held + 1,
            reading.selects + (if IsSelect(kind) then 1 else 0), Joining(reading.scopes, |reading.kinds| + 1),
            reading.sections, reading.rosters)
  }

  /** A question that reads what it may, where there is room for it, may stand next. */
  lemma MayAsk(reading: Reading, row: Row, block: int)
    requires row.Ask? && ReadsBack(row, reading.kinds) && StaysInScope(row, reading.scopes)
    requires Block in reading.frames ==> reading.held < Capacity(block)
    ensures Next(reading, row, block) == Some(Asked(reading, row.kind))
  {}

  // -------------------------------------------------------------- the builder

  class Builder {
    const rng: Rng
    const listSizes: seq<int>
    const block: int
    var survey: seq<Row>
    var choices: seq<Choice>
    var listIndex: nat
    var questionNumber: nat
    var numerics: seq<nat>
    var texts: seq<nat>
    ghost var reading: Reading

    ghost predicate ListsOk()
      reads this
    {
      && (forall size <- listSizes :: size >= 2)
      && listIndex <= |listSizes|
      && |choices| == Sum(listSizes[..listIndex])
    }

    ghost predicate Valid()
      reads this, rng
    {
      && rng.Valid() && ListsOk()
      && Read(survey, block) == Some(reading)
      && questionNumber == |reading.kinds| && listIndex == reading.selects
      && AreAll(numerics, reading.kinds, ANumber) && AreAll(texts, reading.kinds, AText)
    }

    constructor (rng: Rng, listSizes: seq<int>, block: int)
      requires rng.Valid() && forall size <- listSizes :: size >= 2
      ensures Valid() && survey == [] && choices == [] && reading == NOTHING
      ensures this.listSizes == listSizes && this.rng == rng && this.block == block
    {
      this.rng, this.listSizes, this.block := rng, listSizes, block;
      survey, choices, listIndex, questionNumber := [], [], 0, 0;
      numerics, texts, reading := [], [], NOTHING;
    }

    /** Draws that only pick label words. */
    method Labels(draws: nat)
      requires rng.Valid()
      modifies rng
      ensures rng.Valid()
    {
      for i := 0 to draws
        invariant rng.Valid()
      {
        var word := rng.Next();
      }
    }

    method Percent(p: nat) returns (yes: bool)
      requires rng.Valid()
      modifies rng
      ensures rng.Valid()
    {
      var roll := rng.Below(100);
      yes := roll < p;
    }

    /** A row that asks nothing. */
    method Mark(row: Row)
      requires Valid() && !row.Ask? && Next(reading, row, block).Some?
      modifies this`survey, this`reading
      ensures Valid() && survey == old(survey) + [row] && reading == Next(old(reading), row, block).value
    {
      ReadSnoc(survey, row, block);
      survey, reading := survey + [row], Next(reading, row, block).value;
    }

    /** One question's options. */
    method NewList(question: nat)
      requires rng.Valid() && ListsOk() && listIndex < |listSizes|
      modifies this`choices, this`listIndex, rng
      ensures rng.Valid() && ListsOk() && listIndex == old(listIndex) + 1
      ensures |choices| == |old(choices)| + listSizes[old(listIndex)] >= |old(choices)|
      ensures choices[..|old(choices)|] == old(choices)
      ensures forall i | |old(choices)| <= i < |choices| :: choices[i] == Choice(question, i - |old(choices)| + 1)
    {
      var size := listSizes[listIndex];
      assert size in listSizes;
      SumSnoc(listSizes, listIndex);
      listIndex := listIndex + 1;
      for position := 0 to size
        invariant rng.Valid() && listIndex == old(listIndex) + 1 && |choices| == |old(choices)| + position
        invariant choices[..|old(choices)|] == old(choices)
        invariant forall i | |old(choices)| <= i < |choices| :: choices[i] == Choice(question, i - |old(choices)| + 1)
      {
        Labels(6);
        choices := choices + [Choice(question, position + 1)];
      }
    }

    method Pick(numbers: seq<nat>) returns (picked: nat)
      requires rng.Valid() && numbers != []
      modifies rng
      ensures rng.Valid() && picked in numbers
    {
      var k := rng.Below(|numbers|);
      picked := numbers[k];
    }

    /** A condition on earlier answers of the scope; a number may be the question's own. */
    method Relevance(gate: nat, scope: Scope, number: nat) returns (sources: seq<nat>)
      requires rng.Valid() && gate in scope.selects && gate != number
      modifies rng
      ensures rng.Valid()
      ensures forall s <- sources :: (s in scope.selects && s != number) || s in scope.numerics
      ensures sources != [] && (|sources| > 1 ==> sources[0] == gate)
      ensures Except(scope.selects, number) == [] ==> sources == [gate]
      ensures |sources| > 1 && scope.numerics != [] ==> sources[1] in scope.numerics
    {
      var others := Except(scope.selects, number);
      var roll := rng.Below(100);
      if roll < 55 || others == [] { return [gate]; }
      var other := Pick(others);
      if roll < 85 { return [other]; }
      if scope.numerics != [] {
        var n := Pick(scope.numerics);
        return [gate, n];
      }
      return [gate, other];
    }

    /** A person's id is prefilled from the last number or text answered, in the scope if there is one. */
    method Prefill(scope: Scope) returns (prefill: Option<nat>, isText: bool)
      requires Valid() && ScopeOk(scope, reading.kinds)
      modifies rng
      ensures rng.Valid()
      ensures prefill.Some? ==> Prefills(prefill.value, reading.kinds)
    {
      var whole := Percent(32);
      isText := !whole;
      var source := if whole then (if scope.numerics != [] then scope.numerics else numerics)
                    else (if scope.texts != [] then scope.texts else texts);
      prefill := if source == [] then None else Some(source[|source| - 1]);
      assert prefill.Some? ==> prefill.value in source;
    }

    /** The row of a question whose lists are already up to date. */
    method Emit(row: Row)
      requires row.Ask? && rng.Valid() && ListsOk() && Read(survey, block) == Some(reading)
      requires questionNumber == |reading.kinds| && Next(reading, row, block).Some?
      requires listIndex == reading.selects + if IsSelect(row.kind) then 1 else 0
      requires AreAll(numerics, reading.kinds + [row.kind], ANumber)
      requires AreAll(texts, reading.kinds + [row.kind], AText)
      modifies this`survey, this`questionNumber, this`reading
      ensures Valid() && survey == old(survey) + [row] && reading == Next(old(reading), row, block).value
    {
      ReadSnoc(survey, row, block);
      questionNumber := questionNumber + 1;
      survey, reading := survey + [row], Next(reading, row, block).value;
    }

    /** The question's own list, and the form-wide lists of numbers and texts. */
    method Bind(kind: Kind)
      requires Valid() && (IsSelect(kind) ==> listIndex < |listSizes|)
      modifies this`choices, this`listIndex, this`numerics, this`texts, rng
      ensures rng.Valid() && ListsOk()
      ensures listIndex == reading.selects + if IsSelect(kind) then 1 else 0
      ensures AreAll(numerics, reading.kinds + [kind], ANumber)
      ensures AreAll(texts, reading.kinds + [kind], AText)
    {
      StillAll(numerics, reading.kinds, kind, ANumber);
      StillAll(texts, reading.kinds, kind, AText);
      if IsSelect(kind) { NewList(questionNumber + 1); }
      if IsNumeric(kind) { numerics := numerics + [questionNumber + 1]; }
      if kind.TextKind? { texts := texts + [questionNumber + 1]; }
    }

    /** Whether the answer is required, bounded or conditional, and on what. */
    method Conditions(kind: Kind, isText: bool, gate: Option<nat>, after: Scope, number: nat) returns (sources: seq<nat>)
      requires rng.Valid() && (gate.Some? ==> gate.value in after.selects && gate.value != number)
      modifies rng
      ensures rng.Valid()
      ensures forall s <- sources :: (s in after.selects && s != number) || s in after.numerics
      ensures gate.None? ==> sources == []
    {
      if !kind.Note? { var required := Percent(70); }
      if isText { var short := Percent(40); }
      sources := [];
      if gate.Some? {
        var conditional := Percent(55);
        if conditional { sources := Relevance(gate.value, after, number); }
      }
      var hint := Percent(18);
    }

    /** What a question's row says, its options written and its place in the scopes taken. */
    method Compose(kind: Kind, gate: Option<nat>, scope: Scope, after: Scope) returns (row: Row)
      requires Valid() && ScopeOk(scope, reading.kinds) && Within(scope, reading.scopes)
      requires after == Joined(scope, kind, questionNumber + 1)
      requires gate.Some? ==> gate.value in scope.selects
      requires IsSelect(kind) ==> listIndex < |listSizes|
      modifies this`choices, this`listIndex, this`numerics, this`texts, rng
      ensures row.Ask? && row.kind == kind && ReadsBack(row, reading.kinds) && StaysInScope(row, reading.scopes)
      ensures gate.None? ==> row.relevant == []
      ensures rng.Valid() && ListsOk()
      ensures listIndex == reading.selects + if IsSelect(kind) then 1 else 0
      ensures AreAll(numerics, reading.kinds + [kind], ANumber)
      ensures AreAll(texts, reading.kinds + [kind], AText)
    {
      var number := questionNumber + 1;
      Labels(8);
      var prefill, isText := None, kind.TextKind?;
      if kind.PersonId? { prefill, isText := Prefill(scope); }
      Bind(kind);
      var relevant := Conditions(kind, isText, gate, after, number);
      row := Ask(number, kind, relevant, prefill);
      SourcesReadBack(row, scope, reading.kinds, reading.scopes);
    }

    /** One question: its options, its prefilled value, its condition, and its row. */
    method Question(kind: Kind, gate: Option<nat>, scope: Scope) returns (after: Scope)
      requires Valid() && ScopeOk(scope, reading.kinds) && Within(scope, reading.scopes)
      requires gate.Some? ==> gate.value in scope.selects
      requires IsSelect(kind) ==> listIndex < |listSizes|
      requires Block in reading.frames ==> reading.held < Capacity(block)
      modifies this, rng
      ensures Valid() && reading == Asked(old(reading), kind)
      ensures after == Joined(scope, kind, questionNumber)
      ensures ScopeOk(after, reading.kinds) && Within(after, reading.scopes)
      ensures |survey| == |old(survey)| + 1 && survey[..|old(survey)|] == old(survey)
      ensures var row := survey[|old(survey)|]; row.Ask? && (gate.None? ==> row.relevant == [])
    {
      hide Read;
      hide Next;
      hide ReadsBack;
      after := Joined(scope, kind, questionNumber + 1);
      JoinedOk(scope, reading.kinds, kind);
      JoinedWithin(scope, reading.scopes, kind, questionNumber + 1);
      var row := Compose(kind, gate, scope, after);
      MayAsk(reading, row, block);
      Emit(row);
    }

    // ------------------------------------------------------------ a section

    /** Between two questions of a roster that was opened after `before`. */
    ghost predicate InRoster(before: Reading, types: seq<Kind>, done: nat, scope: Scope, gate: Option<nat>)
      reads this, rng
    {
      && Valid() && done <= |types| && reading.kinds == before.kinds + types[..done]
      && listIndex + CountSelects(types[done..]) <= |listSizes|
      && reading.frames == before.frames + [Roster] && Block !in before.frames
      && |reading.scopes| == |before.scopes| + 1 && reading.scopes[..|before.scopes|] == before.scopes
      && ScopeOk(scope, reading.kinds) && Within(scope, reading.scopes) && (gate.Some? ==> gate.value in scope.selects)
      && reading.sections == before.sections && reading.rosters == before.rosters + 1
    }

    method OpenRoster(ghost types: seq<Kind>, counter: Option<nat>)
      requires Valid() && listIndex + CountSelects(types) <= |listSizes|
      requires Next(reading, BeginRepeat(counter), block).Some?
      modifies this`survey, this`reading, rng
      ensures InRoster(old(reading), types, 0, EMPTY_SCOPE, None)
    {
      Labels(6);
      Mark(BeginRepeat(counter));
      assert types[0..] == types && reading.kinds + types[..0] == reading.kinds;
    }

    method RosterQuestion(ghost before: Reading, types: seq<Kind>, i: nat, scope: Scope, gate: Option<nat>)
      returns (scope': Scope, gate': Option<nat>)
      requires InRoster(before, types, i, scope, gate) && i < |types|
      modifies this, rng
      ensures InRoster(before, types, i + 1, scope', gate')
      ensures listIndex + CountSelects(types[i + 1..]) == old(listIndex) + CountSelects(types[i..])
    {
      Further(before.kinds, types, i);
      scope' := Question(types[i], gate, scope);
      gate' := if gate == None && scope'.selects != [] then Some(scope'.selects[0]) else gate;
    }

    method CloseRoster(ghost before: Reading)
      requires Valid() && reading.frames == before.frames + [Roster]
      requires |reading.scopes| == |before.scopes| + 1 && reading.scopes[..|before.scopes|] == before.scopes
      modifies this`survey, this`reading
      ensures Valid() && reading.kinds == old(reading.kinds)
      ensures reading.frames == before.frames && reading.scopes == before.scopes
      ensures reading.sections == old(reading.sections) && reading.rosters == old(reading.rosters)
    {
      Mark(EndRepeat);
      assert (before.frames + [Roster])[..|before.frames|] == before.frames;
    }

    /** A roster: its own scope and its own gate, nothing open inside it. */
    method RosterRows(types: seq<Kind>, counter: Option<nat>)
      requires Valid() && listIndex + CountSelects(types) <= |listSizes|
      requires Next(reading, BeginRepeat(counter), block).Some?
      modifies this, rng
      ensures Valid() && reading.frames == old(reading.frames) && reading.scopes == old(reading.scopes)
      ensures reading.sections == old(reading.sections) && reading.rosters == old(reading.rosters) + 1
      ensures reading.kinds == old(reading.kinds) + types && listIndex == old(listIndex) + CountSelects(types)
    {
      ghost var before := reading;
      OpenRoster(types, counter);
      assert types[0..] == types;
      var scope, gate := EMPTY_SCOPE, None;
      for i := 0 to |types|
        invariant InRoster(before, types, i, scope, gate)
        invariant listIndex + CountSelects(types[i..]) == old(listIndex) + CountSelects(types)
      {
        scope, gate := RosterQuestion(before, types, i, scope, gate);
      }
      assert types[..|types|] == types && types[|types|..] == [];
      CloseRoster(before);
    }

    /** Between two questions of a section: what is open, what is asked, and what may be read. */
    ghost predicate InSection(before: seq<Kind>, types: seq<Kind>, done: nat, openBlock: bool, inBlock: nat,
                              scope: Scope, gate: Option<nat>)
      reads this, rng
    {
      && Valid() && done <= |types| && reading.kinds == before + types[..done]
      && listIndex + CountSelects(types[done..]) <= |listSizes|
      && reading.frames == (if openBlock then [Section, Block] else [Section])
      && (openBlock ==> reading.held == inBlock < Capacity(block))
      && ScopeOk(scope, reading.kinds) && (gate.Some? ==> gate.value in scope.selects)
      && |reading.scopes| == 1 && Within(scope, reading.scopes)
    }

    /** The roster of a section, after the block it would otherwise stand in is closed. */
    method RosterInSection(ghost before: seq<Kind>, types: seq<Kind>, at: nat, size: nat, counted: bool,
                           openBlock: bool, ghost inBlock: nat, scope: Scope, ghost gate: Option<nat>)
      requires InSection(before, types, at, openBlock, inBlock, scope, gate) && at + size <= |types|
      modifies this, rng
      ensures InSection(before, types, at + size, false, inBlock, scope, gate)
      ensures listIndex + CountSelects(types[at + size..]) == old(listIndex) + CountSelects(types[at..])
      ensures reading.sections == old(reading.sections) && reading.rosters == old(reading.rosters) + 1
    {
      if openBlock { Mark(EndGroup); }
      var counter := None;
      if counted && scope.numerics != [] {
        counter := Some(scope.numerics[0]);
        assert counter.value in scope.numerics;
      }
      FurtherBy(before, types, at, size);
      StillOk(scope, reading.kinds, types[at..at + size]);
      RosterRows(types[at..at + size], counter);
    }

    method OpenBlock(ghost before: seq<Kind>, ghost types: seq<Kind>, ghost done: nat,
                     ghost inBlock: nat, ghost scope: Scope, ghost gate: Option<nat>)
      requires InSection(before, types, done, false, inBlock, scope, gate) && block != 0
      modifies this`survey, this`reading, rng
      ensures InSection(before, types, done, true, 0, scope, gate)
      ensures reading.sections == old(reading.sections) && reading.rosters == old(reading.rosters)
    {
      Labels(6);
      Mark(BeginGroup(true));
    }

    method CloseBlock()
      requires Valid() && reading.frames == [Section, Block]
      modifies this`survey, this`reading
      ensures Valid() && reading == old(reading).(frames := [Section])
    {
      Mark(EndGroup);
      assert [Section, Block][..1] == [Section];
    }

    /** One question of a section, in the block that is open, or in a new one. */
    method QuestionInSection(ghost before: seq<Kind>, types: seq<Kind>, position: nat,
                             openBlock: bool, inBlock: nat, scope: Scope, gate: Option<nat>)
      returns (openBlock': bool, inBlock': nat, scope': Scope, gate': Option<nat>)
      requires InSection(before, types, position, openBlock, inBlock, scope, gate) && position < |types|
      modifies this, rng
      ensures InSection(before, types, position + 1, openBlock', inBlock', scope', gate')
      ensures listIndex + CountSelects(types[position + 1..]) == old(listIndex) + CountSelects(types[position..])
      ensures reading.sections == old(reading.sections) && reading.rosters == old(reading.rosters)
    {
      hide Read;
      hide Next;
      openBlock', inBlock', gate' := openBlock, inBlock, gate;
      if block != 0 && position > 0 && !openBlock {
        OpenBlock(before, types, position, inBlock, scope, gate);
        openBlock', inBlock' := true, 0;
      }
      Further(before, types, position);
      scope' := Question(types[position], gate, scope);
      if gate == None && scope'.selects != [] { gate' := Some(scope'.selects[0]); }
      if openBlock' {
        inBlock' := inBlock' + 1;
        if inBlock' >= block {
          CloseBlock();
          openBlock' := false;
        }
      }
    }

    /** One turn of a section's loop: a roster, a question it has asked already, or a question. */
    method AtPosition(ghost before: seq<Kind>, types: seq<Kind>, position: nat, rosterAt: nat, rosterSize: nat,
                      counted: bool, openBlock: bool, inBlock: nat, scope: Scope, gate: Option<nat>)
      returns (openBlock': bool, inBlock': nat, scope': Scope, gate': Option<nat>)
      requires position < |types| && rosterAt + rosterSize <= |types|
      requires InSection(before, types, Passed(position, rosterAt, rosterSize), openBlock, inBlock, scope, gate)
      modifies this, rng
      ensures InSection(before, types, Passed(position + 1, rosterAt, rosterSize), openBlock', inBlock', scope', gate')
      ensures listIndex + CountSelects(types[Passed(position + 1, rosterAt, rosterSize)..])
           == old(listIndex) + CountSelects(types[Passed(position, rosterAt, rosterSize)..])
      ensures reading.sections == old(reading.sections)
      ensures reading.rosters == old(reading.rosters) + if position == rosterAt && rosterSize > 0 then 1 else 0
    {
      openBlock', inBlock', scope', gate' := openBlock, inBlock, scope, gate;
      if position == rosterAt && rosterSize > 0 {
        RosterInSection(before, types, rosterAt, rosterSize, counted, openBlock, inBlock, scope, gate);
        openBlock' := false;
      }
      if rosterAt <= position < rosterAt + rosterSize { return; }
      openBlock', inBlock', scope', gate' := QuestionInSection(before, types, position, openBlock, inBlock, scope, gate);
    }

    /** A section's questions in order, the roster where it stands. */
    method QuestionsInSection(ghost before: seq<Kind>, types: seq<Kind>, rosterAt: nat, rosterSize: nat, counted: bool)
      returns (openBlock: bool)
      requires InSection(before, types, 0, false, 0, EMPTY_SCOPE, None) && rosterAt + rosterSize <= |types|
      modifies this, rng
      ensures Valid() && reading.kinds == before + types
      ensures reading.frames == (if openBlock then [Section, Block] else [Section]) && |reading.scopes| == 1
      ensures listIndex == old(listIndex) + CountSelects(types[0..])
      ensures reading.sections == old(reading.sections)
      ensures reading.rosters == old(reading.rosters) + if rosterSize > 0 then 1 else 0
    {
      var inBlock, scope, gate := 0, EMPTY_SCOPE, None;
      openBlock := false;
      ghost var passed := 0;
      for position := 0 to |types|
        invariant passed == Passed(position, rosterAt, rosterSize)
        invariant InSection(before, types, passed, openBlock, inBlock, scope, gate)
        invariant listIndex + CountSelects(types[passed..]) == old(listIndex) + CountSelects(types[0..])
        invariant reading.sections == old(reading.sections)
        invariant reading.rosters == old(reading.rosters) + if position > rosterAt && rosterSize > 0 then 1 else 0
      {
        openBlock, inBlock, scope, gate :=
          AtPosition(before, types, position, rosterAt, rosterSize, counted, openBlock, inBlock, scope, gate);
        passed := Passed(position + 1, rosterAt, rosterSize);
      }
      assert passed == |types| && types[passed..] == [] && types[..passed] == types;
    }

    method OpenSection(ghost types: seq<Kind>)
      requires Valid() && reading.frames == [] && reading.scopes == [] && listIndex + CountSelects(types) <= |listSizes|
      modifies this`survey, this`reading, rng
      ensures InSection(old(reading.kinds), types, 0, false, 0, EMPTY_SCOPE, None)
      ensures reading.sections == old(reading.sections) + 1 && reading.rosters == old(reading.rosters)
    {
      Labels(6);
      Mark(BeginGroup(false));
      assert [] + [Section] == [Section];
      assert types[0..] == types && reading.kinds + types[..0] == reading.kinds;
    }

    method CloseSection(openBlock: bool)
      requires Valid() && reading.frames == (if openBlock then [Section, Block] else [Section]) && |reading.scopes| == 1
      modifies this`survey, this`reading
      ensures Valid() && reading.frames == [] && reading.scopes == [] && reading.kinds == old(reading.kinds)
      ensures reading.sections == old(reading.sections) && reading.rosters == old(reading.rosters)
    {
      if openBlock { CloseBlock(); }
      Mark(EndGroup);
    }

    /** A section: a group around its questions. */
    method SectionRows(types: seq<Kind>, rosterAt: nat, rosterSize: nat, counted: bool)
      requires Valid() && reading.frames == [] && reading.scopes == [] && listIndex + CountSelects(types) <= |listSizes|
      requires rosterAt + rosterSize <= |types|
      modifies this, rng
      ensures Valid() && reading.frames == [] && reading.scopes == [] && reading.kinds == old(reading.kinds) + types
      ensures listIndex == old(listIndex) + CountSelects(types)
      ensures reading.sections == old(reading.sections) + 1
      ensures reading.rosters == old(reading.rosters) + if rosterSize > 0 then 1 else 0
    {
      ghost var before := reading.kinds;
      OpenSection(types);
      assert types[0..] == types;
      var openBlock := QuestionsInSection(before, types, rosterAt, rosterSize, counted);
      CloseSection(openBlock);
    }
  }

  /** How many questions of a section stand before its `position`-th is reached. */
  function Passed(position: nat, rosterAt: nat, rosterSize: nat): nat
  {
    if rosterAt < position < rosterAt + rosterSize then rosterAt + rosterSize else position
  }

  lemma FurtherBy(before: seq<Kind>, types: seq<Kind>, at: nat, size: nat)
    requires at + size <= |types|
    ensures CountSelects(types[at..]) == CountSelects(types[at..at + size]) + CountSelects(types[at + size..])
    ensures before + types[..at] + types[at..at + size] == before + types[..at + size]
  {
    SelectsAppend(types[at..at + size], types[at + size..]);
    assert types[at..at + size] + types[at + size..] == types[at..];
  }

  /** One question further into a list of them. */
  lemma Further(before: seq<Kind>, types: seq<Kind>, i: nat)
    requires i < |types|
    ensures CountSelects(types[i..]) == (if IsSelect(types[i]) then 1 else 0) + CountSelects(types[i + 1..])
    ensures before + types[..i] + [types[i]] == before + types[..i + 1]
  {
    assert types[i..][1..] == types[i + 1..];
  }
}
