/**
 * The two programs that fold a submission's log - the recovery script and the console -
 * and the unwrapping of content keys they start from.
 */
module OpLogFold {
  import opened Options
  import opened OpLog
  import opened Selections

  // ------------------------------------------------------- the recovery script

  /** One line of the log table. */
  datatype Row = Row(op: Op, plain: Json, state: State)

  /** The key the operation names is in hand. */
  predicate InHand(op: Op, keys: Keys) { op.contentKeyId.Some? && op.contentKeyId.value in keys }

  /** What a line says of its operation: how far it could be read, and the value it has so far. */
  predicate Tells(row: Row, op: Op, keys: Keys, open: Opener)
  {
    && row.op == op
    && (row.state.Plaintext? <==> !op.encrypted)
    && (row.state.NoKey? <==> op.encrypted && !InHand(op, keys))
    && (row.state.Failed? <==> Breaks(op, keys, open))
    && (row.state.Decrypted? ==> InHand(op, keys) && open(op, keys[op.contentKeyId.value]) == Some(row.plain))
    && (!row.state.Decrypted? ==> row.plain == op.value)
  }

  function Illegible(keys: Keys, open: Opener): Op -> bool { (op: Op) => !Legible(op, keys, open) }

  function WasDecrypted(keys: Keys, open: Opener): Op -> bool { (op: Op) => op.encrypted && Legible(op, keys, open) }

  /** The key is in hand, and does not open it. */
  predicate Breaks(op: Op, keys: Keys, open: Opener)
  {
    op.encrypted && InHand(op, keys) && open(op, keys[op.contentKeyId.value]).None?
  }

  function Broken(keys: Keys, open: Opener): Op -> bool { (op: Op) => Breaks(op, keys, open) }

  function WasEncrypted(): Op -> bool { (op: Op) => op.encrypted }

  /** The operations the script reports: those it could not read. */
  function Unread(ops: seq<Op>, keys: Keys, open: Opener): seq<Op>
  {
    if ops == [] then [] else
      var op := ops[|ops| - 1];
      Unread(ops[..|ops| - 1], keys, open) + (if Read(op, keys, open).None? then [op] else [])
  }

  lemma {:induction false} UnreadExactly(ops: seq<Op>, keys: Keys, open: Opener)
    ensures Picks(ops, Unread(ops, keys, open), Illegible(keys, open))
  {
    hide Picks;
    var wanted := Illegible(keys, open);
    if ops == [] {
      PicksNothing(wanted);
    } else {
      var front, op := ops[..|ops| - 1], ops[|ops| - 1];
      UnreadExactly(front, keys, open);
      PicksNext(front, Unread(front, keys, open), wanted, op);
      assert front + [op] == ops;
    }
  }

  /** The part of both loops after an operation has been read. */
  method Apply(before: Answers, op: Op, value: Json) returns (answers: Answers)
    ensures answers == Applied(before, op, value)
  {
    answers := before;
    if op.path.None? { return; }
    var path := op.path.value;
    if op.kind.Set? {
      answers := answers[path := value];
    } else if op.kind.Unset? {
      answers := answers - {path};
    } else if op.kind.RepeatDelete? {
      var dot, bracket := path + ".", path + "[";
      answers := map k | k in answers && k != path && !(dot <= k) && !(bracket <= k) :: answers[k];
    }
  }

  lemma Longer(log: seq<Op>, n: nat)
    requires n < |log|
    ensures log[..n + 1][..|log[..n + 1]| - 1] == log[..n] && log[..n + 1][|log[..n + 1]| - 1] == log[n]
  {}

  /** Fold the log, decrypting as it goes. */
  method DecryptOps(ops: seq<Op>, keys: Keys, open: Opener, le: DeviceOrder)
    returns (answers: Answers, rows: seq<Row>, problems: seq<Op>)
    ensures answers == AnswersOf(ops, keys, open, le)
    ensures |rows| == |Sorted(ops, le)| && forall i | 0 <= i < |rows| :: Tells(rows[i], Sorted(ops, le)[i], keys, open)
    ensures Picks(Sorted(ops, le), problems, Illegible(keys, open))
  {
    hide Picks, Sorted;
    answers, rows, problems := map[], [], [];
    var log := Sorted(ops, le);
    for n := 0 to |log|
      invariant answers == Fold(log[..n], keys, open)
      invariant |rows| == n && forall i | 0 <= i < n :: Tells(rows[i], log[i], keys, open)
      invariant problems == Unread(log[..n], keys, open)
    {
      Longer(log, n);
      var op := log[n];
      var value := op.value;
      var state := Plaintext;
      if op.encrypted {
        if op.contentKeyId.None? || op.contentKeyId.value !in keys {
          state := NoKey;
          problems := problems + [op];
        } else {
          match open(op, keys[op.contentKeyId.value])
          case Some(v) =>
            value, state := v, Decrypted;
          case None =>
            state := Failed;
            problems := problems + [op];
        }
      }
      assert state == StateOf(op, keys, open);
      rows := rows + [Row(op, value, state)];
      if state.Failed? || state.NoKey? { continue; }
      answers := Apply(answers, op, value);
    }
    assert log[..|log|] == log;
    UnreadExactly(log, keys, open);
  }

  // -------------------------------------------------------------- the console

  /** The operations the console reports: those whose bytes did not authenticate. */
  function Failures(ops: seq<Op>, keys: Keys, open: Opener): seq<Op>
  {
    if ops == [] then [] else
      var op := ops[|ops| - 1];
      Failures(ops[..|ops| - 1], keys, open) + (if StateOf(op, keys, open).Failed? then [op] else [])
  }

  lemma {:induction false} FailuresExactly(ops: seq<Op>, keys: Keys, open: Opener)
    ensures Picks(ops, Failures(ops, keys, open), Broken(keys, open))
  {
    hide Picks;
    var wanted := Broken(keys, open);
    if ops == [] {
      PicksNothing(wanted);
    } else {
      var front, op := ops[..|ops| - 1], ops[|ops| - 1];
      FailuresExactly(front, keys, open);
      PicksNext(front, Failures(front, keys, open), wanted, op);
      assert Breaks(op, keys, open) <==> StateOf(op, keys, open).Failed?;
      assert front + [op] == ops;
    }
  }

  predicate IdsDistinct(ops: seq<Op>)
  {
    forall i, j | 0 <= i < j < |ops| :: ops[i].id != ops[j].id
  }

  /** What the console shows for each operation: its state, and its value where it has one. */
  predicate Shows(values: map<string, (State, Json)>, log: seq<Op>, n: nat, keys: Keys, open: Opener)
    requires n <= |log|
  {
    forall i | 0 <= i < n ::
      log[i].id in values && Tells(Row(log[i], values[log[i].id].1, values[log[i].id].0), log[i], keys, open)
  }

  lemma ShowsNext(values: map<string, (State, Json)>, log: seq<Op>, n: nat, state: State, value: Json, keys: Keys, open: Opener)
    requires n < |log| && (IdsDistinct(log) ==> Shows(values, log, n, keys, open))
    requires Tells(Row(log[n], value, state), log[n], keys, open)
    ensures IdsDistinct(log) ==> Shows(values[log[n].id := (state, value)], log, n + 1, keys, open)
  {}

  /** One operation opened, as far as the keys in hand allow. */
  method Opened(op: Op, keys: Keys, open: Opener) returns (state: State, value: Json)
    ensures state == StateOf(op, keys, open) && (Read(op, keys, open).Some? ==> Read(op, keys, open).value == value)
    ensures Tells(Row(op, value, state), op, keys, open)
  {
    state, value := Plaintext, op.value;
    if op.encrypted {
      if op.contentKeyId.None? || op.contentKeyId.value !in keys {
        state := NoKey;
      } else {
        match open(op, keys[op.contentKeyId.value])
        case Some(v) => value, state := v, Decrypted;
        case None => state := Failed;
      }
    }
  }

  /** What one more operation adds to the fold, the failures and the counts. */
  lemma OneMore(log: seq<Op>, n: nat, keys: Keys, open: Opener)
    requires n < |log|
    ensures Fold(log[..n + 1], keys, open) == Stepped(Fold(log[..n], keys, open), log[n], keys, open)
    ensures Failures(log[..n + 1], keys, open)
         == Failures(log[..n], keys, open) + (if StateOf(log[n], keys, open).Failed? then [log[n]] else [])
    ensures |Places(log[..n + 1], WasDecrypted(keys, open))|
         == |Places(log[..n], WasDecrypted(keys, open))| + (if StateOf(log[n], keys, open).Decrypted? then 1 else 0)
    ensures |Places(log[..n + 1], WasEncrypted())|
         == |Places(log[..n], WasEncrypted())| + (if log[n].encrypted then 1 else 0)
  {
    Longer(log, n);
    assert log[..n + 1] == log[..n] + [log[n]];
    PlacesNext(log[..n], WasDecrypted(keys, open), log[n]);
    PlacesNext(log[..n], WasEncrypted(), log[n]);
  }

  /** One turn of the console's loop, on what it keeps. */
  method Tally(op: Op, state: State, value: Json, answers: Answers, problems: seq<Op>, decryptedOps: nat, encryptedOps: nat)
    returns (answers': Answers, problems': seq<Op>, decryptedOps': nat, encryptedOps': nat)
    ensures answers' == if state.Failed? || state.NoKey? then answers else Applied(answers, op, value)
    ensures problems' == problems + (if state.Failed? then [op] else [])
    ensures decryptedOps' == decryptedOps + (if state.Decrypted? then 1 else 0)
    ensures encryptedOps' == encryptedOps + (if op.encrypted then 1 else 0)
  {
    answers', problems', decryptedOps', encryptedOps' := answers, problems, decryptedOps, encryptedOps;
    if op.encrypted { encryptedOps' := encryptedOps + 1; }
    if state.Decrypted? { decryptedOps' := decryptedOps + 1; }
    if state.Failed? { problems' := problems + [op]; }
    if state.Failed? || state.NoKey? { return; }
    answers' := Apply(answers, op, value);
  }

  /** Decrypt what the opened keys cover and fold it, counting as it goes. */
  method DecryptSubmission(ops: seq<Op>, keys: Keys, open: Opener, le: DeviceOrder)
    returns (answers: Answers, values: map<string, (State, Json)>, problems: seq<Op>, decryptedOps: nat, encryptedOps: nat)
    ensures answers == AnswersOf(ops, keys, open, le)
    ensures Picks(Sorted(ops, le), problems, Broken(keys, open))
    ensures decryptedOps == |Places(Sorted(ops, le), WasDecrypted(keys, open))|
    ensures encryptedOps == |Places(Sorted(ops, le), WasEncrypted())|
    ensures IdsDistinct(Sorted(ops, le)) ==> Shows(values, Sorted(ops, le), |Sorted(ops, le)|, keys, open)
  {
    hide Picks, Sorted;
    answers, values, problems, decryptedOps, encryptedOps := map[], map[], [], 0, 0;
    var log := Sorted(ops, le);
    SortedLength(ops, le);
    for n := 0 to |log|
      invariant answers == Fold(log[..n], keys, open)
      invariant problems == Failures(log[..n], keys, open)
      invariant decryptedOps == |Places(log[..n], WasDecrypted(keys, open))|
      invariant encryptedOps == |Places(log[..n], WasEncrypted())|
      invariant IdsDistinct(log) ==> Shows(values, log, n, keys, open)
    {
      OneMore(log, n, keys, open);
      var op := log[n];
      var state, value := Opened(op, keys, open);
      ShowsNext(values, log, n, state, value, keys, open);
      values := values[op.id := (state, value)];
      answers, problems, decryptedOps, encryptedOps :=
        Tally(op, state, value, answers, problems, decryptedOps, encryptedOps);
    }
    assert log[..|log|] == log;
    FailuresExactly(log, keys, open);
  }

  lemma SortedLength(ops: seq<Op>, le: DeviceOrder)
    ensures |Sorted(ops, le)| == |ops|
  {
    SortedMembers(ops, le);
    assert |Sorted(ops, le)| == |multiset(Sorted(ops, le))| == |multiset(ops)| == |ops|;
  }

  // ---------------------------------------------------------- content keys

  datatype Wrap = Wrap(projectKeyId: string, body: string)

  datatype ContentKey = ContentKey(id: string, device: string, wraps: seq<Wrap>)

  /** Opening one wrap of one content key with the private key in hand. */
  type Unwrapper = (string, Wrap) -> Option<Material>

  /** What the first wrap that opens gives. */
  function FirstOpened(id: string, wraps: seq<Wrap>, unwrap: Unwrapper): Option<Material>
  {
    if wraps == [] then None
    else if unwrap(id, wraps[0]).Some? then unwrap(id, wraps[0])
    else FirstOpened(id, wraps[1..], unwrap)
  }

  function OpenedBy(contentKeys: seq<ContentKey>, unwrap: Unwrapper): Keys
  {
    if contentKeys == [] then map[] else
      var k := contentKeys[|contentKeys| - 1];
      var before := OpenedBy(contentKeys[..|contentKeys| - 1], unwrap);
      match FirstOpened(k.id, k.wraps, unwrap)
      case None => before
      case Some(m) => before[k.id := m]
  }

  /** No wrap of it opens. */
  function StaysClosed(unwrap: Unwrapper): ContentKey -> bool
  {
    (k: ContentKey) => forall w <- k.wraps :: unwrap(k.id, w).None?
  }

  function ClosedBy(contentKeys: seq<ContentKey>, unwrap: Unwrapper): seq<ContentKey>
  {
    if contentKeys == [] then [] else
      var k := contentKeys[|contentKeys| - 1];
      ClosedBy(contentKeys[..|contentKeys| - 1], unwrap)
      + (if FirstOpened(k.id, k.wraps, unwrap).None? then [k] else [])
  }

  /** Every wrap of every content key is tried in turn until one opens. */
  method UnwrapContentKeys(contentKeys: seq<ContentKey>, unwrap: Unwrapper)
    returns (materials: Keys, problems: seq<ContentKey>)
    ensures materials == OpenedBy(contentKeys, unwrap)
    ensures Picks(contentKeys, problems, StaysClosed(unwrap))
  {
    materials, problems := map[], [];
    for n := 0 to |contentKeys|
      invariant materials == OpenedBy(contentKeys[..n], unwrap)
      invariant problems == ClosedBy(contentKeys[..n], unwrap)
    {
      assert contentKeys[..n + 1][..n] == contentKeys[..n];
      var k := contentKeys[n];
      var broke := false;
      for w := 0 to |k.wraps|
        invariant !broke && materials == OpenedBy(contentKeys[..n], unwrap)
        invariant FirstOpened(k.id, k.wraps, unwrap) == FirstOpened(k.id, k.wraps[w..], unwrap)
      {
        var material := unwrap(k.id, k.wraps[w]);
        if material.Some? {
          materials := materials[k.id := material.value];
          broke := true;
          break;
        }
      }
      if !broke { problems := problems + [k]; }
    }
    assert contentKeys[..|contentKeys|] == contentKeys;
    ClosedExactly(contentKeys, unwrap);
  }

  lemma {:induction false} ClosedExactly(contentKeys: seq<ContentKey>, unwrap: Unwrapper)
    ensures Picks(contentKeys, ClosedBy(contentKeys, unwrap), StaysClosed(unwrap))
  {
    hide Picks;
    if contentKeys == [] {
      PicksNothing(StaysClosed(unwrap));
    } else {
      var front, k := contentKeys[..|contentKeys| - 1], contentKeys[|contentKeys| - 1];
      ClosedExactly(front, unwrap);
      FirstOpenedExactly(k.id, k.wraps, unwrap);
      PicksNext(front, ClosedBy(front, unwrap), StaysClosed(unwrap), k);
      assert front + [k] == contentKeys;
    }
  }

  /** The w-th wrap of an entry is the first that opens. */
  predicate OpensFirst(k: ContentKey, w: nat, unwrap: Unwrapper)
  {
    && w < |k.wraps| && unwrap(k.id, k.wraps[w]).Some?
    && forall v | 0 <= v < w :: unwrap(k.id, k.wraps[v]).None?
  }

  lemma {:induction false} FirstOpenedAt(k: ContentKey, wraps: seq<Wrap>, w: nat, unwrap: Unwrapper)
    requires w < |wraps| && unwrap(k.id, wraps[w]).Some? && forall v | 0 <= v < w :: unwrap(k.id, wraps[v]).None?
    ensures FirstOpened(k.id, wraps, unwrap) == unwrap(k.id, wraps[w])
  {
    if w > 0 { FirstOpenedAt(k, wraps[1..], w - 1, unwrap); }
  }

  /**
   * The bytes kept for an opened key are those of the first wrap that opens in the last
   * entry of its id that any wrap opens.
   */
  lemma {:induction false} OpenedByFirst(contentKeys: seq<ContentKey>, unwrap: Unwrapper, n: nat, w: nat)
    requires n < |contentKeys| && OpensFirst(contentKeys[n], w, unwrap)
    requires forall m | n < m < |contentKeys| && contentKeys[m].id == contentKeys[n].id :: StaysClosed(unwrap)(contentKeys[m])
    ensures var k := contentKeys[n];
            k.id in OpenedBy(contentKeys, unwrap) && Some(OpenedBy(contentKeys, unwrap)[k.id]) == unwrap(k.id, k.wraps[w])
  {
    var last := |contentKeys| - 1;
    var k := contentKeys[last];
    if n == last {
      FirstOpenedAt(k, k.wraps, w, unwrap);
    } else {
      FirstOpenedExactly(k.id, k.wraps, unwrap);
      assert k.id == contentKeys[n].id ==> StaysClosed(unwrap)(k);
      OpenedByFirst(contentKeys[..last], unwrap, n, w);
    }
  }

  /** A content key counts as opened exactly when some wrap of some entry with its id opens. */
  lemma {:induction false} OpenedExactly(contentKeys: seq<ContentKey>, unwrap: Unwrapper, id: string)
    ensures id in OpenedBy(contentKeys, unwrap) <==>
            exists k <- contentKeys, w: Wrap :: k.id == id && w in k.wraps && unwrap(id, w).Some?
  {
    if contentKeys != [] {
      var k := contentKeys[|contentKeys| - 1];
      OpenedExactly(contentKeys[..|contentKeys| - 1], unwrap, id);
      FirstOpenedExactly(k.id, k.wraps, unwrap);
      assert contentKeys == contentKeys[..|contentKeys| - 1] + [k];
    }
  }

  lemma {:induction false} FirstOpenedExactly(id: string, wraps: seq<Wrap>, unwrap: Unwrapper)
    ensures FirstOpened(id, wraps, unwrap).Some? <==> exists w <- wraps :: unwrap(id, w).Some?
  {
    if wraps != [] { FirstOpenedExactly(id, wraps[1..], unwrap); }
  }

  /** The console's unwrapping: a wrap for a project key it does not list is skipped. */
  function Listed(listed: set<string>, unwrap: Unwrapper): Unwrapper
  {
    (id: string, w: Wrap) => if w.projectKeyId in listed then unwrap(id, w) else None
  }

  /** Script and console open the same keys, to the same bytes, when every wrap that opens is listed. */
  lemma {:induction false} SameOpened(contentKeys: seq<ContentKey>, unwrap: Unwrapper, listed: set<string>)
    requires forall k <- contentKeys, w: Wrap ::
               w in k.wraps && unwrap(k.id, w).Some? ==> w.projectKeyId in listed
    ensures OpenedBy(contentKeys, Listed(listed, unwrap)) == OpenedBy(contentKeys, unwrap)
  {
    if contentKeys != [] {
      var k := contentKeys[|contentKeys| - 1];
      SameOpened(contentKeys[..|contentKeys| - 1], unwrap, listed);
      SameFirst(k.id, k.wraps, unwrap, listed);
    }
  }

  lemma {:induction false} SameFirst(id: string, wraps: seq<Wrap>, unwrap: Unwrapper, listed: set<string>)
    requires forall w <- wraps :: unwrap(id, w).Some? ==> w.projectKeyId in listed
    ensures FirstOpened(id, wraps, Listed(listed, unwrap)) == FirstOpened(id, wraps, unwrap)
  {
    if wraps != [] { SameFirst(id, wraps[1..], unwrap, listed); }
  }
}
