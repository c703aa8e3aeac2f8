/**
 * The answers of a submission, folded out of its operation log: last writer wins in
 * (counter, device) order, and operations that cannot be read are passed over.
 */
module OpLog {
  import opened Options

  /** A JSON value, compared as a whole. */
  datatype Json = Json(token: nat)

  /** The bytes of an opened content key. */
  datatype Material = Material(token: nat)

  datatype OpKind = Set | Unset | RepeatDelete | OtherKind(name: string)

  datatype Op = Op(
    id: string,
    counter: int,
    device: string,
    kind: OpKind,
    path: Option<string>,
    encrypted: bool,
    contentKeyId: Option<string>,
    value: Json,
    ciphertext: string)

  type Keys = map<string, Material>

  /** Decrypting one operation with one key: a value, or nothing when it does not authenticate. */
  type Opener = (Op, Material) -> Option<Json>

  type Answers = map<string, Json>

  // ------------------------------------------------------------- one operation

  datatype State = Plaintext | Decrypted | NoKey | Failed

  function StateOf(op: Op, keys: Keys, open: Opener): State
  {
    if !op.encrypted then Plaintext
    else if op.contentKeyId.None? || op.contentKeyId.value !in keys then NoKey
    else if open(op, keys[op.contentKeyId.value]).None? then Failed
    else Decrypted
  }

  /** The value an operation carries, when it can be read. */
  function Read(op: Op, keys: Keys, open: Opener): Option<Json>
  {
    match StateOf(op, keys, open)
    case Plaintext => Some(op.value)
    case Decrypted => open(op, keys[op.contentKeyId.value])
    case _ => None
  }

  /** A path is covered by a deleted one when it is that path or continues it at a `.` or a `[`. */
  predicate Covers(deleted: string, path: string)
  {
    path == deleted || deleted + "." <= path || deleted + "[" <= path
  }

  function Applied(answers: Answers, op: Op, value: Json): Answers
  {
    if op.path.None? then answers else
      var path := op.path.value;
      match op.kind
      case Set => answers[path := value]
      case Unset => answers - {path}
      case RepeatDelete => map k | k in answers && !Covers(path, k) :: answers[k]
      case OtherKind(_) => answers
  }

  function Stepped(answers: Answers, op: Op, keys: Keys, open: Opener): Answers
  {
    match Read(op, keys, open)
    case None => answers
    case Some(v) => Applied(answers, op, v)
  }

  /** The fold of operations taken in the order given. */
  function Fold(ops: seq<Op>, keys: Keys, open: Opener): Answers
  {
    if ops == [] then map[] else
      Stepped(Fold(ops[..|ops| - 1], keys, open), ops[|ops| - 1], keys, open)
  }

  // ------------------------------------------------------------------ ordering

  /** An order on device ids: code points in one implementation, a collation in the other. */
  type DeviceOrder = (string, string) -> bool

  ghost predicate TotalPreorder(le: DeviceOrder)
  {
    && (forall a, b :: le(a, b) || le(b, a))
    && (forall a, b, c :: le(a, b) && le(b, c) ==> le(a, c))
  }

  predicate KeyLe(a: Op, b: Op, le: DeviceOrder)
  {
    a.counter < b.counter || (a.counter == b.counter && le(a.device, b.device))
  }

  /** `op` after everything it does not precede. */
  function Inserted(ops: seq<Op>, op: Op, le: DeviceOrder): seq<Op>
  {
    if ops == [] then [op]
    else if KeyLe(ops[|ops| - 1], op, le) then ops + [op]
    else Inserted(ops[..|ops| - 1], op, le) + [ops[|ops| - 1]]
  }

  /** The stable sort both implementations start with. */
  function Sorted(ops: seq<Op>, le: DeviceOrder): seq<Op>
  {
    if ops == [] then [] else Inserted(Sorted(ops[..|ops| - 1], le), ops[|ops| - 1], le)
  }

  /** The answers of a log, as it arrived. */
  function AnswersOf(ops: seq<Op>, keys: Keys, open: Opener, le: DeviceOrder): Answers
  {
    Fold(Sorted(ops, le), keys, open)
  }

  // ---------------------------------------------------- who decides about a path

  /** The operation can be read and says something about the path. */
  predicate Touches(op: Op, path: string, keys: Keys, open: Opener)
  {
    && op.path.Some? && Read(op, keys, open).Some?
    && match op.kind
       case Set => op.path.value == path
       case Unset => op.path.value == path
       case RepeatDelete => Covers(op.path.value, path)
       case OtherKind(_) => false
  }

  /** What a touching operation leaves at the path. */
  function Says(op: Op, keys: Keys, open: Opener): Option<Json>
  {
    if op.kind.Set? then Read(op, keys, open) else None
  }

  function At(answers: Answers, path: string): Option<Json>
  {
    if path in answers then Some(answers[path]) else None
  }

  /** The last operation of a list that touches the path. */
  function LastTouch(ops: seq<Op>, path: string, keys: Keys, open: Opener): Option<Op>
  {
    if ops == [] then None
    else if Touches(ops[|ops| - 1], path, keys, open) then Some(ops[|ops| - 1])
    else LastTouch(ops[..|ops| - 1], path, keys, open)
  }

  /** The touching operation with the greatest key, the later arrival among equals; no sorting. */
  function Winner(ops: seq<Op>, path: string, keys: Keys, open: Opener, le: DeviceOrder): Option<Op>
  {
    if ops == [] then None else
      var op := ops[|ops| - 1];
      var w := Winner(ops[..|ops| - 1], path, keys, open, le);
      if Touches(op, path, keys, open) && (w.None? || KeyLe(w.value, op, le)) then Some(op) else w
  }

  function SaysAt(op: Option<Op>, keys: Keys, open: Opener): Option<Json>
  {
    match op
    case None => None
    case Some(o) => Says(o, keys, open)
  }

  lemma {:induction false} FoldIsLastTouch(ops: seq<Op>, path: string, keys: Keys, open: Opener)
    ensures At(Fold(ops, keys, open), path) == SaysAt(LastTouch(ops, path, keys, open), keys, open)
  {
    if ops != [] {
      FoldIsLastTouch(ops[..|ops| - 1], path, keys, open);
    }
  }

  predicate SortedBy(ops: seq<Op>, le: DeviceOrder)
  {
    forall i, j | 0 <= i < j < |ops| :: KeyLe(ops[i], ops[j], le)
  }

  lemma KeyLeTrans(a: Op, b: Op, c: Op, le: DeviceOrder)
    requires TotalPreorder(le) && KeyLe(a, b, le) && KeyLe(b, c, le)
    ensures KeyLe(a, c, le)
  {}

  lemma KeyLeTotal(a: Op, b: Op, le: DeviceOrder)
    requires TotalPreorder(le)
    ensures KeyLe(a, b, le) || KeyLe(b, a, le)
  {}

  lemma {:induction false} InsertedMembers(ops: seq<Op>, op: Op, le: DeviceOrder)
    ensures multiset(Inserted(ops, op, le)) == multiset(ops) + multiset{op}
  {
    if ops != [] {
      var last := ops[|ops| - 1];
      if !KeyLe(last, op, le) {
        InsertedMembers(ops[..|ops| - 1], op, le);
        assert ops == ops[..|ops| - 1] + [last];
      }
    }
  }

  lemma {:induction false} InsertedSorted(ops: seq<Op>, op: Op, le: DeviceOrder)
    requires TotalPreorder(le) && SortedBy(ops, le)
    ensures SortedBy(Inserted(ops, op, le), le)
  {
    if ops != [] {
      var front, last := ops[..|ops| - 1], ops[|ops| - 1];
      if KeyLe(last, op, le) {
        forall i | 0 <= i < |ops| ensures KeyLe(ops[i], op, le) {
          if i < |ops| - 1 { KeyLeTrans(ops[i], last, op, le); }
        }
      } else {
        InsertedSorted(front, op, le);
        InsertedMembers(front, op, le);
        var r := Inserted(front, op, le);
        KeyLeTotal(last, op, le);
        forall i | 0 <= i < |r| ensures KeyLe(r[i], last, le) {
          assert r[i] in multiset(r);
        }
        assert Inserted(ops, op, le) == r + [last];
      }
    }
  }

  lemma {:induction false} SortedSorts(ops: seq<Op>, le: DeviceOrder)
    requires TotalPreorder(le)
    ensures SortedBy(Sorted(ops, le), le)
  {
    if ops == [] {
      assert Sorted(ops, le) == [];
    } else {
      SortedSorts(ops[..|ops| - 1], le);
      InsertedSorted(Sorted(ops[..|ops| - 1], le), ops[|ops| - 1], le);
    }
  }

  lemma SnocMembers(ops: seq<Op>)
    requires ops != []
    ensures multiset(ops) == multiset(ops[..|ops| - 1]) + multiset{ops[|ops| - 1]}
  {
    assert ops == ops[..|ops| - 1] + [ops[|ops| - 1]];
  }

  /** Sorting loses and invents nothing. */
  lemma {:induction false} SortedMembers(ops: seq<Op>, le: DeviceOrder)
    ensures multiset(Sorted(ops, le)) == multiset(ops)
  {
    if ops != [] {
      var front, last := ops[..|ops| - 1], ops[|ops| - 1];
      SortedMembers(front, le);
      InsertedMembers(Sorted(front, le), last, le);
      SnocMembers(ops);
    }
  }

  lemma {:induction false} LastTouchMember(ops: seq<Op>, path: string, keys: Keys, open: Opener)
    requires LastTouch(ops, path, keys, open).Some?
    ensures LastTouch(ops, path, keys, open).value in ops
    ensures Touches(LastTouch(ops, path, keys, open).value, path, keys, open)
  {
    if !Touches(ops[|ops| - 1], path, keys, open) { LastTouchMember(ops[..|ops| - 1], path, keys, open); }
  }

  lemma {:induction false} InsertedLastTouch(
      ops: seq<Op>, op: Op, path: string, keys: Keys, open: Opener, le: DeviceOrder)
    requires TotalPreorder(le) && SortedBy(ops, le)
    ensures var w := LastTouch(ops, path, keys, open);
            LastTouch(Inserted(ops, op, le), path, keys, open) ==
            if Touches(op, path, keys, open) && (w.None? || KeyLe(w.value, op, le)) then Some(op) else w
  {
    if ops == [] {
      assert [op][..0] == [];
    } else {
      var last := ops[|ops| - 1];
      if KeyLe(last, op, le) {
        assert (ops + [op])[..|ops|] == ops;
        var w := LastTouch(ops, path, keys, open);
        if w.Some? {
          LastTouchMember(ops, path, keys, open);
          assert w.value == last || KeyLe(w.value, last, le);
        }
      } else {
        var r := Inserted(ops[..|ops| - 1], op, le);
        assert (r + [last])[..|r|] == r;
        InsertedLastTouch(ops[..|ops| - 1], op, path, keys, open, le);
        if !Touches(last, path, keys, open) {
          var w := LastTouch(ops, path, keys, open);
        }
      }
    }
  }

  lemma {:induction false} SortedLastTouch(ops: seq<Op>, path: string, keys: Keys, open: Opener, le: DeviceOrder)
    requires TotalPreorder(le)
    ensures LastTouch(Sorted(ops, le), path, keys, open) == Winner(ops, path, keys, open, le)
  {
    if ops != [] {
      SortedLastTouch(ops[..|ops| - 1], path, keys, open, le);
      SortedSorts(ops[..|ops| - 1], le);
      InsertedLastTouch(Sorted(ops[..|ops| - 1], le), ops[|ops| - 1], path, keys, open, le);
    }
  }

  /** Sorting and folding is asking, path by path, for the winner. */
  lemma AnswerIsWinner(ops: seq<Op>, path: string, keys: Keys, open: Opener, le: DeviceOrder)
    requires TotalPreorder(le)
    ensures At(AnswersOf(ops, keys, open, le), path) == SaysAt(Winner(ops, path, keys, open, le), keys, open)
  {
    FoldIsLastTouch(Sorted(ops, le), path, keys, open);
    SortedLastTouch(ops, path, keys, open, le);
  }

  // ------------------------------------------------------ the winner, spelled out

  /** The i-th operation to arrive decides about the path: nothing that touches it is later
      in (counter, device) order, nor tied and arrived later. */
  predicate Decides(ops: seq<Op>, i: nat, path: string, keys: Keys, open: Opener, le: DeviceOrder)
  {
    && i < |ops| && Touches(ops[i], path, keys, open)
    && forall j | 0 <= j < |ops| && Touches(ops[j], path, keys, open) ::
         KeyLe(ops[j], ops[i], le) && (KeyLe(ops[i], ops[j], le) ==> j <= i)
  }

  lemma {:induction false} WinnerDecides(ops: seq<Op>, path: string, keys: Keys, open: Opener, le: DeviceOrder)
    returns (i: nat)
    requires TotalPreorder(le)
    ensures Winner(ops, path, keys, open, le).None? ==>
              forall j | 0 <= j < |ops| :: !Touches(ops[j], path, keys, open)
    ensures Winner(ops, path, keys, open, le).Some? ==>
              Decides(ops, i, path, keys, open, le) && ops[i] == Winner(ops, path, keys, open, le).value
  {
    i := 0;
    if ops != [] {
      var n := |ops| - 1;
      var front, op := ops[..n], ops[n];
      i := WinnerDecides(front, path, keys, open, le);
      var w := Winner(front, path, keys, open, le);
      if Touches(op, path, keys, open) && (w.None? || KeyLe(w.value, op, le)) {
        i := n;
        KeyLeTotal(op, op, le);
        forall j | 0 <= j < |ops| && Touches(ops[j], path, keys, open) ensures KeyLe(ops[j], op, le) {
          if j < n {
            assert Touches(front[j], path, keys, open);
            KeyLeTrans(ops[j], w.value, op, le);
          }
        }
      } else if w.Some? {
        if Touches(op, path, keys, open) { KeyLeTotal(w.value, op, le); }
        forall j | 0 <= j < |ops| && Touches(ops[j], path, keys, open)
          ensures KeyLe(ops[j], ops[i], le) && (KeyLe(ops[i], ops[j], le) ==> j <= i)
        {
          if j < n { assert Touches(front[j], path, keys, open); }
        }
      }
    }
  }

  /** The answer at a path is what the operation that decides about it says; none when nothing touches it. */
  lemma FoldDecided(ops: seq<Op>, path: string, keys: Keys, open: Opener, le: DeviceOrder)
    requires TotalPreorder(le)
    ensures forall v :: At(AnswersOf(ops, keys, open, le), path) == Some(v) <==>
              exists i: nat :: Decides(ops, i, path, keys, open, le)
                               && ops[i].kind.Set? && Read(ops[i], keys, open) == Some(v)
  {
    AnswerIsWinner(ops, path, keys, open, le);
    var i := WinnerDecides(ops, path, keys, open, le);
    forall j: nat | Decides(ops, j, path, keys, open, le)
      ensures Winner(ops, path, keys, open, le).Some? && j == i
    {
      assert Touches(ops[j], path, keys, open);
    }
  }

  // ------------------------------------------------ the same, on an operation's fields

  /** Written in the clear with this value, or under a key in hand that opens it to this value. */
  predicate Carries(op: Op, v: Json, keys: Keys, open: Opener)
  {
    if op.encrypted then
      op.contentKeyId.Some? && op.contentKeyId.value in keys && open(op, keys[op.contentKeyId.value]) == Some(v)
    else op.value == v
  }

  /** Written in the clear, or under a key in hand that opens it. */
  predicate Legible(op: Op, keys: Keys, open: Opener)
  {
    op.encrypted ==>
      op.contentKeyId.Some? && op.contentKeyId.value in keys && open(op, keys[op.contentKeyId.value]).Some?
  }

  /** Legible, and about this path: by name, or deleting it as a continuation at a `.` or a `[`. */
  predicate Concerns(op: Op, path: string, keys: Keys, open: Opener)
  {
    op.path.Some? && Legible(op, keys, open) &&
    var named := op.path.value;
    || ((op.kind.Set? || op.kind.Unset? || op.kind.RepeatDelete?) && path == named)
    || (op.kind.RepeatDelete? && |named| < |path| && path[..|named|] == named && (path[|named|] == '.' || path[|named|] == '['))
  }

  /** Of all operations about the path it has the greatest counter; among those the last
      device; and among what is tied on both it arrived last. */
  predicate HasLastWord(ops: seq<Op>, i: nat, path: string, keys: Keys, open: Opener, le: DeviceOrder)
  {
    && i < |ops| && Concerns(ops[i], path, keys, open)
    && forall j | 0 <= j < |ops| && j != i && Concerns(ops[j], path, keys, open) ::
         || ops[j].counter < ops[i].counter
         || (&& ops[j].counter == ops[i].counter && le(ops[j].device, ops[i].device)
             && (le(ops[i].device, ops[j].device) ==> j < i))
  }

  lemma ConcernsIsTouches(op: Op, path: string, keys: Keys, open: Opener)
    ensures Concerns(op, path, keys, open) <==> Touches(op, path, keys, open)
    ensures Legible(op, keys, open) <==> Read(op, keys, open).Some?
    ensures forall v :: Carries(op, v, keys, open) <==> Read(op, keys, open) == Some(v)
  {
    if op.path.Some? { CoversByNextChar(op.path.value, path); }
  }

  lemma CoversByNextChar(deleted: string, path: string)
    ensures Covers(deleted, path) <==>
      || path == deleted
      || (|deleted| < |path| && path[..|deleted|] == deleted && (path[|deleted|] == '.' || path[|deleted|] == '['))
  {
    forall c: char
      ensures deleted + [c] <= path <==> |deleted| < |path| && path[..|deleted|] == deleted && path[|deleted|] == c
    {
      if deleted + [c] <= path {
        assert path[..|deleted| + 1] == deleted + [c];
        assert path[..|deleted|] == path[..|deleted| + 1][..|deleted|];
      }
      if |deleted| < |path| && path[..|deleted|] == deleted && path[|deleted|] == c {
        assert path[..|deleted| + 1] == deleted + [c];
      }
    }
    assert "." == ['.'] && "[" == ['['];
  }

  lemma LastWordIsDecides(ops: seq<Op>, i: nat, path: string, keys: Keys, open: Opener, le: DeviceOrder)
    requires TotalPreorder(le)
    ensures HasLastWord(ops, i, path, keys, open, le) <==> Decides(ops, i, path, keys, open, le)
  {
    forall op
      ensures Concerns(op, path, keys, open) <==> Touches(op, path, keys, open)
    {
      ConcernsIsTouches(op, path, keys, open);
    }
    hide Concerns, Touches;
  }

  /**
   * The fold, for every log in every arrival order: a path has an answer exactly when the
   * operation with the last word on it is a set, and the answer is the value that operation
   * carries - in the clear as it stands, encrypted as its key opens it.
   */
  lemma FoldExact(ops: seq<Op>, path: string, v: Json, keys: Keys, open: Opener, le: DeviceOrder)
    requires TotalPreorder(le)
    ensures var answers := AnswersOf(ops, keys, open, le);
            path in answers && answers[path] == v <==>
              exists i: nat :: HasLastWord(ops, i, path, keys, open, le)
                               && ops[i].kind.Set? && Carries(ops[i], v, keys, open)
  {
    FoldDecided(ops, path, keys, open, le);
    forall i: nat
      ensures HasLastWord(ops, i, path, keys, open, le) <==> Decides(ops, i, path, keys, open, le)
    {
      LastWordIsDecides(ops, i, path, keys, open, le);
    }
    forall op
      ensures Carries(op, v, keys, open) <==> Read(op, keys, open) == Some(v)
    {
      ConcernsIsTouches(op, path, keys, open);
    }
    var answers := AnswersOf(ops, keys, open, le);
    assert At(answers, path) == Some(v) <==> path in answers && answers[path] == v;
    hide HasLastWord, Decides, Carries, Read, AnswersOf;
  }

  // ------------------------------------------------------------- arrival order

  /** Among the operations that touch the path, none has a greater key. */
  predicate Tops(ops: seq<Op>, op: Op, path: string, keys: Keys, open: Opener, le: DeviceOrder)
  {
    && op in ops && Touches(op, path, keys, open)
    && forall o <- ops | Touches(o, path, keys, open) :: KeyLe(o, op, le)
  }

  /** Operations tied for the last word on a path all say the same. */
  ghost predicate TiesAgree(ops: seq<Op>, keys: Keys, open: Opener, le: DeviceOrder)
  {
    forall path, a, b :: Tops(ops, a, path, keys, open, le) && Tops(ops, b, path, keys, open, le)
                         ==> Says(a, keys, open) == Says(b, keys, open)
  }

  ghost predicate ArrivalFree(ops: seq<Op>, keys: Keys, open: Opener, le: DeviceOrder)
  {
    forall other :: multiset(other) == multiset(ops) ==> AnswersOf(other, keys, open, le) == AnswersOf(ops, keys, open, le)
  }

  lemma WinnerTops(ops: seq<Op>, path: string, keys: Keys, open: Opener, le: DeviceOrder)
    requires TotalPreorder(le)
    ensures match Winner(ops, path, keys, open, le)
            case None => forall o <- ops :: !Touches(o, path, keys, open)
            case Some(w) => Tops(ops, w, path, keys, open, le)
  {
    var i := WinnerDecides(ops, path, keys, open, le);
    if Winner(ops, path, keys, open, le).Some? {
      forall o | o in ops && Touches(o, path, keys, open) ensures KeyLe(o, ops[i], le) {
        var j :| 0 <= j < |ops| && ops[j] == o;
      }
    }
  }

  lemma SameAnswers(a: Answers, b: Answers)
    requires forall path :: At(a, path) == At(b, path)
    ensures a == b
  {
    forall path ensures path in a <==> path in b {
      assert At(a, path) == At(b, path);
    }
    forall path | path in a ensures a[path] == b[path] {
      assert At(a, path) == At(b, path);
    }
  }

  lemma AgreeingIsFree(ops: seq<Op>, other: seq<Op>, keys: Keys, open: Opener, le: DeviceOrder)
    requires TotalPreorder(le) && TiesAgree(ops, keys, open, le) && multiset(other) == multiset(ops)
    ensures AnswersOf(other, keys, open, le) == AnswersOf(ops, keys, open, le)
  {
    forall o ensures o in other <==> o in ops {
      assert o in multiset(other) <==> o in multiset(ops);
    }
    forall path ensures At(AnswersOf(other, keys, open, le), path) == At(AnswersOf(ops, keys, open, le), path) {
      AnswerIsWinner(ops, path, keys, open, le);
      AnswerIsWinner(other, path, keys, open, le);
      WinnerTops(ops, path, keys, open, le);
      WinnerTops(other, path, keys, open, le);
      var w, x := Winner(ops, path, keys, open, le), Winner(other, path, keys, open, le);
      if x.Some? {
        assert x.value in ops;
        assert Tops(ops, x.value, path, keys, open, le);
      }
    }
    SameAnswers(AnswersOf(other, keys, open, le), AnswersOf(ops, keys, open, le));
  }

  /** Arriving last settles a tie. */
  lemma LastArrivalWins(ops: seq<Op>, op: Op, path: string, keys: Keys, open: Opener, le: DeviceOrder)
    returns (other: seq<Op>)
    requires TotalPreorder(le) && Tops(ops, op, path, keys, open, le)
    ensures multiset(other) == multiset(ops)
    ensures At(AnswersOf(other, keys, open, le), path) == Says(op, keys, open)
  {
    var i :| 0 <= i < |ops| && ops[i] == op;
    var front := ops[..i] + ops[i + 1..];
    other := front + [op];
    assert ops == ops[..i] + [op] + ops[i + 1..];
    assert multiset(other) == multiset(ops);
    assert other[..|other| - 1] == front;
    WinnerTops(front, path, keys, open, le);
    AnswerIsWinner(other, path, keys, open, le);
    var w := Winner(front, path, keys, open, le);
    if w.Some? { assert w.value in ops; }
  }

  /**
   * The fold does not depend on arrival order exactly when the operations tied for the
   * last word on each path say the same thing about it.
   */
  lemma ArrivalExactly(ops: seq<Op>, keys: Keys, open: Opener, le: DeviceOrder)
    requires TotalPreorder(le)
    ensures ArrivalFree(ops, keys, open, le) <==> TiesAgree(ops, keys, open, le)
  {
    if TiesAgree(ops, keys, open, le) {
      forall other | multiset(other) == multiset(ops)
        ensures AnswersOf(other, keys, open, le) == AnswersOf(ops, keys, open, le)
      {
        AgreeingIsFree(ops, other, keys, open, le);
      }
    }
    if ArrivalFree(ops, keys, open, le) {
      forall path, a, b | Tops(ops, a, path, keys, open, le) && Tops(ops, b, path, keys, open, le)
        ensures Says(a, keys, open) == Says(b, keys, open)
      {
        var x := LastArrivalWins(ops, a, path, keys, open, le);
        var y := LastArrivalWins(ops, b, path, keys, open, le);
      }
    }
  }

  /** Devices are told apart, and no device uses a counter twice, as the log table requires. */
  ghost predicate KeysDistinct(ops: seq<Op>, le: DeviceOrder)
  {
    forall a <- ops, b <- ops :: KeyLe(a, b, le) && KeyLe(b, a, le) ==> a == b
  }

  lemma DistinctKeysArriveFreely(ops: seq<Op>, keys: Keys, open: Opener, le: DeviceOrder)
    requires TotalPreorder(le) && KeysDistinct(ops, le)
    ensures ArrivalFree(ops, keys, open, le)
  {
    assert TiesAgree(ops, keys, open, le);
    ArrivalExactly(ops, keys, open, le);
  }

  /**
   * No device uses a counter twice, as the log table demands, and the order tells the log's
   * devices apart, as code points do and a collation need not: then arrival order never shows.
   */
  lemma UniqueCountersArriveFreely(ops: seq<Op>, keys: Keys, open: Opener, le: DeviceOrder)
    requires TotalPreorder(le)
    requires forall a <- ops, b <- ops :: a.device == b.device && a.counter == b.counter ==> a == b
    requires forall a <- ops, b <- ops :: le(a.device, b.device) && le(b.device, a.device) ==> a.device == b.device
    ensures ArrivalFree(ops, keys, open, le)
  {
    assert KeysDistinct(ops, le);
    DistinctKeysArriveFreely(ops, keys, open, le);
  }

  /** Two sets of one path by one device under one counter: whichever arrives last is the answer. */
  lemma ArrivalShows(keys: Keys, open: Opener, le: DeviceOrder)
    requires TotalPreorder(le)
    ensures var a := Op("1", 1, "d", Set, Some("q"), false, None, Json(1), "");
            var b := Op("2", 1, "d", Set, Some("q"), false, None, Json(2), "");
            && multiset([a, b]) == multiset([b, a])
            && At(AnswersOf([a, b], keys, open, le), "q") == Some(Json(2))
            && At(AnswersOf([b, a], keys, open, le), "q") == Some(Json(1))
  {
    var a := Op("1", 1, "d", Set, Some("q"), false, None, Json(1), "");
    var b := Op("2", 1, "d", Set, Some("q"), false, None, Json(2), "");
    LaterTiedWins(a, b, "q", keys, open, le);
    LaterTiedWins(b, a, "q", keys, open, le);
  }

  lemma LaterTiedWins(a: Op, b: Op, path: string, keys: Keys, open: Opener, le: DeviceOrder)
    requires TotalPreorder(le) && KeyLe(a, b, le) && KeyLe(b, a, le)
    requires Touches(a, path, keys, open) && Touches(b, path, keys, open)
    ensures At(AnswersOf([a, b], keys, open, le), path) == Says(b, keys, open)
  {
    AnswerIsWinner([a, b], path, keys, open, le);
    var i := WinnerDecides([a, b], path, keys, open, le);
    assert [a, b][0] == a && [a, b][1] == b;
    assert Touches([a, b][0], path, keys, open) && Touches([a, b][1], path, keys, open);
  }

  // ------------------------------------------------------------------ more keys

  lemma {:induction false} WinnerSameReads(
      ops: seq<Op>, path: string, keys: Keys, more: Keys, open: Opener, le: DeviceOrder)
    requires forall op <- ops :: Touches(op, path, keys, open) <==> Touches(op, path, more, open)
    ensures Winner(ops, path, keys, open, le) == Winner(ops, path, more, open, le)
  {
    if ops != [] {
      assert ops[|ops| - 1] in ops;
      WinnerSameReads(ops[..|ops| - 1], path, keys, more, open, le);
    }
  }

  /** Opening more keys changes the answer only at paths touched by an operation they make readable. */
  lemma MoreKeys(ops: seq<Op>, path: string, keys: Keys, more: Keys, open: Opener, le: DeviceOrder)
    requires TotalPreorder(le)
    requires forall k | k in keys :: k in more && more[k] == keys[k]
    requires forall op <- ops | Touches(op, path, more, open) :: Read(op, keys, open).Some?
    ensures At(AnswersOf(ops, keys, open, le), path) == At(AnswersOf(ops, more, open, le), path)
  {
    forall op | op in ops ensures Touches(op, path, keys, open) <==> Touches(op, path, more, open) {}
    WinnerSameReads(ops, path, keys, more, open, le);
    AnswerIsWinner(ops, path, keys, open, le);
    AnswerIsWinner(ops, path, more, open, le);
    WinnerTops(ops, path, keys, open, le);
  }

  // --------------------------------------------------- two implementations, two orders

  /** The orders agree wherever the log lets them be asked. */
  predicate OrdersAgree(ops: seq<Op>, le: DeviceOrder, le': DeviceOrder)
  {
    forall a <- ops, b <- ops | a.counter == b.counter :: le(a.device, b.device) == le'(a.device, b.device)
  }

  lemma {:induction false} WinnerAgrees(
      ops: seq<Op>, path: string, keys: Keys, open: Opener, le: DeviceOrder, le': DeviceOrder)
    requires OrdersAgree(ops, le, le')
    ensures Winner(ops, path, keys, open, le) == Winner(ops, path, keys, open, le')
    ensures Winner(ops, path, keys, open, le).Some? ==> Winner(ops, path, keys, open, le).value in ops
  {
    if ops != [] {
      assert ops == ops[..|ops| - 1] + [ops[|ops| - 1]];
      WinnerAgrees(ops[..|ops| - 1], path, keys, open, le, le');
    }
  }

  /** Two folds whose device orders agree on the log give the same answers. */
  lemma OrdersAgreeAnswersAgree(ops: seq<Op>, keys: Keys, open: Opener, le: DeviceOrder, le': DeviceOrder)
    requires TotalPreorder(le) && TotalPreorder(le') && OrdersAgree(ops, le, le')
    ensures AnswersOf(ops, keys, open, le) == AnswersOf(ops, keys, open, le')
  {
    forall path ensures At(AnswersOf(ops, keys, open, le), path) == At(AnswersOf(ops, keys, open, le'), path) {
      WinnerAgrees(ops, path, keys, open, le, le');
      AnswerIsWinner(ops, path, keys, open, le);
      AnswerIsWinner(ops, path, keys, open, le');
    }
    SameAnswers(AnswersOf(ops, keys, open, le), AnswersOf(ops, keys, open, le'));
  }

  /** One operation reaches into what the other names. */
  predicate Overlap(a: Op, b: Op)
    requires a.path.Some? && b.path.Some?
  {
    || (if a.kind.RepeatDelete? then Covers(a.path.value, b.path.value) else a.path == b.path)
    || (if b.kind.RepeatDelete? then Covers(b.path.value, a.path.value) else a.path == b.path)
  }

  predicate Counts(op: Op, keys: Keys, open: Opener)
  {
    op.path.Some? && Read(op, keys, open).Some? && (op.kind.Set? || op.kind.Unset? || op.kind.RepeatDelete?)
  }

  /** Two operations touch a common path exactly when one reaches into what the other names. */
  lemma OverlapExactly(a: Op, b: Op, keys: Keys, open: Opener)
    requires Counts(a, keys, open) && Counts(b, keys, open)
    ensures Overlap(a, b) <==> exists path :: Touches(a, path, keys, open) && Touches(b, path, keys, open)
  {
    var p, q := a.path.value, b.path.value;
    if Overlap(a, b) {
      assert Touches(a, p, keys, open) && Touches(b, q, keys, open);
      assert (Touches(a, q, keys, open) && Touches(b, q, keys, open)) || (Touches(a, p, keys, open) && Touches(b, p, keys, open));
    }
    forall path | Touches(a, path, keys, open) && Touches(b, path, keys, open) ensures Overlap(a, b) {
      if a.kind.RepeatDelete? && b.kind.RepeatDelete? { CoversNest(p, q, path); }
    }
  }

  /** Of two deletions that cover one path, one covers the other's path. */
  lemma CoversNest(p: string, q: string, path: string)
    requires Covers(p, path) && Covers(q, path)
    ensures Covers(p, q) || Covers(q, p)
  {
    assert path[..|p|] == p && path[..|q|] == q;
    if |p| < |q| {
      assert path[|p|] == q[|p|];
      assert q[..|p|] == path[..|p|];
      assert p + [q[|p|]] <= q;
    } else if |q| < |p| {
      assert path[|q|] == p[|q|];
      assert p[..|q|] == path[..|q|];
      assert q + [p[|q|]] <= p;
    } else {
      assert p == path[..|p|] == q;
    }
  }

  /** No two operations tied on the counter overlap. */
  predicate TiesApart(ops: seq<Op>, keys: Keys, open: Opener)
  {
    forall i, j | 0 <= i < j < |ops| && ops[i].counter == ops[j].counter
                  && Counts(ops[i], keys, open) && Counts(ops[j], keys, open) :: !Overlap(ops[i], ops[j])
  }

  lemma {:induction false} WinnerOrderFree(
      ops: seq<Op>, path: string, keys: Keys, open: Opener, le: DeviceOrder, le': DeviceOrder)
    requires TiesApart(ops, keys, open)
    ensures Winner(ops, path, keys, open, le) == Winner(ops, path, keys, open, le')
    ensures Winner(ops, path, keys, open, le).Some? ==>
              exists i :: 0 <= i < |ops| && ops[i] == Winner(ops, path, keys, open, le).value
                          && Touches(ops[i], path, keys, open)
  {
    if ops != [] {
      var front, op := ops[..|ops| - 1], ops[|ops| - 1];
      WinnerOrderFree(front, path, keys, open, le, le');
      var w := Winner(front, path, keys, open, le);
      if w.Some? && Touches(op, path, keys, open) {
        var i :| 0 <= i < |front| && front[i] == w.value && Touches(front[i], path, keys, open);
        OverlapExactly(ops[i], op, keys, open);
        assert w.value.counter != op.counter;
      }
    }
  }

  /** When no tied operations overlap, the answers are the same under every device order. */
  lemma TieBreakNeedsOverlap(ops: seq<Op>, keys: Keys, open: Opener, le: DeviceOrder, le': DeviceOrder)
    requires TotalPreorder(le) && TotalPreorder(le') && TiesApart(ops, keys, open)
    ensures AnswersOf(ops, keys, open, le) == AnswersOf(ops, keys, open, le')
  {
    forall path ensures At(AnswersOf(ops, keys, open, le), path) == At(AnswersOf(ops, keys, open, le'), path) {
      WinnerOrderFree(ops, path, keys, open, le, le');
      AnswerIsWinner(ops, path, keys, open, le);
      AnswerIsWinner(ops, path, keys, open, le');
    }
    SameAnswers(AnswersOf(ops, keys, open, le), AnswersOf(ops, keys, open, le'));
  }

  /** Order by code points, as the recovery script compares device ids. */
  predicate CodePointLe(a: string, b: string)
  {
    a == "" || (b != "" && (a[0] < b[0] || (a[0] == b[0] && CodePointLe(a[1..], b[1..]))))
  }

  /** No two different devices are tied. */
  ghost predicate TellsApart(le: DeviceOrder)
  {
    forall a, b :: le(a, b) && le(b, a) ==> a == b
  }

  lemma {:induction false} CodePointsTotal(a: string, b: string)
    ensures CodePointLe(a, b) || CodePointLe(b, a)
    ensures CodePointLe(a, b) && CodePointLe(b, a) ==> a == b
    decreases |a|
  {
    if a != "" && b != "" && a[0] == b[0] {
      CodePointsTotal(a[1..], b[1..]);
      assert a == [a[0]] + a[1..] && b == [b[0]] + b[1..];
    }
  }

  lemma {:induction false} CodePointsTransitive(a: string, b: string, c: string)
    requires CodePointLe(a, b) && CodePointLe(b, c)
    ensures CodePointLe(a, c)
    decreases |a|
  {
    if a != "" && a[0] == b[0] == c[0] { CodePointsTransitive(a[1..], b[1..], c[1..]); }
  }

  /** Code points put devices in a total order that tells all of them apart. */
  lemma CodePointsOrder()
    ensures TotalPreorder(CodePointLe) && TellsApart(CodePointLe)
  {
    forall a, b
      ensures CodePointLe(a, b) || CodePointLe(b, a)
      ensures CodePointLe(a, b) && CodePointLe(b, a) ==> a == b
    {
      CodePointsTotal(a, b);
    }
    forall a, b, c | CodePointLe(a, b) && CodePointLe(b, c)
      ensures CodePointLe(a, c)
    {
      CodePointsTransitive(a, b, c);
    }
  }

  /** In the order of code points, then, counters no device uses twice are enough for arrival not to show. */
  lemma CodePointsArriveFreely(ops: seq<Op>, keys: Keys, open: Opener)
    requires forall a <- ops, b <- ops :: a.device == b.device && a.counter == b.counter ==> a == b
    ensures ArrivalFree(ops, keys, open, CodePointLe)
  {
    CodePointsOrder();
    UniqueCountersArriveFreely(ops, keys, open, CodePointLe);
  }

  /** The device order that puts one device after all others, which stay in the order of code points. */
  function Latest(device: string): DeviceOrder
  {
    (a: string, b: string) => b == device || (a != device && CodePointLe(a, b))
  }

  lemma LatestOrders(device: string)
    ensures TotalPreorder(Latest(device)) && TellsApart(Latest(device))
  {
    CodePointsOrder();
  }

  /** The i-th operation has the last word on the path as far as counters go, and as far as its own device goes. */
  predicate LastOfItsDevice(ops: seq<Op>, i: nat, path: string, keys: Keys, open: Opener)
  {
    && i < |ops| && Touches(ops[i], path, keys, open)
    && forall j | 0 <= j < |ops| && Touches(ops[j], path, keys, open) ::
         && ops[j].counter <= ops[i].counter
         && (ops[j].counter == ops[i].counter && ops[j].device == ops[i].device ==> j <= i)
  }

  /** On every path, the devices that share the greatest counter say the same in the end. */
  ghost predicate DevicesAgree(ops: seq<Op>, keys: Keys, open: Opener)
  {
    forall path, i: nat, j: nat | LastOfItsDevice(ops, i, path, keys, open) && LastOfItsDevice(ops, j, path, keys, open) ::
      Says(ops[i], keys, open) == Says(ops[j], keys, open)
  }

  /** Every order of devices gives the same answers. */
  ghost predicate DeviceFree(ops: seq<Op>, keys: Keys, open: Opener)
  {
    forall le: DeviceOrder, le': DeviceOrder | TotalPreorder(le) && TotalPreorder(le') ::
      AnswersOf(ops, keys, open, le) == AnswersOf(ops, keys, open, le')
  }

  /** Every order of devices that tells them all apart gives the same answers. */
  ghost predicate DeviceFreeApart(ops: seq<Op>, keys: Keys, open: Opener)
  {
    forall le: DeviceOrder, le': DeviceOrder | TotalPreorder(le) && TellsApart(le) && TotalPreorder(le') && TellsApart(le') ::
      AnswersOf(ops, keys, open, le) == AnswersOf(ops, keys, open, le')
  }

  /** Only one operation decides, so the answer is what it says. */
  lemma DeciderSays(ops: seq<Op>, i: nat, path: string, keys: Keys, open: Opener, le: DeviceOrder)
    requires TotalPreorder(le) && Decides(ops, i, path, keys, open, le)
    ensures At(AnswersOf(ops, keys, open, le), path) == Says(ops[i], keys, open)
  {
    AnswerIsWinner(ops, path, keys, open, le);
    var k := WinnerDecides(ops, path, keys, open, le);
    KeyLeTotal(ops[i], ops[k], le);
  }

  /** Whatever the order of devices, what decides is the last word of its own device. */
  lemma DeciderIsLast(ops: seq<Op>, i: nat, path: string, keys: Keys, open: Opener, le: DeviceOrder)
    requires TotalPreorder(le) && Decides(ops, i, path, keys, open, le)
    ensures LastOfItsDevice(ops, i, path, keys, open)
  {
    assert le(ops[i].device, ops[i].device);
  }

  /** Some order lets any such last word decide: the one that puts its device after all others. */
  lemma LastCanDecide(ops: seq<Op>, i: nat, path: string, keys: Keys, open: Opener)
    requires LastOfItsDevice(ops, i, path, keys, open)
    ensures TotalPreorder(Latest(ops[i].device)) && TellsApart(Latest(ops[i].device))
    ensures Decides(ops, i, path, keys, open, Latest(ops[i].device))
  {
    LatestOrders(ops[i].device);
    forall j | 0 <= j < |ops| && Touches(ops[j], path, keys, open)
      ensures KeyLe(ops[j], ops[i], Latest(ops[i].device))
      ensures KeyLe(ops[i], ops[j], Latest(ops[i].device)) ==> j <= i
    {}
  }

  /**
   * The order of devices matters exactly when devices that share a path's greatest counter
   * disagree about it, whether devices may tie in the order or not.
   */
  lemma DeviceOrderExactly(ops: seq<Op>, keys: Keys, open: Opener)
    ensures DeviceFree(ops, keys, open) <==> DevicesAgree(ops, keys, open)
    ensures DeviceFreeApart(ops, keys, open) <==> DevicesAgree(ops, keys, open)
  {
    if DevicesAgree(ops, keys, open) {
      forall le: DeviceOrder, le': DeviceOrder | TotalPreorder(le) && TotalPreorder(le')
        ensures AnswersOf(ops, keys, open, le) == AnswersOf(ops, keys, open, le')
      {
        AgreeingDevicesAnswerAlike(ops, keys, open, le, le');
      }
    }
    if DeviceFreeApart(ops, keys, open) { FreeDevicesAgree(ops, keys, open); }
  }

  lemma FreeDevicesAgree(ops: seq<Op>, keys: Keys, open: Opener)
    requires DeviceFreeApart(ops, keys, open)
    ensures DevicesAgree(ops, keys, open)
  {
    forall path, i: nat, j: nat | LastOfItsDevice(ops, i, path, keys, open) && LastOfItsDevice(ops, j, path, keys, open)
      ensures Says(ops[i], keys, open) == Says(ops[j], keys, open)
    {
      LastCanDecide(ops, i, path, keys, open);
      LastCanDecide(ops, j, path, keys, open);
      DeciderSays(ops, i, path, keys, open, Latest(ops[i].device));
      DeciderSays(ops, j, path, keys, open, Latest(ops[j].device));
    }
  }

  lemma AgreeingDevicesAnswerAlike(ops: seq<Op>, keys: Keys, open: Opener, le: DeviceOrder, le': DeviceOrder)
    requires TotalPreorder(le) && TotalPreorder(le') && DevicesAgree(ops, keys, open)
    ensures AnswersOf(ops, keys, open, le) == AnswersOf(ops, keys, open, le')
  {
    forall path ensures At(AnswersOf(ops, keys, open, le), path) == At(AnswersOf(ops, keys, open, le'), path) {
      AnswerIsWinner(ops, path, keys, open, le);
      AnswerIsWinner(ops, path, keys, open, le');
      var i := WinnerDecides(ops, path, keys, open, le);
      var j := WinnerDecides(ops, path, keys, open, le');
      if Winner(ops, path, keys, open, le).Some? && Winner(ops, path, keys, open, le').Some? {
        DeciderIsLast(ops, i, path, keys, open, le);
        DeciderIsLast(ops, j, path, keys, open, le');
      }
    }
    SameAnswers(AnswersOf(ops, keys, open, le), AnswersOf(ops, keys, open, le'));
  }

  /** So two tied operations of different devices that disagree on a path are told apart by nothing else. */
  lemma TieBreakDecides(a: Op, b: Op, path: string, keys: Keys, open: Opener)
    requires a.counter == b.counter && a.device != b.device
    requires Touches(a, path, keys, open) && Touches(b, path, keys, open)
    requires Says(a, keys, open) != Says(b, keys, open)
    ensures !DeviceFree([a, b], keys, open) && !DeviceFreeApart([a, b], keys, open)
  {
    DeviceOrderExactly([a, b], keys, open);
    assert [a, b][0] == a && [a, b][1] == b;
    assert LastOfItsDevice([a, b], 0, path, keys, open) && LastOfItsDevice([a, b], 1, path, keys, open);
  }
}
