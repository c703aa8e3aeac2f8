/**
 * Writing a type expression down and reading it back: unions are joined by bars, array
 * elements are parenthesised when a bar shows in them, and records close with a bracket.
 */
module TypeText {
  import opened Options
  import opened SchemaClosure

  /** What the text of a type is made of; spaces carry nothing. */
  datatype Token = Word(text: string) | Bar | LeftParen | RightParen | Brackets | RecordStart | RecordEnd

  // -------------------------------------------------------------- writing

  /** Python's `"|" in text`. */
  predicate ShowsBar(text: seq<Token>)
  {
    exists t <- text :: t.Bar? || (t.Word? && '|' in t.text)
  }

  /** `" | ".join(parts)`. */
  function Joined(parts: seq<seq<Token>>): seq<Token>
  {
    if parts == [] then [] else if |parts| == 1 then parts[0] else parts[0] + [Bar] + Joined(parts[1..])
  }

  /** `dict.fromkeys`: the first of equals, in order. */
  function Unrepeated<T(==)>(list: seq<T>): seq<T>
  {
    if list == [] then [] else
      var front := Unrepeated(list[..|list| - 1]);
      if list[|list| - 1] in front then front else front + [list[|list| - 1]]
  }

  function BracketedText(inner: seq<Token>): seq<Token>
  {
    (if ShowsBar(inner) then [LeftParen] + inner + [RightParen] else inner) + [Brackets]
  }

  function Words(values: seq<Json>, dump: Json -> string): seq<seq<Token>>
  {
    seq(|values|, i requires 0 <= i < |values| => [Word(dump(values[i]))])
  }

  /** `ts_type`'s text for a type; `dump` is `json.dumps`. */
  function Print(t: TsType, dump: Json -> string): seq<Token>
  {
    match t
    case Named(n) => [Word(n)]
    case Union(members) => Joined(Unrepeated(PrintAll(members, dump)))
    case Literals(values) => Joined(Words(values, dump))
    case Unknown => [Word("unknown")]
    case Primitive(spelling) => [Word(spelling)]
    case ArrayOf(inner) => BracketedText(Print(inner, dump))
    case RecordOf(element) => [RecordStart] + Print(element, dump) + [RecordEnd]
  }

  function PrintAll(ts: seq<TsType>, dump: Json -> string): seq<seq<Token>>
  {
    if ts == [] then [] else PrintAll(ts[..|ts| - 1], dump) + [Print(ts[|ts| - 1], dump)]
  }

  // -------------------------------------------------------------- meaning

  /** A type as a reader understands it: alternatives, each a name, an array or a record. */
  datatype Term = Name(text: string) | Array(of: seq<Term>) | Record(of: seq<Term>)

  function Concat(alternatives: seq<seq<Term>>): seq<Term>
  {
    if alternatives == [] then [] else alternatives[0] + Concat(alternatives[1..])
  }

  function Names(values: seq<Json>, dump: Json -> string): seq<seq<Term>>
  {
    seq(|values|, i requires 0 <= i < |values| => [Name(dump(values[i]))])
  }

  /** What a type means, with no text in between: a union of unions is one union. */
  function Meaning(t: TsType, dump: Json -> string): seq<Term>
  {
    match t
    case Named(n) => [Name(n)]
    case Union(members) => Concat(Unrepeated(Meanings(members, dump)))
    case Literals(values) => Concat(Names(values, dump))
    case Unknown => [Name("unknown")]
    case Primitive(spelling) => [Name(spelling)]
    case ArrayOf(inner) => [Array(Meaning(inner, dump))]
    case RecordOf(element) => [Record(Meaning(element, dump))]
  }

  function Meanings(ts: seq<TsType>, dump: Json -> string): seq<seq<Term>>
  {
    if ts == [] then [] else Meanings(ts[..|ts| - 1], dump) + [Meaning(ts[|ts| - 1], dump)]
  }

  // -------------------------------------------------------------- reading

  datatype Parsed = Parsed(alternatives: seq<Term>, rest: seq<Token>)

  /** Alternatives separated by bars. */
  function ReadType(text: seq<Token>): (r: Option<Parsed>)
    ensures r.Some? ==> |r.value.rest| < |text|
    decreases |text|, 1
  {
    match ReadOne(text)
    case None => None
    case Some(Parsed(one, rest)) =>
      if rest != [] && rest[0].Bar? then
        match ReadType(rest[1..])
        case None => None
        case Some(Parsed(more, after)) => Some(Parsed(one + more, after))
      else Some(Parsed(one, rest))
  }

  /** A name, a parenthesised type or a record, then any number of brackets. */
  function ReadOne(text: seq<Token>): (r: Option<Parsed>)
    ensures r.Some? ==> |r.value.rest| < |text|
    decreases |text|, 0
  {
    if text == [] then None else
      match text[0]
      case Word(w) => Some(Bracketed([Name(w)], text[1..]))
      case LeftParen =>
        (match ReadType(text[1..])
         case None => None
         case Some(Parsed(inner, rest)) =>
           if rest != [] && rest[0].RightParen? then Some(Bracketed(inner, rest[1..])) else None)
      case RecordStart =>
        (match ReadType(text[1..])
         case None => None
         case Some(Parsed(element, rest)) =>
           if rest != [] && rest[0].RecordEnd? then Some(Bracketed([Record(element)], rest[1..])) else None)
      case _ => None
  }

  /** Each pair of brackets makes an array of what stands before it. */
  function Bracketed(alternatives: seq<Term>, text: seq<Token>): (r: Parsed)
    ensures |r.rest| <= |text|
    decreases |text|
  {
    if text != [] && text[0].Brackets? then Bracketed([Array(alternatives)], text[1..]) else Parsed(alternatives, text)
  }

  // ----------------------------------------------------- one way to write terms

  predicate Full(terms: seq<Term>) { terms != [] && forall t <- terms :: FullTerm(t) }

  predicate FullTerm(t: Term)
  {
    match t
    case Name(_) => true
    case Array(of) => Full(of)
    case Record(of) => Full(of)
  }

  function Written(terms: seq<Term>): seq<Token>
  {
    if terms == [] then [] else if |terms| == 1 then WrittenTerm(terms[0])
    else WrittenTerm(terms[0]) + [Bar] + Written(terms[1..])
  }

  function WrittenTerm(t: Term): seq<Token>
  {
    match t
    case Name(text) => [Word(text)]
    case Array(of) => BracketedText(Written(of))
    case Record(of) => [RecordStart] + Written(of) + [RecordEnd]
  }

  predicate Closes(follow: seq<Token>) { follow == [] || (!follow[0].Bar? && !follow[0].Brackets?) }

  /** A written term is read as itself, and what follows it is read as it stands. */
  lemma {:induction false} TermReads(t: Term, follow: seq<Token>)
    requires FullTerm(t)
    ensures ReadOne(WrittenTerm(t) + follow) == Some(Bracketed([t], follow))
    decreases t
  {
    match t
    case Name(text) =>
    case Record(of) =>
      var text := WrittenTerm(t) + follow;
      var tail := [RecordEnd] + follow;
      assert text[1..] == Written(of) + tail;
      TermsRead(of, tail);
      assert tail[1..] == follow;
    case Array(of) => ArrayReads(of, follow);
  }

  lemma {:induction false} ArrayReads(of: seq<Term>, follow: seq<Token>)
    requires Full(of)
    ensures ReadOne(BracketedText(Written(of)) + follow) == Some(Bracketed([Array(of)], follow))
    decreases of, 1
  {
    hide ReadType;
    hide ReadOne;
    hide Bracketed;
    hide WrittenTerm;
    var inner, brackets := Written(of), [Brackets] + follow;
    BracketsRead(of, follow);
    if |of| > 1 { SeveralShowBar(of); }
    if ShowsBar(inner) {
      TermsRead(of, [RightParen] + brackets);
      ParenRead(inner, of, brackets);
      assert BracketedText(inner) + follow == [LeftParen] + inner + [RightParen] + brackets;
    } else {
      assert of == [of[0]];
      TermReads(of[0], brackets);
      assert BracketedText(inner) + follow == inner + brackets;
    }
  }

  lemma BracketsRead(alternatives: seq<Term>, follow: seq<Token>)
    ensures Bracketed(alternatives, [Brackets] + follow) == Bracketed([Array(alternatives)], follow)
  {
    assert ([Brackets] + follow)[1..] == follow;
  }

  lemma ParenRead(inner: seq<Token>, terms: seq<Term>, follow: seq<Token>)
    requires ReadType(inner + ([RightParen] + follow)) == Some(Parsed(terms, [RightParen] + follow))
    ensures ReadOne([LeftParen] + inner + [RightParen] + follow) == Some(Bracketed(terms, follow))
  {
    assert ([LeftParen] + inner + [RightParen] + follow)[1..] == inner + ([RightParen] + follow);
    assert ([RightParen] + follow)[1..] == follow;
  }

  /** So are written alternatives, up to whatever closes them. */
  lemma {:induction false} TermsRead(terms: seq<Term>, follow: seq<Token>)
    requires Full(terms) && Closes(follow)
    ensures ReadType(Written(terms) + follow) == Some(Parsed(terms, follow))
    decreases terms, 0
  {
    hide ReadType;
    hide ReadOne;
    hide Bracketed;
    hide Written;
    hide WrittenTerm;
    hide FullTerm;
    var first, others := terms[0], terms[1..];
    assert terms == [first] + others;
    if others == [] {
      assert terms == [first];
      TermReads(first, follow);
      LastTermRead(first, follow);
    } else {
      TermReads(first, [Bar] + (Written(others) + follow));
      TermsRead(others, follow);
      FirstTermRead(first, others, follow);
    }
  }

  lemma LastTermRead(last: Term, follow: seq<Token>)
    requires ReadOne(WrittenTerm(last) + follow) == Some(Bracketed([last], follow)) && Closes(follow)
    ensures ReadType(Written([last]) + follow) == Some(Parsed([last], follow))
  {
    hide WrittenTerm;
    ReadLast(Written([last]) + follow, last, follow);
  }

  lemma FirstTermRead(first: Term, others: seq<Term>, follow: seq<Token>)
    requires others != []
    requires ReadOne(WrittenTerm(first) + ([Bar] + (Written(others) + follow)))
          == Some(Bracketed([first], [Bar] + (Written(others) + follow)))
    requires ReadType(Written(others) + follow) == Some(Parsed(others, follow))
    ensures ReadType(Written([first] + others) + follow) == Some(Parsed([first] + others, follow))
  {
    hide ReadType;
    hide ReadOne;
    hide Bracketed;
    hide WrittenTerm;
    assert ([first] + others)[1..] == others;
    Regroup(WrittenTerm(first), Written(others), follow);
    ReadMore(Written([first] + others) + follow, first, Written(others) + follow, others, follow);
  }

  lemma ReadLast(text: seq<Token>, last: Term, follow: seq<Token>)
    requires ReadOne(text) == Some(Bracketed([last], follow)) && Closes(follow)
    ensures ReadType(text) == Some(Parsed([last], follow))
  {}

  lemma ReadMore(text: seq<Token>, first: Term, more: seq<Token>, others: seq<Term>, follow: seq<Token>)
    requires ReadOne(text) == Some(Bracketed([first], [Bar] + more))
    requires ReadType(more) == Some(Parsed(others, follow))
    ensures ReadType(text) == Some(Parsed([first] + others, follow))
  {
    assert ([Bar] + more)[1..] == more;
  }

  lemma SeveralShowBar(terms: seq<Term>)
    requires |terms| > 1
    ensures ShowsBar(Written(terms))
  {
    assert Written(terms)[|WrittenTerm(terms[0])|] == Bar;
    assert Bar in Written(terms);
  }

  /** Two meanings written alike are alike. */
  lemma WrittenDiffers(a: seq<Term>, b: seq<Term>)
    requires Full(a) && Full(b)
    ensures Written(a) == Written(b) <==> a == b
  {
    TermsRead(a, []);
    TermsRead(b, []);
    assert Written(a) + [] == Written(a) && Written(b) + [] == Written(b);
  }

  // ------------------------------------------------ the printer writes meanings

  /** No union and no list of literals is empty, which JSON Schema demands of `anyOf` and asks of `enum`. */
  predicate NoEmptyUnion(t: TsType)
  {
    match t
    case Union(members) => members != [] && forall m <- members :: NoEmptyUnion(m)
    case Literals(values) => values != []
    case ArrayOf(inner) => NoEmptyUnion(inner)
    case RecordOf(element) => NoEmptyUnion(element)
    case _ => true
  }

  function WrittenAll(list: seq<seq<Term>>): seq<seq<Token>>
  {
    seq(|list|, i requires 0 <= i < |list| => Written(list[i]))
  }

  predicate AllFull(list: seq<seq<Term>>) { forall terms <- list :: Full(terms) }

  lemma {:induction false} WrittenAppend(a: seq<Term>, b: seq<Term>)
    requires a != [] && b != []
    ensures Written(a + b) == Written(a) + [Bar] + Written(b)
  {
    if |a| == 1 {
      assert a + b == [a[0]] + b;
      assert (a + b)[1..] == b;
    } else {
      assert (a + b)[1..] == a[1..] + b;
      WrittenAppend(a[1..], b);
    }
  }

  lemma FullAppend(a: seq<Term>, b: seq<Term>)
    requires Full(a) && Full(b)
    ensures Full(a + b)
  {}

  /** Joining written alternatives writes their concatenation. */
  lemma {:induction false} JoinedIsWritten(list: seq<seq<Term>>)
    requires AllFull(list) && list != []
    ensures Full(Concat(list)) && Joined(WrittenAll(list)) == Written(Concat(list))
  {
    var all := WrittenAll(list);
    assert list[0] in list;
    if |list| == 1 {
      assert Concat(list[1..]) == [] && list[0] + [] == list[0];
    } else {
      assert AllFull(list[1..]);
      JoinedIsWritten(list[1..]);
      assert all[1..] == WrittenAll(list[1..]);
      FullAppend(list[0], Concat(list[1..]));
      WrittenAppend(list[0], Concat(list[1..]));
    }
  }

  /** Equal meanings are equal texts, so dropping repeated texts drops repeated meanings. */
  lemma {:induction false} UnrepeatedAlike(list: seq<seq<Term>>)
    requires AllFull(list)
    ensures AllFull(Unrepeated(list)) && (list != [] ==> Unrepeated(list) != [])
    ensures Unrepeated(WrittenAll(list)) == WrittenAll(Unrepeated(list))
  {
    if list != [] {
      var front, last := list[..|list| - 1], list[|list| - 1];
      UnrepeatedAlike(front);
      var all := WrittenAll(list);
      assert all[..|all| - 1] == WrittenAll(front);
      var kept := Unrepeated(front);
      var written := WrittenAll(kept);
      if last in kept {
        var i :| 0 <= i < |kept| && kept[i] == last;
        assert written[i] == Written(last);
      } else if Written(last) in written {
        var i :| 0 <= i < |written| && written[i] == Written(last);
        assert kept[i] in kept;
        WrittenDiffers(kept[i], last);
        assert false;
      } else {
        assert WrittenAll(kept + [last]) == written + [Written(last)];
      }
    }
  }

  lemma NamesAreWritten(values: seq<Json>, dump: Json -> string)
    ensures AllFull(Names(values, dump)) && Words(values, dump) == WrittenAll(Names(values, dump))
  {
    var names := Names(values, dump);
    forall i | 0 <= i < |values| ensures Words(values, dump)[i] == WrittenAll(names)[i] {
      assert names[i][0] == Name(dump(values[i])) && WrittenTerm(names[i][0]) == [Word(dump(values[i]))];
    }
  }

  lemma {:induction false} PrintIsWritten(t: TsType, dump: Json -> string)
    requires NoEmptyUnion(t)
    ensures Full(Meaning(t, dump)) && Print(t, dump) == Written(Meaning(t, dump))
    decreases t
  {
    match t
    case Union(members) =>
      PrintAllIsWritten(members, dump);
      UnrepeatedAlike(Meanings(members, dump));
      JoinedIsWritten(Unrepeated(Meanings(members, dump)));
    case Literals(values) =>
      NamesAreWritten(values, dump);
      JoinedIsWritten(Names(values, dump));
    case ArrayOf(inner) => PrintIsWritten(inner, dump);
    case RecordOf(element) => PrintIsWritten(element, dump);
    case _ =>
  }

  lemma {:induction false} PrintAllIsWritten(ts: seq<TsType>, dump: Json -> string)
    requires forall t <- ts :: NoEmptyUnion(t)
    ensures AllFull(Meanings(ts, dump)) && (ts != [] ==> Meanings(ts, dump) != [])
    ensures PrintAll(ts, dump) == WrittenAll(Meanings(ts, dump))
    decreases ts
  {
    if ts != [] {
      var front, last := ts[..|ts| - 1], ts[|ts| - 1];
      PrintAllIsWritten(front, dump);
      PrintIsWritten(last, dump);
      assert WrittenAll(Meanings(ts, dump)) == WrittenAll(Meanings(front, dump)) + [Written(Meaning(last, dump))];
    }
  }

  // ------------------------------------------------------ empty unions

  /** Where a type can end. */
  predicate Stops(follow: seq<Token>) { follow == [] || follow[0] in {Bar, RightParen, Brackets, RecordEnd} }

  /** No type is read here, whatever follows. */
  ghost predicate Unreadable(text: seq<Token>)
  {
    forall follow | Stops(follow) :: ReadType(text + follow).None?
  }

  ghost predicate Readable(text: seq<Token>) { exists terms :: Full(terms) && text == Written(terms) }

  lemma NothingUnreadable()
    ensures Unreadable([])
  {
    forall follow | Stops(follow) ensures ReadType([] + follow).None? {
      assert [] + follow == follow;
    }
  }

  lemma ReadNothingMore(text: seq<Token>, first: Term, more: seq<Token>)
    requires ReadOne(text) == Some(Bracketed([first], [Bar] + more)) && ReadType(more).None?
    ensures ReadType(text).None?
  {
    assert ([Bar] + more)[1..] == more;
  }

  lemma Regroup(a: seq<Token>, b: seq<Token>, c: seq<Token>)
    ensures a + [Bar] + b + c == a + ([Bar] + (b + c))
  {}

  /** After a bar something must be read. */
  lemma {:induction false} NothingAfterBar(terms: seq<Term>, rest: seq<Token>)
    requires Full(terms) && ReadType(rest).None?
    ensures ReadType(Written(terms) + ([Bar] + rest)).None?
  {
    hide ReadType;
    hide ReadOne;
    hide Bracketed;
    hide WrittenTerm;
    hide FullTerm;
    var tail := [Bar] + rest;
    if |terms| == 1 {
      TermReads(terms[0], tail);
      ReadNothingMore(Written(terms) + tail, terms[0], rest);
    } else {
      var others := terms[1..];
      Regroup(WrittenTerm(terms[0]), Written(others), tail);
      TermReads(terms[0], [Bar] + (Written(others) + tail));
      NothingAfterBar(others, rest);
      ReadNothingMore(Written(terms) + tail, terms[0], Written(others) + tail);
    }
  }

  lemma {:induction false} JoinedUnreadable(parts: seq<seq<Token>>)
    requires forall p <- parts :: Readable(p) || Unreadable(p)
    requires exists p <- parts :: Unreadable(p)
    ensures Unreadable(Joined(parts))
  {
    var first, others := parts[0], parts[1..];
    forall follow | Stops(follow) ensures ReadType(Joined(parts) + follow).None? {
      if Unreadable(first) {
        var tail := if others == [] then follow else [Bar] + Joined(others) + follow;
        assert Joined(parts) + follow == first + tail;
        assert Stops(tail);
      } else {
        assert exists p <- others :: Unreadable(p);
        JoinedUnreadable(others);
        assert first in parts;
        var terms :| Full(terms) && first == Written(terms);
        NothingAfterBar(terms, Joined(others) + follow);
        assert Joined(parts) + follow == Written(terms) + ([Bar] + (Joined(others) + follow));
      }
    }
  }

  lemma WrappedUnreadable(inner: seq<Token>)
    requires Unreadable(inner)
    ensures Unreadable(BracketedText(inner)) && Unreadable([RecordStart] + inner + [RecordEnd])
  {
    forall follow | Stops(follow) ensures ReadType(BracketedText(inner) + follow).None? {
      if ShowsBar(inner) {
        var tail := [RightParen] + ([Brackets] + follow);
        assert (BracketedText(inner) + follow)[1..] == inner + tail;
        assert Stops(tail);
      } else {
        assert BracketedText(inner) + follow == inner + ([Brackets] + follow);
        assert Stops([Brackets] + follow);
      }
    }
    forall follow | Stops(follow) ensures ReadType([RecordStart] + inner + [RecordEnd] + follow).None? {
      var tail := [RecordEnd] + follow;
      assert ([RecordStart] + inner + [RecordEnd] + follow)[1..] == inner + tail;
      assert Stops(tail);
    }
  }

  lemma {:induction false} UnrepeatedMembers<T>(list: seq<T>, x: T)
    ensures x in Unrepeated(list) <==> x in list
  {
    if list != [] {
      UnrepeatedMembers(list[..|list| - 1], x);
      assert list == list[..|list| - 1] + [list[|list| - 1]];
    }
  }

  lemma {:induction false} PrintAllMembers(ts: seq<TsType>, dump: Json -> string)
    ensures |PrintAll(ts, dump)| == |ts| && forall i | 0 <= i < |ts| :: PrintAll(ts, dump)[i] == Print(ts[i], dump)
  {
    if ts != [] { PrintAllMembers(ts[..|ts| - 1], dump); }
  }

  lemma {:induction false} PrintUnreadable(t: TsType, dump: Json -> string)
    requires !NoEmptyUnion(t)
    ensures Unreadable(Print(t, dump))
    decreases t
  {
    match t
    case Union(members) =>
      if members == [] {
        NothingUnreadable();
      } else {
        MembersUnreadable(members, dump);
        JoinedUnreadable(Unrepeated(PrintAll(members, dump)));
      }
    case Literals(values) => NothingUnreadable();
    case ArrayOf(inner) =>
      PrintUnreadable(inner, dump);
      WrappedUnreadable(Print(inner, dump));
    case RecordOf(element) =>
      PrintUnreadable(element, dump);
      WrappedUnreadable(Print(element, dump));
  }

  lemma {:induction false} MembersUnreadable(members: seq<TsType>, dump: Json -> string)
    requires exists m <- members :: !NoEmptyUnion(m)
    ensures forall p <- Unrepeated(PrintAll(members, dump)) :: Readable(p) || Unreadable(p)
    ensures exists p <- Unrepeated(PrintAll(members, dump)) :: Unreadable(p)
    decreases members
  {
    var texts := PrintAll(members, dump);
    PrintAllMembers(members, dump);
    forall p | p in Unrepeated(texts) ensures Readable(p) || Unreadable(p) {
      UnrepeatedMembers(texts, p);
      var i :| 0 <= i < |texts| && texts[i] == p;
      if NoEmptyUnion(members[i]) { PrintIsWritten(members[i], dump); } else { PrintUnreadable(members[i], dump); }
    }
    var i :| 0 <= i < |members| && !NoEmptyUnion(members[i]);
    PrintUnreadable(members[i], dump);
    assert texts[i] in texts;
    UnrepeatedMembers(texts, texts[i]);
  }

  /**
   * What is printed for a type is read back as what the type means, down to the last token,
   * exactly when no union in it is empty.
   */
  lemma PrintReadsBack(t: TsType, dump: Json -> string)
    ensures ReadType(Print(t, dump)) == Some(Parsed(Meaning(t, dump), [])) <==> NoEmptyUnion(t)
  {
    assert Print(t, dump) + [] == Print(t, dump);
    if NoEmptyUnion(t) {
      PrintIsWritten(t, dump);
      TermsRead(Meaning(t, dump), []);
    } else {
      PrintUnreadable(t, dump);
      assert Stops([]);
    }
  }

  /** Without the parentheses an array of a union reads as a union with an array. */
  lemma BareBracketsMisread(a: string, b: string)
    ensures ReadType([Word(a), Bar, Word(b), Brackets]) == Some(Parsed([Name(a), Array([Name(b)])], []))
  {
    var text := [Word(a), Bar, Word(b), Brackets];
    var rest := [Word(b), Brackets];
    assert text[1..] == [Bar] + rest && rest[1..] == [Brackets] && [Brackets][1..] == [];
    assert ReadOne(rest) == Some(Parsed([Array([Name(b)])], []));
    ReadMore(text, Name(a), rest, [Array([Name(b)])], []);
    assert [Name(a)] + [Array([Name(b)])] == [Name(a), Array([Name(b)])];
  }
}
