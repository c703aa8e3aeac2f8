/**
 * From a schema to the text of its type and back to values: a reader of the text takes every
 * value the schema admits, and no other where the schema says no more than a type can.
 */
module TypeValues {
  import opened Options
  import opened SchemaClosure
  import opened SchemaValues
  import opened TypeText
  import opened TypeChars

  /** Which values a reader takes a name or a literal to stand for. */
  type Sense = (string, Json) -> bool

  /** A value as a reader of alternatives judges it: one of them has it. */
  predicate TermsAdmit(terms: seq<Term>, v: Json, sense: Sense)
    decreases terms
  {
    exists i | 0 <= i < |terms| :: TermAdmits(terms[i], v, sense)
  }

  predicate TermAdmits(t: Term, v: Json, sense: Sense)
    decreases t
  {
    match t
    case Name(text) => sense(text, v)
    case Array(of) => v.Arr? && forall i | 0 <= i < |v.items| :: TermsAdmit(of, v.items[i], sense)
    case Record(of) => v.Obj? && forall i | 0 <= i < |v.fields| :: TermsAdmit(of, v.fields[i].value, sense)
  }

  /** The reader takes the words of the type as they are meant: schemas by name, literals by value, the built-in types. */
  ghost predicate Understood(t: TsType, sense: Sense, named: Named, dump: Json -> string)
  {
    match t
    case Named(n) => forall v: Json :: sense(n, v) <==> named(n, v)
    case Union(members) => forall i | 0 <= i < |members| :: Understood(members[i], sense, named, dump)
    case Literals(values) => forall i, v: Json | 0 <= i < |values| :: sense(dump(values[i]), v) <==> v == values[i]
    case Unknown => forall v: Json :: sense("unknown", v)
    case Primitive(spelling) => forall v: Json :: sense(spelling, v) <==> TypeAdmits(Primitive(spelling), v, named)
    case ArrayOf(inner) => Understood(inner, sense, named, dump)
    case RecordOf(element) => Understood(element, sense, named, dump)
  }

  lemma {:induction false} ConcatAdmits(lists: seq<seq<Term>>, v: Json, sense: Sense)
    ensures TermsAdmit(Concat(lists), v, sense) <==> exists terms <- lists :: TermsAdmit(terms, v, sense)
  {
    if lists != [] {
      ConcatAdmits(lists[1..], v, sense);
      AppendAdmits(lists[0], Concat(lists[1..]), v, sense);
      assert lists[0] in lists && forall terms :: terms in lists <==> terms == lists[0] || terms in lists[1..];
    }
  }

  lemma AppendAdmits(a: seq<Term>, b: seq<Term>, v: Json, sense: Sense)
    ensures TermsAdmit(a + b, v, sense) <==> TermsAdmit(a, v, sense) || TermsAdmit(b, v, sense)
  {
    if i :| 0 <= i < |b| && TermAdmits(b[i], v, sense) { assert (a + b)[|a| + i] == b[i]; }
    if i :| 0 <= i < |a| && TermAdmits(a[i], v, sense) { assert (a + b)[i] == a[i]; }
  }

  lemma OneAdmits(t: Term, v: Json, sense: Sense)
    ensures TermsAdmit([t], v, sense) <==> TermAdmits(t, v, sense)
  {
    assert [t][0] == t;
  }

  lemma {:induction false} MeaningsEach(ts: seq<TsType>, dump: Json -> string)
    ensures |Meanings(ts, dump)| == |ts| && forall i | 0 <= i < |ts| :: Meanings(ts, dump)[i] == Meaning(ts[i], dump)
  {
    if ts != [] { MeaningsEach(ts[..|ts| - 1], dump); }
  }

  /** What a type means, read as values, is what the type admits. */
  lemma {:induction false} MeaningAdmits(t: TsType, v: Json, sense: Sense, named: Named, dump: Json -> string)
    requires Understood(t, sense, named, dump)
    ensures TermsAdmit(Meaning(t, dump), v, sense) <==> TypeAdmits(t, v, named)
    decreases t
  {
    match t
    case Union(members) =>
      var lists := Meanings(members, dump);
      MeaningsEach(members, dump);
      forall terms ensures terms in Unrepeated(lists) <==> terms in lists { UnrepeatedMembers(lists, terms); }
      ConcatAdmits(Unrepeated(lists), v, sense);
      forall i | 0 <= i < |members|
        ensures TermsAdmit(lists[i], v, sense) <==> TypeAdmits(members[i], v, named)
      {
        MeaningAdmits(members[i], v, sense, named, dump);
      }
      hide TermsAdmit, TypeAdmits;
      SomeMember(lists, members, v, sense, named);
    case Literals(values) => LiteralsAdmit(values, v, sense, dump);
    case ArrayOf(inner) =>
      OneAdmits(Array(Meaning(inner, dump)), v, sense);
      if v.Arr? {
        forall i | 0 <= i < |v.items|
          ensures TermsAdmit(Meaning(inner, dump), v.items[i], sense) <==> TypeAdmits(inner, v.items[i], named)
        {
          MeaningAdmits(inner, v.items[i], sense, named, dump);
        }
      }
    case RecordOf(element) =>
      OneAdmits(Record(Meaning(element, dump)), v, sense);
      if v.Obj? {
        forall i | 0 <= i < |v.fields|
          ensures TermsAdmit(Meaning(element, dump), v.fields[i].value, sense) <==> TypeAdmits(element, v.fields[i].value, named)
        {
          MeaningAdmits(element, v.fields[i].value, sense, named, dump);
        }
      }
    case Named(n) => OneAdmits(Name(n), v, sense);
    case Unknown => OneAdmits(Name("unknown"), v, sense);
    case Primitive(spelling) => OneAdmits(Name(spelling), v, sense);
  }

  lemma SomeMember(lists: seq<seq<Term>>, members: seq<TsType>, v: Json, sense: Sense, named: Named)
    requires |lists| == |members|
    requires forall i | 0 <= i < |members| :: TermsAdmit(lists[i], v, sense) <==> TypeAdmits(members[i], v, named)
    ensures (exists terms <- lists :: TermsAdmit(terms, v, sense)) <==> TypeAdmits(Union(members), v, named)
  {
    if i :| 0 <= i < |members| && TypeAdmits(members[i], v, named) { assert lists[i] in lists && TermsAdmit(lists[i], v, sense); }
    if terms :| terms in lists && TermsAdmit(terms, v, sense) {
      var i :| 0 <= i < |lists| && lists[i] == terms;
      assert TypeAdmits(members[i], v, named);
    }
  }

  lemma LiteralsAdmit(values: seq<Json>, v: Json, sense: Sense, dump: Json -> string)
    requires forall i, w: Json | 0 <= i < |values| :: sense(dump(values[i]), w) <==> w == values[i]
    ensures TermsAdmit(Concat(TypeText.Names(values, dump)), v, sense) <==> v in values
  {
    var lists := TypeText.Names(values, dump);
    ConcatAdmits(lists, v, sense);
    forall i | 0 <= i < |values|
      ensures TermsAdmit(lists[i], v, sense) <==> v == values[i]
    {
      OneAdmits(Name(dump(values[i])), v, sense);
    }
    hide TermsAdmit;
    if terms :| terms in lists && TermsAdmit(terms, v, sense) {
      var i :| 0 <= i < |lists| && lists[i] == terms;
      assert v == values[i];
    }
    if v in values {
      var i :| 0 <= i < |values| && values[i] == v;
      assert lists[i] in lists;
    }
  }

  /**
   * End to end, on characters: where the generator writes a type for a schema, with no empty
   * union in it, its text can be read to the end, and what is read takes every value the
   * schema admits - and only those, of a schema that says no more than a type can.
   */
  lemma TextAdmits(node: Json, v: Json, sense: Sense, named: Named, others: Others, dump: Json -> string)
    requires TypeOf(node).Some? && NoEmptyUnion(TypeOf(node).value) && Spellable(TypeOf(node).value, dump)
    requires Understood(TypeOf(node).value, sense, named, dump)
    ensures var read := ReadText(Text(TypeOf(node).value, dump));
            && read.Some?
            && (Admits(node, v, named, others) ==> TermsAdmit(read.value, v, sense))
            && (Bare(node) && NoOthers(others) ==> (Admits(node, v, named, others) <==> TermsAdmit(read.value, v, sense)))
  {
    TextReadsBack(TypeOf(node).value, dump);
    MeaningAdmits(TypeOf(node).value, v, sense, named, dump);
    if Admits(node, v, named, others) { TypeIsSound(node, v, named, others); }
    if Bare(node) && NoOthers(others) { TypeIsExact(node, v, named, others); }
  }
}
