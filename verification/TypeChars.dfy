/**
 * The text of a type, character by character: what the generator concatenates is the
 * spelling of the tokens, and cutting it into tokens again loses nothing.
 */
module TypeChars {
  import opened Options
  import opened SchemaClosure
  import opened TypeText

  // -------------------------------------------------------------- the text

  /** `" | ".join(parts)`. */
  function JoinedText(parts: seq<string>): string
  {
    if parts == [] then "" else if |parts| == 1 then parts[0] else parts[0] + " | " + JoinedText(parts[1..])
  }

  function Dumped(values: seq<Json>, dump: Json -> string): seq<string>
  {
    seq(|values|, i requires 0 <= i < |values| => dump(values[i]))
  }

  /** `ts_type`'s text, as it concatenates it. */
  function Text(t: TsType, dump: Json -> string): string
  {
    match t
    case Named(n) => n
    case Union(members) => JoinedText(Unrepeated(Texts(members, dump)))
    case Literals(values) => JoinedText(Dumped(values, dump))
    case Unknown => "unknown"
    case Primitive(spelling) => spelling
    case ArrayOf(inner) =>
      var text := Text(inner, dump);
      if '|' in text then "(" + text + ")[]" else text + "[]"
    case RecordOf(element) => "Record<string, " + Text(element, dump) + ">"
  }

  function Texts(ts: seq<TsType>, dump: Json -> string): seq<string>
  {
    if ts == [] then [] else Texts(ts[..|ts| - 1], dump) + [Text(ts[|ts| - 1], dump)]
  }

  // -------------------------------------------------------------- spelling

  function Spelling(token: Token): string
  {
    match token
    case Word(text) => text
    case Bar => " | "
    case LeftParen => "("
    case RightParen => ")"
    case Brackets => "[]"
    case RecordStart => "Record<string, "
    case RecordEnd => ">"
  }

  function Spelled(tokens: seq<Token>): string
  {
    if tokens == [] then "" else Spelling(tokens[0]) + Spelled(tokens[1..])
  }

  lemma {:induction false} SpelledAppend(a: seq<Token>, b: seq<Token>)
    ensures Spelled(a + b) == Spelled(a) + Spelled(b)
  {
    if a == [] {
      assert a + b == b;
    } else {
      assert (a + b)[1..] == a[1..] + b;
      SpelledAppend(a[1..], b);
    }
  }

  lemma SpelledOne(token: Token)
    ensures Spelled([token]) == Spelling(token)
  {
    assert [token][1..] == [];
  }

  lemma BarInOne(token: Token)
    ensures '|' in Spelling(token) <==> ShowsBar([token])
  {
    assert token in [token];
    if token.Bar? { assert " | "[1] == '|'; }
  }

  lemma BarInEither(a: seq<Token>, b: seq<Token>)
    ensures ShowsBar(a + b) <==> ShowsBar(a) || ShowsBar(b)
  {}

  /** Python looks for a bar in the text; the tokens show one where the text does. */
  lemma {:induction false} BarShows(tokens: seq<Token>)
    ensures '|' in Spelled(tokens) <==> ShowsBar(tokens)
  {
    if tokens != [] {
      BarInOne(tokens[0]);
      hide ShowsBar;
      hide Spelling;
      BarShows(tokens[1..]);
      BarInEither([tokens[0]], tokens[1..]);
      assert tokens == [tokens[0]] + tokens[1..];
    }
  }

  // -------------------------------------------------------------- cutting

  /** What a name or a number is made of. */
  predicate Safe(c: char) { c !in " |()[]<>\"," }

  function SafeRun(s: string): nat { if s == "" || !Safe(s[0]) then 0 else 1 + SafeRun(s[1..]) }

  /** The length of a quoted text after its opening quote, the closing one included; a backslash takes what follows it. */
  function Quoted(s: string): nat
  {
    if s == "" then 0
    else if s[0] == '"' then 1
    else if s[0] == '\\' && |s| > 1 then 2 + Quoted(s[2..])
    else 1 + Quoted(s[1..])
  }

  function WordLength(s: string): (n: nat)
    ensures n <= |s|
  {
    if s != "" && s[0] == '"' then QuotedFits(s[1..]); 1 + Quoted(s[1..]) else SafeRunFits(s); SafeRun(s)
  }

  lemma {:induction false} QuotedFits(s: string)
    ensures Quoted(s) <= |s|
    decreases |s|
  {
    if s != "" && s[0] != '"' {
      if s[0] == '\\' && |s| > 1 { QuotedFits(s[2..]); } else { QuotedFits(s[1..]); }
    }
  }

  lemma {:induction false} SafeRunFits(s: string)
    ensures SafeRun(s) <= |s|
  {
    if s != "" && Safe(s[0]) { SafeRunFits(s[1..]); }
  }

  /** The mark a text starts with, if it does. */
  function MarkAt(s: string): Option<Token>
  {
    if " | " <= s then Some(Bar)
    else if "(" <= s then Some(LeftParen)
    else if ")" <= s then Some(RightParen)
    else if "[]" <= s then Some(Brackets)
    else if "Record<string, " <= s then Some(RecordStart)
    else if ">" <= s then Some(RecordEnd)
    else None
  }

  /** Cutting a text into tokens. */
  function Cut(s: string): Option<seq<Token>>
    decreases |s|
  {
    if s == "" then Some([]) else
      var length := if MarkAt(s).Some? then |Spelling(MarkAt(s).value)| else WordLength(s);
      if length == 0 then None else
        var token := if MarkAt(s).Some? then MarkAt(s).value else Word(s[..length]);
        match Cut(s[length..])
        case None => None
        case Some(tokens) => Some([token] + tokens)
  }

  // ------------------------------------------------- spelling and cutting

  /** Text after which a word has ended. */
  predicate Boundary(s: string) { s == "" || s[0] in " )[>" }

  /** A word that is safe throughout, or one quoted text. */
  predicate Plain(word: string)
  {
    word != "" && (if word[0] == '"' then EndsQuoted(word[1..]) else forall c <- word :: Safe(c))
  }

  /** Quoted text whose closing quote is its last character. */
  predicate EndsQuoted(s: string)
  {
    if s == "" then false
    else if s[0] == '"' then |s| == 1
    else if s[0] == '\\' && |s| > 1 then EndsQuoted(s[2..])
    else EndsQuoted(s[1..])
  }

  lemma {:induction false} SafeRunStops(word: string, rest: string)
    requires (forall c <- word :: Safe(c)) && Boundary(rest)
    ensures SafeRun(word + rest) == |word|
  {
    if word == "" {
      assert word + rest == rest;
    } else {
      assert word[0] in word;
      assert (word + rest)[1..] == word[1..] + rest;
      assert forall c <- word[1..] :: c in word;
      SafeRunStops(word[1..], rest);
    }
  }

  lemma {:induction false} QuotedStops(word: string, rest: string)
    requires EndsQuoted(word)
    ensures Quoted(word + rest) == |word|
    decreases |word|
  {
    if word[0] != '"' {
      if word[0] == '\\' && |word| > 1 {
        assert (word + rest)[2..] == word[2..] + rest;
        QuotedStops(word[2..], rest);
      } else {
        assert (word + rest)[1..] == word[1..] + rest;
        QuotedStops(word[1..], rest);
      }
    }
  }

  /** A word is no mark, and ends where it ends. */
  lemma WordCut(word: string, rest: string)
    requires Plain(word) && Boundary(rest)
    ensures MarkAt(word + rest).None? && WordLength(word + rest) == |word|
  {
    var s := word + rest;
    assert s[0] == word[0] && word[0] in word;
    if word[0] == '"' {
      assert s[1..] == word[1..] + rest;
      QuotedStops(word[1..], rest);
    } else {
      SafeRunStops(word, rest);
      NotARecord(word, rest);
    }
  }

  lemma NotARecord(word: string, rest: string)
    requires (forall c <- word :: Safe(c)) && Boundary(rest)
    ensures !("Record<string, " <= word + rest)
  {
    var s := word + rest;
    if |word| > 6 {
      assert s[6] == word[6] && word[6] in word;
    } else if rest != "" {
      assert s[|word|] == rest[0];
    }
    assert "Record<string, "[6] == '<';
  }

  /** A token that may not follow a word without something between. */
  predicate Starts(token: Token) { token.Word? || token.LeftParen? || token.RecordStart? }

  /** Every word is plain and does not run into another. */
  predicate WellSpaced(tokens: seq<Token>)
  {
    && (forall i | 0 <= i < |tokens| && tokens[i].Word? :: Plain(tokens[i].text))
    && (forall i | 0 <= i < |tokens| - 1 && tokens[i].Word? :: !Starts(tokens[i + 1]))
  }

  lemma MarkCut(token: Token, rest: string)
    requires !token.Word?
    ensures MarkAt(Spelling(token) + rest) == Some(token)
  {
    var s := Spelling(token) + rest;
    assert Spelling(token) <= s;
    assert s[0] == Spelling(token)[0];
  }

  lemma CutAfterWord(word: string, rest: string)
    requires Plain(word) && Boundary(rest) && Cut(rest).Some?
    ensures Cut(word + rest) == Some([Word(word)] + Cut(rest).value)
  {
    hide MarkAt;
    WordCut(word, rest);
    assert (word + rest)[|word|..] == rest && (word + rest)[..|word|] == word;
  }

  lemma CutAfterMark(token: Token, rest: string)
    requires !token.Word? && Cut(rest).Some?
    ensures Cut(Spelling(token) + rest) == Some([token] + Cut(rest).value)
  {
    hide MarkAt;
    MarkCut(token, rest);
    assert |Spelling(token)| > 0;
    assert (Spelling(token) + rest)[|Spelling(token)|..] == rest;
  }

  /** What follows a word, if it may, starts with a boundary. */
  lemma EndsAtBoundary(tokens: seq<Token>)
    requires tokens != [] ==> !Starts(tokens[0])
    ensures Boundary(Spelled(tokens))
  {
    if tokens != [] { assert Spelled(tokens)[0] == Spelling(tokens[0])[0]; }
  }

  /** Cutting a spelling gives the tokens back. */
  lemma {:induction false} SpellingCut(tokens: seq<Token>)
    requires WellSpaced(tokens)
    ensures Cut(Spelled(tokens)) == Some(tokens)
  {
    if tokens != [] {
      hide Cut;
      var token, others := tokens[0], tokens[1..];
      SpellingCut(others);
      if token.Word? {
        if others != [] { assert tokens[1] == others[0]; }
        EndsAtBoundary(others);
        CutAfterWord(token.text, Spelled(others));
      } else {
        CutAfterMark(token, Spelled(others));
      }
      assert tokens == [token] + others;
    }
  }

  // --------------------------------------------- the text is the spelling

  /** What the texts of names and dumped values must be like: none empty, none running into what follows. */
  predicate Spellable(t: TsType, dump: Json -> string)
  {
    match t
    case Named(n) => Plain(n)
    case Union(members) => forall m <- members :: Spellable(m, dump)
    case Literals(values) => forall v <- values :: Plain(dump(v))
    case Unknown => true
    case Primitive(spelling) => Plain(spelling)
    case ArrayOf(inner) => Spellable(inner, dump)
    case RecordOf(element) => Spellable(element, dump)
  }

  /** Token texts well spaced each, and their spellings. */
  predicate AllSpaced(parts: seq<seq<Token>>) { forall p <- parts :: WellSpaced(p) }

  function AllSpelled(parts: seq<seq<Token>>): seq<string>
  {
    seq(|parts|, i requires 0 <= i < |parts| => Spelled(parts[i]))
  }

  lemma {:induction false} JoinedSpelled(parts: seq<seq<Token>>)
    requires AllSpaced(parts)
    ensures WellSpaced(Joined(parts)) && Spelled(Joined(parts)) == JoinedText(AllSpelled(parts))
  {
    if |parts| > 1 {
      assert AllSpelled(parts)[1..] == AllSpelled(parts[1..]);
      assert AllSpaced(parts[1..]);
      assert parts[0] in parts;
      JoinedSpelled(parts[1..]);
      SpelledAppend(parts[0] + [Bar], Joined(parts[1..]));
      SpelledAppend(parts[0], [Bar]);
      SpelledOne(Bar);
    } else if |parts| == 1 {
      assert parts[0] in parts;
    }
  }

  lemma {:induction false} UnrepeatedSpelled(parts: seq<seq<Token>>)
    requires AllSpaced(parts)
    ensures AllSpaced(Unrepeated(parts)) && Unrepeated(AllSpelled(parts)) == AllSpelled(Unrepeated(parts))
  {
    if parts != [] {
      var front, last := parts[..|parts| - 1], parts[|parts| - 1];
      UnrepeatedSpelled(front);
      var all := AllSpelled(parts);
      assert all[..|all| - 1] == AllSpelled(front);
      var kept := Unrepeated(front);
      var spelled := AllSpelled(kept);
      if last in kept {
        var i :| 0 <= i < |kept| && kept[i] == last;
        assert spelled[i] == Spelled(last);
      } else if Spelled(last) in spelled {
        var i :| 0 <= i < |spelled| && spelled[i] == Spelled(last);
        assert kept[i] in kept;
        SpellingCut(kept[i]);
        SpellingCut(last);
        assert false;
      } else {
        assert AllSpelled(kept + [last]) == spelled + [Spelled(last)];
      }
    }
  }

  lemma SpelledBetween(before: Token, inner: seq<Token>, after: Token)
    ensures Spelled([before] + inner + [after]) == Spelling(before) + Spelled(inner) + Spelling(after)
  {
    SpelledOne(before);
    SpelledOne(after);
    SpelledAppend([before], inner);
    SpelledAppend([before] + inner, [after]);
  }

  lemma SpelledThen(inner: seq<Token>, after: Token)
    ensures Spelled(inner + [after]) == Spelled(inner) + Spelling(after)
  {
    SpelledOne(after);
    SpelledAppend(inner, [after]);
  }

  lemma BracketedSpelled(inner: seq<Token>)
    requires WellSpaced(inner)
    ensures WellSpaced(BracketedText(inner))
    ensures Spelled(BracketedText(inner))
         == if '|' in Spelled(inner) then "(" + Spelled(inner) + ")[]" else Spelled(inner) + "[]"
  {
    hide Spelled;
    BarShows(inner);
    hide ShowsBar;
    SpelledThen(inner, Brackets);
    SpelledThen([LeftParen] + inner + [RightParen], Brackets);
    SpelledBetween(LeftParen, inner, RightParen);
    assert ")" + "[]" == ")[]";
  }

  lemma RecordSpelled(inner: seq<Token>)
    requires WellSpaced(inner)
    ensures WellSpaced([RecordStart] + inner + [RecordEnd])
    ensures Spelled([RecordStart] + inner + [RecordEnd]) == "Record<string, " + Spelled(inner) + ">"
  {
    SpelledBetween(RecordStart, inner, RecordEnd);
  }

  lemma WordSpelled(word: string)
    requires Plain(word)
    ensures WellSpaced([Word(word)]) && Spelled([Word(word)]) == word
  {
    SpelledOne(Word(word));
  }

  /** The generator's text is the spelling of the printed tokens. */
  lemma {:induction false} TextIsSpelled(t: TsType, dump: Json -> string)
    requires Spellable(t, dump)
    ensures WellSpaced(Print(t, dump)) && Text(t, dump) == Spelled(Print(t, dump))
    decreases t
  {
    hide WellSpaced;
    hide Spelled;
    hide Plain;
    match t
    case Union(members) =>
      TextsAreSpelled(members, dump);
      UnionSpelled(members, dump);
    case Literals(values) => LiteralsSpelled(values, dump);
    case ArrayOf(inner) =>
      TextIsSpelled(inner, dump);
      ArraySpelled(inner, dump);
    case RecordOf(element) =>
      TextIsSpelled(element, dump);
      DictSpelled(element, dump);
    case Named(n) => WordSpelled(n);
    case Unknown => UnknownSpelled();
    case Primitive(spelling) => WordSpelled(spelling);
  }

  lemma UnknownSpelled()
    ensures WellSpaced([Word("unknown")]) && Spelled([Word("unknown")]) == "unknown"
  {
    forall c | c in "unknown" ensures Safe(c) { LettersAreSafe(c); }
    hide Safe;
    WordSpelled("unknown");
  }

  lemma LettersAreSafe(c: char)
    requires 'a' <= c <= 'z'
    ensures Safe(c)
  {}

  lemma ArraySpelled(inner: TsType, dump: Json -> string)
    requires WellSpaced(Print(inner, dump)) && Text(inner, dump) == Spelled(Print(inner, dump))
    ensures WellSpaced(Print(ArrayOf(inner), dump)) && Text(ArrayOf(inner), dump) == Spelled(Print(ArrayOf(inner), dump))
  {
    hide WellSpaced;
    hide Spelled;
    BracketedSpelled(Print(inner, dump));
  }

  lemma DictSpelled(element: TsType, dump: Json -> string)
    requires WellSpaced(Print(element, dump)) && Text(element, dump) == Spelled(Print(element, dump))
    ensures WellSpaced(Print(RecordOf(element), dump))
    ensures Text(RecordOf(element), dump) == Spelled(Print(RecordOf(element), dump))
  {
    hide WellSpaced;
    hide Spelled;
    RecordSpelled(Print(element, dump));
  }

  lemma UnionSpelled(members: seq<TsType>, dump: Json -> string)
    requires AllSpaced(PrintAll(members, dump)) && Texts(members, dump) == AllSpelled(PrintAll(members, dump))
    ensures WellSpaced(Print(Union(members), dump)) && Text(Union(members), dump) == Spelled(Print(Union(members), dump))
  {
    hide WellSpaced;
    hide Spelled;
    hide Unrepeated;
    UnrepeatedSpelled(PrintAll(members, dump));
    JoinedSpelled(Unrepeated(PrintAll(members, dump)));
  }

  lemma LiteralsSpelled(values: seq<Json>, dump: Json -> string)
    requires forall v <- values :: Plain(dump(v))
    ensures WellSpaced(Print(Literals(values), dump))
    ensures Text(Literals(values), dump) == Spelled(Print(Literals(values), dump))
  {
    hide WellSpaced;
    hide Spelled;
    DumpsAreSpelled(values, dump);
    JoinedSpelled(Words(values, dump));
  }

  lemma {:induction false} TextsAreSpelled(ts: seq<TsType>, dump: Json -> string)
    requires forall t <- ts :: Spellable(t, dump)
    ensures AllSpaced(PrintAll(ts, dump)) && Texts(ts, dump) == AllSpelled(PrintAll(ts, dump))
    decreases ts
  {
    if ts != [] {
      var front, last := ts[..|ts| - 1], ts[|ts| - 1];
      TextsAreSpelled(front, dump);
      TextIsSpelled(last, dump);
      assert AllSpelled(PrintAll(ts, dump)) == AllSpelled(PrintAll(front, dump)) + [Spelled(Print(last, dump))];
    }
  }

  lemma DumpsAreSpelled(values: seq<Json>, dump: Json -> string)
    requires forall v <- values :: Plain(dump(v))
    ensures AllSpaced(Words(values, dump)) && Dumped(values, dump) == AllSpelled(Words(values, dump))
  {
    forall i | 0 <= i < |values| ensures WellSpaced(Words(values, dump)[i]) && Dumped(values, dump)[i] == AllSpelled(Words(values, dump))[i] {
      SpelledOne(Word(dump(values[i])));
    }
  }

  // ------------------------------------------------------------ reading back

  /** A reader of the text: its tokens, and the type they make up, with nothing left over. */
  function ReadText(s: string): Option<seq<Term>>
  {
    match Cut(s)
    case None => None
    case Some(tokens) =>
      match ReadType(tokens)
      case Some(Parsed(terms, rest)) => if rest == [] then Some(terms) else None
      case None => None
  }

  /** The text of a type is read back as what the type means exactly when no union in it is empty. */
  lemma TextReadsBack(t: TsType, dump: Json -> string)
    requires Spellable(t, dump)
    ensures ReadText(Text(t, dump)) == Some(Meaning(t, dump)) <==> NoEmptyUnion(t)
  {
    TextIsSpelled(t, dump);
    SpellingCut(Print(t, dump));
    PrintReadsBack(t, dump);
  }
}
