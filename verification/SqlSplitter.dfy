/** Splitting a migration into statements: on the semicolons outside quotes and `$$` bodies. */
module SqlSplitter {
  import opened Selections

  datatype Mode = Plain | Quoted | Dollar

  /** What a cursor position contributes: a character of the statement, or its end. */
  datatype Token = Ch(c: char) | Cut

  predicate Starts(text: string, c: char) { |text| >= 2 && text[0] == c && text[1] == c }

  /** Where the line ends: at its newline, or at the end of the text. */
  function LineEnd(text: string): (i: nat)
    ensures i <= |text|
    ensures forall j | 0 <= j < i :: text[j] != '\n'
    ensures i < |text| ==> text[i] == '\n'
  {
    if text == "" || text[0] == '\n' then 0 else 1 + LineEnd(text[1..])
  }

  /** The tokens of a text that is entered in a mode; comments leave none. */
  function Lex(text: string, m: Mode): seq<Token>
    decreases |text|
  {
    if text == "" then []
    else if m.Plain? && Starts(text, '-') then Lex(text[LineEnd(text)..], Plain)
    else if !m.Quoted? && Starts(text, '$') then [Ch('$'), Ch('$')] + Lex(text[2..], if m.Dollar? then Plain else Dollar)
    else if !m.Dollar? && text[0] == '\'' then [Ch('\'')] + Lex(text[1..], if m.Quoted? then Plain else Quoted)
    else if m.Plain? && text[0] == ';' then [Cut] + Lex(text[1..], Plain)
    else [Ch(text[0])] + Lex(text[1..], m)
  }

  /** The mode a text is left in. */
  function EndMode(text: string, m: Mode): Mode
    decreases |text|
  {
    if text == "" then m
    else if m.Plain? && Starts(text, '-') then EndMode(text[LineEnd(text)..], Plain)
    else if !m.Quoted? && Starts(text, '$') then EndMode(text[2..], if m.Dollar? then Plain else Dollar)
    else if !m.Dollar? && text[0] == '\'' then EndMode(text[1..], if m.Quoted? then Plain else Quoted)
    else EndMode(text[1..], m)
  }

  /** The runs of characters between the cuts, the first continuing `current`. */
  function Runs(tokens: seq<Token>, current: string): seq<string>
  {
    if tokens == [] then [current]
    else if tokens[0].Cut? then [current] + Runs(tokens[1..], "")
    else Runs(tokens[1..], current + [tokens[0].c])
  }

  type Whitespace = char -> bool

  predicate Harmless(ws: Whitespace) { !ws('\'') && !ws(';') && !ws('$') && !ws('-') }

  function TrimLeft(text: string, ws: Whitespace): string
  {
    if text != "" && ws(text[0]) then TrimLeft(text[1..], ws) else text
  }

  function TrimRight(text: string, ws: Whitespace): string
  {
    if text != "" && ws(text[|text| - 1]) then TrimRight(text[..|text| - 1], ws) else text
  }

  function Trim(text: string, ws: Whitespace): string { TrimRight(TrimLeft(text, ws), ws) }

  /** `trimmed` is the text without the whitespace at its two ends, and has none at its own. */
  predicate IsTrimmed(text: string, trimmed: string, ws: Whitespace)
  {
    exists i, j | 0 <= i <= j <= |text| ::
      && trimmed == text[i..j]
      && (forall k | 0 <= k < i :: ws(text[k])) && (forall k | j <= k < |text| :: ws(text[k]))
      && (trimmed != "" ==> !ws(trimmed[0]) && !ws(trimmed[|trimmed| - 1]))
  }

  lemma {:induction false} TrimLeftCuts(text: string, ws: Whitespace) returns (i: nat)
    ensures i <= |text| && TrimLeft(text, ws) == text[i..] && forall k | 0 <= k < i :: ws(text[k])
    ensures i < |text| ==> !ws(text[i])
  {
    i := 0;
    if text != "" && ws(text[0]) {
      i := TrimLeftCuts(text[1..], ws);
      forall k | 0 <= k < i + 1 ensures ws(text[k]) {
        if k > 0 { assert text[k] == text[1..][k - 1]; }
      }
      i := i + 1;
    }
  }

  lemma {:induction false} TrimRightCuts(text: string, ws: Whitespace) returns (j: nat)
    ensures j <= |text| && TrimRight(text, ws) == text[..j] && forall k | j <= k < |text| :: ws(text[k])
    ensures j > 0 ==> !ws(text[j - 1])
  {
    j := |text|;
    if text != "" && ws(text[|text| - 1]) {
      j := TrimRightCuts(text[..|text| - 1], ws);
      assert text[..|text| - 1][..j] == text[..j];
    }
  }

  lemma TrimTrims(text: string, ws: Whitespace)
    ensures IsTrimmed(text, Trim(text, ws), ws)
  {
    var i := TrimLeftCuts(text, ws);
    var j := TrimRightCuts(text[i..], ws);
    assert text[i..][..j] == text[i..i + j];
    forall k | i + j <= k < |text| ensures ws(text[k]) {
      assert text[k] == text[i..][k - i];
    }
  }

  predicate HasText(text: string, ws: Whitespace) { exists c <- text :: !ws(c) }

  function WithText(ws: Whitespace): string -> bool { (text: string) => HasText(text, ws) }

  /** What is trimmed to nothing is whitespace all through. */
  lemma BlankIsTrimmedAway(text: string, ws: Whitespace)
    ensures Trim(text, ws) != "" <==> HasText(text, ws)
  {
    TrimTrims(text, ws);
    var trimmed := Trim(text, ws);
    if trimmed != "" {
      assert trimmed[0] in text;
    }
  }

  /** The texts of a list, each trimmed. */
  predicate AllTrimmed(full: seq<string>, trimmed: seq<string>, ws: Whitespace)
  {
    |full| == |trimmed| && forall k | 0 <= k < |full| :: IsTrimmed(full[k], trimmed[k], ws)
  }

  /** Trimmed, with the empty ones dropped. */
  function Kept(runs: seq<string>, ws: Whitespace): seq<string>
  {
    if runs == [] then [] else
      (if Trim(runs[0], ws) == "" then [] else [Trim(runs[0], ws)]) + Kept(runs[1..], ws)
  }

  /** The texts that have more than whitespace to them. */
  function Texts(runs: seq<string>, ws: Whitespace): seq<string>
  {
    if runs == [] then [] else
      Texts(runs[..|runs| - 1], ws) + (if HasText(runs[|runs| - 1], ws) then [runs[|runs| - 1]] else [])
  }

  lemma {:induction false} TextsArePicked(runs: seq<string>, ws: Whitespace)
    ensures Picks(runs, Texts(runs, ws), WithText(ws))
  {
    hide Picks;
    if runs == [] {
      PicksNothing(WithText(ws));
    } else {
      var front, run := runs[..|runs| - 1], runs[|runs| - 1];
      TextsArePicked(front, ws);
      PicksNext(front, Texts(front, ws), WithText(ws), run);
      assert front + [run] == runs;
    }
  }

  lemma {:induction false} KeptSnoc(runs: seq<string>, ws: Whitespace)
    requires runs != []
    ensures var run := Trim(runs[|runs| - 1], ws);
            Kept(runs, ws) == Kept(runs[..|runs| - 1], ws) + if run == "" then [] else [run]
  {
    if |runs| > 1 {
      KeptSnoc(runs[1..], ws);
      assert runs[1..][..|runs| - 2] == runs[..|runs| - 1][1..];
    }
  }

  lemma {:induction false} KeptAreTrimmed(runs: seq<string>, ws: Whitespace)
    ensures AllTrimmed(Texts(runs, ws), Kept(runs, ws), ws)
  {
    if runs != [] {
      var front, run := runs[..|runs| - 1], runs[|runs| - 1];
      KeptAreTrimmed(front, ws);
      KeptSnoc(runs, ws);
      BlankIsTrimmedAway(run, ws);
      TrimTrims(run, ws);
    }
  }

  function StatementsOf(sql: string, ws: Whitespace): seq<string>
  {
    Kept(Runs(Lex(sql, Plain), ""), ws)
  }

  predicate StartsAt(sql: string, i: nat, c: char)
  {
    i + 1 < |sql| && sql[i] == c && sql[i + 1] == c
  }

  function ModeOf(quoted: bool, dollar: bool): Mode
  {
    if quoted then Quoted else if dollar then Dollar else Plain
  }

  /** The runs still to come from a cursor position. */
  function Ahead(sql: string, i: nat, m: Mode, current: string): seq<string>
    requires i <= |sql|
  {
    Runs(Lex(sql[i..], m), current)
  }

  lemma {:induction false} LineEndIs(text: string, end: nat)
    requires end <= |text| && (forall j | 0 <= j < end :: text[j] != '\n')
    requires end < |text| ==> text[end] == '\n'
    ensures LineEnd(text) == end
  {}

  lemma CommentStep(sql: string, i: nat, end: nat, current: string)
    requires i <= end <= |sql| && StartsAt(sql, i, '-')
    requires (forall k | i <= k < end :: sql[k] != '\n') && (end < |sql| ==> sql[end] == '\n')
    ensures Ahead(sql, i, Plain, current) == Ahead(sql, end, Plain, current)
  {
    LineEndIs(sql[i..], end - i);
    assert sql[i..][end - i..] == sql[end..];
  }

  lemma DollarStep(sql: string, i: nat, m: Mode, current: string)
    requires StartsAt(sql, i, '$') && !m.Quoted?
    ensures Ahead(sql, i, m, current) == Ahead(sql, i + 2, if m.Dollar? then Plain else Dollar, current + "$$")
  {
    var rest := Lex(sql[i + 2..], if m.Dollar? then Plain else Dollar);
    assert sql[i..][2..] == sql[i + 2..];
    var tokens := [Ch('$'), Ch('$')] + rest;
    assert Lex(sql[i..], m) == tokens;
    assert tokens[1..] == [Ch('$')] + rest && ([Ch('$')] + rest)[1..] == rest;
    assert Runs(tokens, current) == Runs([Ch('$')] + rest, current + ['$']);
    assert Runs([Ch('$')] + rest, current + ['$']) == Runs(rest, current + ['$'] + ['$']);
    assert current + ['$'] + ['$'] == current + "$$";
  }

  lemma CutStep(sql: string, i: nat, current: string)
    requires i < |sql| && sql[i] == ';'
    ensures Ahead(sql, i, Plain, current) == [current] + Ahead(sql, i + 1, Plain, "")
  {
    assert sql[i..][1..] == sql[i + 1..];
    assert Lex(sql[i..], Plain)[1..] == Lex(sql[i + 1..], Plain);
  }

  /** Any other character goes into the statement; an apostrophe outside a body also turns quoting. */
  lemma CharStep(sql: string, i: nat, m: Mode, current: string)
    requires i < |sql| && (m.Plain? ==> sql[i] != ';' && !StartsAt(sql, i, '-'))
    requires !m.Quoted? ==> !StartsAt(sql, i, '$')
    ensures Ahead(sql, i, m, current)
         == Ahead(sql, i + 1, After(sql[i], m), current + [sql[i]])
  {
    assert sql[i..][1..] == sql[i + 1..];
    assert !(m.Plain? && Starts(sql[i..], '-')) && !(!m.Quoted? && Starts(sql[i..], '$'));
    var tokens := Lex(sql[i..], m);
    assert tokens[0] == Ch(sql[i]);
  }

  lemma KeptCons(out: seq<string>, run: string, runs: seq<string>, ws: Whitespace)
    ensures out + Kept([run] + runs, ws)
         == (if Trim(run, ws) == "" then out else out + [Trim(run, ws)]) + Kept(runs, ws)
  {
    assert ([run] + runs)[1..] == runs;
  }

  /** The statements are the runs between cuts that are not blank, in order, each trimmed. */
  ghost predicate AreTheTexts(runs: seq<string>, statements: seq<string>, ws: Whitespace)
  {
    exists full: seq<string> :: Picks(runs, full, WithText(ws)) && AllTrimmed(full, statements, ws)
  }

  lemma StatementsAreTheTexts(sql: string, ws: Whitespace)
    ensures AreTheTexts(Runs(Lex(sql, Plain), ""), StatementsOf(sql, ws), ws)
  {
    TextsArePicked(Runs(Lex(sql, Plain), ""), ws);
    KeptAreTrimmed(Runs(Lex(sql, Plain), ""), ws);
  }

  /** The cursor loop. */
  method Statements(sql: string, ws: Whitespace) returns (out: seq<string>)
    ensures out == StatementsOf(sql, ws) && AreTheTexts(Runs(Lex(sql, Plain), ""), out, ws)
  {
    hide AreTheTexts;
    out := [];
    var current := "";
    var i, quoted, dollar := 0, false, false;
    ghost var goal := StatementsOf(sql, ws);
    assert sql[0..] == sql;
    while i < |sql|
      invariant 0 <= i <= |sql| && !(quoted && dollar)
      invariant out + Kept(Ahead(sql, i, ModeOf(quoted, dollar), current), ws) == goal
    {
      var ch := sql[i];
      if !quoted && !dollar && StartsAt(sql, i, '-') {
        var end := i;
        while end < |sql| && sql[end] != '\n'
          invariant i <= end <= |sql| && (end == i ==> sql[end] != '\n')
          invariant forall k | i <= k < end :: sql[k] != '\n'
        {
          end := end + 1;
        }
        CommentStep(sql, i, end, current);
        i := end;
        continue;
      }
      if !quoted && StartsAt(sql, i, '$') {
        DollarStep(sql, i, ModeOf(quoted, dollar), current);
        dollar := !dollar;
        current := current + "$$";
        i := i + 2;
        continue;
      }
      ghost var before := ModeOf(quoted, dollar);
      if !dollar && ch == '\'' { quoted := !quoted; }
      if ch == ';' && !quoted && !dollar {
        CutStep(sql, i, current);
        KeptCons(out, current, Ahead(sql, i + 1, Plain, ""), ws);
        var statement := Trim(current, ws);
        if statement != "" { out := out + [statement]; }
        current := "";
      } else {
        CharStep(sql, i, before, current);
        current := current + [ch];
      }
      i := i + 1;
    }
    assert sql[i..] == "";
    KeptCons(out, current, [], ws);
    var tail := Trim(current, ws);
    if tail != "" { out := out + [tail]; }
    StatementsAreTheTexts(sql, ws);
  }

  // --------------------------------------------------- statements read back

  function Chars(text: string): seq<Token>
  {
    if text == "" then [] else [Ch(text[0])] + Chars(text[1..])
  }

  /** The text has no comment and no end of statement in it: every character is its own. */
  predicate Whole(text: string, m: Mode) { Lex(text, m) == Chars(text) }

  predicate HasCut(tokens: seq<Token>) { tokens != [] && (tokens[0].Cut? || HasCut(tokens[1..])) }

  /** The characters before the first cut. */
  function FirstRun(tokens: seq<Token>): string
  {
    if tokens == [] || tokens[0].Cut? then "" else [tokens[0].c] + FirstRun(tokens[1..])
  }

  function AfterCut(tokens: seq<Token>): seq<Token>
  {
    if tokens == [] then [] else if tokens[0].Cut? then tokens[1..] else AfterCut(tokens[1..])
  }

  lemma {:induction false} RunsUnfold(tokens: seq<Token>, current: string)
    ensures Runs(tokens, current) ==
            [current + FirstRun(tokens)] + (if HasCut(tokens) then Runs(AfterCut(tokens), "") else [])
  {
    if tokens != [] && tokens[0].Ch? {
      RunsUnfold(tokens[1..], current + [tokens[0].c]);
      assert current + [tokens[0].c] + FirstRun(tokens[1..]) == current + FirstRun(tokens);
    } else {
      assert current + FirstRun(tokens) == current;
    }
  }

  /** The text after the first end of statement. */
  function TextAfter(text: string, m: Mode): string
    decreases |text|
    ensures |TextAfter(text, m)| <= |text|
  {
    if text == "" then ""
    else if m.Plain? && Starts(text, '-') then TextAfter(text[LineEnd(text)..], Plain)
    else if !m.Quoted? && Starts(text, '$') then TextAfter(text[2..], if m.Dollar? then Plain else Dollar)
    else if !m.Dollar? && text[0] == '\'' then TextAfter(text[1..], if m.Quoted? then Plain else Quoted)
    else if m.Plain? && text[0] == ';' then text[1..]
    else TextAfter(text[1..], m)
  }

  lemma {:induction false} AfterCutLexes(text: string, m: Mode)
    requires HasCut(Lex(text, m))
    ensures AfterCut(Lex(text, m)) == Lex(TextAfter(text, m), Plain)
    ensures |TextAfter(text, m)| < |text|
    decreases |text|
  {
    if m.Plain? && Starts(text, '-') {
      AfterCutLexes(text[LineEnd(text)..], Plain);
    } else if !m.Quoted? && Starts(text, '$') {
      var m' := if m.Dollar? then Plain else Dollar;
      var tokens := Lex(text, m);
      assert tokens[1..] == [Ch('$')] + Lex(text[2..], m') && tokens[1..][1..] == Lex(text[2..], m');
      AfterCutLexes(text[2..], m');
    } else if !m.Dollar? && text[0] == '\'' {
      AfterCutLexes(text[1..], if m.Quoted? then Plain else Quoted);
    } else if !(m.Plain? && text[0] == ';') {
      AfterCutLexes(text[1..], m);
    }
  }

  /** What the first run starts with: the text's first character, or the newline a comment leaves. */
  lemma {:induction false} FirstRunStarts(text: string, m: Mode)
    ensures var run := FirstRun(Lex(text, m));
            run != "" ==> text != "" && (run[0] == text[0] || (text[0] == '-' && run[0] == '\n'))
  {
    if text != "" && m.Plain? && Starts(text, '-') {
      var rest := text[LineEnd(text)..];
      if rest != "" { assert Lex(rest, Plain)[0] == Ch('\n'); }
    }
  }

  /** A run reads back as itself, and a run that was cut ends outside quotes and bodies. */
  lemma {:induction false} RunIsWhole(text: string, m: Mode)
    ensures Whole(FirstRun(Lex(text, m)), m)
    ensures HasCut(Lex(text, m)) ==> EndMode(FirstRun(Lex(text, m)), m).Plain?
    decreases |text|
  {
    if text == "" {
    } else if m.Plain? && Starts(text, '-') {
      RunIsWhole(text[LineEnd(text)..], Plain);
    } else if !m.Quoted? && Starts(text, '$') {
      var m' := if m.Dollar? then Plain else Dollar;
      RunIsWhole(text[2..], m');
      WholeDollars(text, m, m');
    } else if !m.Dollar? && text[0] == '\'' {
      var m' := if m.Quoted? then Plain else Quoted;
      RunIsWhole(text[1..], m');
      var run := FirstRun(Lex(text, m));
      assert run == ['\''] + FirstRun(Lex(text[1..], m'));
      assert run[1..] == FirstRun(Lex(text[1..], m'));
    } else if m.Plain? && text[0] == ';' {
    } else {
      RunIsWhole(text[1..], m);
      FirstRunStarts(text[1..], m);
      var run := FirstRun(Lex(text, m));
      assert run == [text[0]] + FirstRun(Lex(text[1..], m));
      assert run[1..] == FirstRun(Lex(text[1..], m));
    }
  }

  lemma WholeDollars(text: string, m: Mode, m': Mode)
    requires Starts(text, '$') && !m.Quoted? && m' == (if m.Dollar? then Plain else Dollar)
    requires Whole(FirstRun(Lex(text[2..], m')), m')
    requires HasCut(Lex(text[2..], m')) ==> EndMode(FirstRun(Lex(text[2..], m')), m').Plain?
    ensures Whole(FirstRun(Lex(text, m)), m)
    ensures HasCut(Lex(text, m)) ==> EndMode(FirstRun(Lex(text, m)), m).Plain?
  {
    var rest := Lex(text[2..], m');
    var tokens := Lex(text, m);
    assert tokens[1..] == [Ch('$')] + rest && ([Ch('$')] + rest)[1..] == rest;
    assert FirstRun([Ch('$')] + rest) == ['$'] + FirstRun(rest);
    assert HasCut(tokens) == HasCut([Ch('$')] + rest) == HasCut(rest);
    var run := FirstRun(tokens);
    assert run == ['$'] + (['$'] + FirstRun(rest));
    assert run[1..] == ['$'] + FirstRun(rest) && run[2..] == FirstRun(rest);
    assert Chars(run) == [Ch('$')] + ([Ch('$')] + Chars(run[2..])) by {
      assert (['$'] + FirstRun(rest))[1..] == FirstRun(rest);
    }
  }

  /** Leading whitespace changes nothing about how the rest reads. */
  lemma {:induction false} WholeTrimLeft(text: string, ws: Whitespace)
    requires Harmless(ws) && Whole(text, Plain)
    ensures Whole(TrimLeft(text, ws), Plain) && EndMode(TrimLeft(text, ws), Plain) == EndMode(text, Plain)
  {
    if text != "" && ws(text[0]) {
      assert Lex(text, Plain)[1..] == Chars(text)[1..];
      WholeTrimLeft(text[1..], ws);
    }
  }

  /** Nor does a whitespace character at the end. */
  lemma {:induction false} WholeButLast(text: string, m: Mode, last: char)
    requires last != '\'' && last != ';' && last != '$' && last != '-'
    requires Whole(text + [last], m)
    ensures Whole(text, m) && EndMode(text, m) == EndMode(text + [last], m)
    decreases |text|
  {
    var longer := text + [last];
    if text == "" {
      assert longer[1..] == "";
    } else if m.Plain? && Starts(longer, '-') {
      WholeHasNoComment(longer);
    } else if !m.Quoted? && Starts(longer, '$') {
      assert |text| >= 2;
      var m' := if m.Dollar? then Plain else Dollar;
      assert longer[2..] == text[2..] + [last];
      WholeDollarTail(longer, m);
      WholeButLast(text[2..], m', last);
      DollarHead(text, m);
    } else {
      var m' := After(text[0], m);
      assert longer[1..] == text[1..] + [last];
      assert Lex(longer, m)[1..] == Lex(longer[1..], m');
      assert Chars(longer)[1..] == Chars(longer[1..]);
      WholeButLast(text[1..], m', last);
    }
  }

  lemma {:induction false} LexLength(text: string, m: Mode)
    ensures |Lex(text, m)| <= |text|
    decreases |text|
  {
    if text != "" {
      if m.Plain? && Starts(text, '-') { LexLength(text[LineEnd(text)..], Plain); }
      else if !m.Quoted? && Starts(text, '$') { LexLength(text[2..], if m.Dollar? then Plain else Dollar); }
      else if !m.Dollar? && text[0] == '\'' { LexLength(text[1..], if m.Quoted? then Plain else Quoted); }
      else { LexLength(text[1..], m); }
    }
  }

  lemma {:induction false} CharsLength(text: string)
    ensures |Chars(text)| == |text|
  {
    if text != "" { CharsLength(text[1..]); }
  }

  lemma WholeHasNoComment(text: string)
    requires Starts(text, '-')
    ensures !Whole(text, Plain)
  {
    LexLength(text[LineEnd(text)..], Plain);
    CharsLength(text);
  }

  lemma WholeDollarTail(text: string, m: Mode)
    requires Starts(text, '$') && !m.Quoted?
    ensures Whole(text, m) <==> Whole(text[2..], if m.Dollar? then Plain else Dollar)
  {
    var rest := Lex(text[2..], if m.Dollar? then Plain else Dollar);
    assert Lex(text, m) == [Ch('$'), Ch('$')] + rest;
    assert text[1..][1..] == text[2..];
    assert Chars(text) == [Ch('$')] + ([Ch('$')] + Chars(text[2..]));
    assert Chars(text) == [Ch('$'), Ch('$')] + Chars(text[2..]);
    assert Lex(text, m)[2..] == rest && Chars(text)[2..] == Chars(text[2..]);
  }

  lemma DollarHead(text: string, m: Mode)
    requires Starts(text, '$') && !m.Quoted?
    requires Whole(text[2..], if m.Dollar? then Plain else Dollar)
    ensures Whole(text, m) && EndMode(text, m) == EndMode(text[2..], if m.Dollar? then Plain else Dollar)
  {
    WholeDollarTail(text, m);
  }

  lemma {:induction false} WholeTrimRight(text: string, ws: Whitespace)
    requires Harmless(ws) && Whole(text, Plain)
    ensures Whole(TrimRight(text, ws), Plain) && EndMode(TrimRight(text, ws), Plain) == EndMode(text, Plain)
  {
    if text != "" && ws(text[|text| - 1]) {
      var front, last := text[..|text| - 1], text[|text| - 1];
      assert text == front + [last];
      WholeButLast(front, Plain, last);
      WholeTrimRight(front, ws);
    }
  }

  lemma {:induction false} TrimLeftTrimmed(text: string, ws: Whitespace)
    ensures TrimLeft(text, ws) != "" ==> !ws(TrimLeft(text, ws)[0])
  {
    if text != "" && ws(text[0]) { TrimLeftTrimmed(text[1..], ws); }
  }

  lemma {:induction false} TrimRightTrimmed(text: string, ws: Whitespace)
    ensures var r := TrimRight(text, ws);
            && (r != "" ==> !ws(r[|r| - 1]) && r[0] == text[0])
            && r <= text
  {
    if text != "" && ws(text[|text| - 1]) { TrimRightTrimmed(text[..|text| - 1], ws); }
  }

  /** Trimming is done once and for all, and leaves a run that reads back as itself. */
  lemma TrimKeepsWhole(text: string, ws: Whitespace)
    requires Harmless(ws) && Whole(text, Plain)
    ensures Whole(Trim(text, ws), Plain) && EndMode(Trim(text, ws), Plain) == EndMode(text, Plain)
    ensures Trim(Trim(text, ws), ws) == Trim(text, ws)
  {
    WholeTrimLeft(text, ws);
    WholeTrimRight(TrimLeft(text, ws), ws);
    TrimLeftTrimmed(text, ws);
    TrimRightTrimmed(TrimLeft(text, ws), ws);
    var r := Trim(text, ws);
    assert TrimLeft(r, ws) == r && TrimRight(r, ws) == r;
  }

  // ------------------------------------------------ what is quoted, and what is cut

  /** A comment, to the end of its line, leaves nothing. */
  lemma CommentLexes(line: string, rest: string)
    requires '\n' !in line && (rest != "" ==> rest[0] == '\n')
    ensures Lex("--" + line + rest, Plain) == Lex(rest, Plain)
  {
    var text := "--" + line + rest;
    assert text[0] == '-' && text[1] == '-';
    forall j | 0 <= j < 2 + |line| ensures text[j] != '\n' {
      if j >= 2 { assert text[j] == line[j - 2]; }
    }
    LineEndIs(text, 2 + |line|);
    assert text[2 + |line|..] == rest;
  }

  lemma {:induction false} QuotedChars(body: string, rest: string)
    requires '\'' !in body
    ensures Lex(body + rest, Quoted) == Chars(body) + Lex(rest, Quoted)
    decreases |body|
  {
    if body == "" {
      assert body + rest == rest;
    } else {
      assert (body + rest)[1..] == body[1..] + rest;
      QuotedChars(body[1..], rest);
      Regroup([Ch(body[0])], Chars(body[1..]), Lex(rest, Quoted));
    }
  }

  /** Everything up to the closing apostrophe is the literal's own: semicolons, dashes and dollars too. */
  lemma LiteralLexes(body: string, rest: string)
    requires '\'' !in body
    ensures Lex("'" + (body + ("'" + rest)), Plain) == Chars("'" + body) + ([Ch('\'')] + Lex(rest, Plain))
    ensures Lex("'" + body, Plain) == Chars("'" + body)
  {
    QuotedChars(body, "'" + rest);
    QuotedChars(body, "");
    assert ("'" + (body + ("'" + rest)))[1..] == body + ("'" + rest);
    assert ("'" + rest)[1..] == rest;
    assert body + "" == body && ("'" + body)[1..] == body;
    assert Chars(body) + [] == Chars(body);
    Regroup([Ch('\'')], Chars(body), [Ch('\'')] + Lex(rest, Plain));
  }

  /** No body mark starts in the text, nor at its end if a dollar follows. */
  predicate NoMark(text: string) { forall k | 0 <= k < |text| :: !StartsAt(text, k, '$') }

  lemma {:induction false} BodyChars(body: string, rest: string)
    requires NoMark(body + rest[..if rest == "" then 0 else 1]) && (rest != "" ==> Starts(rest, '$'))
    ensures Lex(body + rest, Dollar) == Chars(body) + Lex(rest, Dollar)
    decreases |body|
  {
    if body == "" {
      assert body + rest == rest;
    } else {
      var text := body + rest;
      var mark := rest[..if rest == "" then 0 else 1];
      assert text[1..] == body[1..] + rest;
      assert !StartsAt(body + mark, 0, '$');
      assert Starts(text, '$') ==> StartsAt(body + mark, 0, '$');
      forall k | 0 <= k < |body[1..] + mark| ensures !StartsAt(body[1..] + mark, k, '$') {
        assert !StartsAt(body + mark, k + 1, '$');
        assert (body[1..] + mark)[k] == (body + mark)[k + 1];
      }
      BodyChars(body[1..], rest);
      Regroup([Ch(body[0])], Chars(body[1..]), Lex(rest, Dollar));
    }
  }

  /** So is everything between two body marks: semicolons, dashes and apostrophes too. */
  lemma BodyLexes(body: string, rest: string)
    requires NoMark(body + "$")
    ensures Lex("$$" + (body + ("$$" + rest)), Plain)
         == [Ch('$'), Ch('$')] + (Chars(body) + ([Ch('$'), Ch('$')] + Lex(rest, Plain)))
  {
    var closing := "$$" + rest;
    assert closing[..1] == "$" && closing[2..] == rest;
    BodyChars(body, closing);
    assert ("$$" + (body + closing))[2..] == body + closing;
  }

  lemma OpenBodyLexes(body: string)
    requires NoMark(body)
    ensures Lex("$$" + body, Plain) == [Ch('$'), Ch('$')] + Chars(body)
  {
    assert body + ""[..0] == body && body + "" == body;
    BodyChars(body, "");
    assert ("$$" + body)[2..] == body;
    assert Chars(body) + [] == Chars(body);
  }

  /** Outside those a semicolon cuts, and any other character is its own. */
  lemma PlainLexes(c: char, rest: string)
    requires c != '\'' && !Starts([c] + rest, '-') && !Starts([c] + rest, '$')
    ensures Lex([c] + rest, Plain) == [if c == ';' then Cut else Ch(c)] + Lex(rest, Plain)
  {
    assert ([c] + rest)[1..] == rest;
  }

  // ------------------------------------------------------------- main results

  /** A statement: trimmed, not empty, and with no comment and no semicolon outside quotes and bodies. */
  predicate IsStatement(text: string, ws: Whitespace)
  {
    text != "" && !ws(text[0]) && !ws(text[|text| - 1]) && Whole(text, Plain)
  }

  lemma StatementIsTrimmed(text: string, ws: Whitespace)
    requires text != "" && !ws(text[0]) && !ws(text[|text| - 1])
    ensures Trim(text, ws) == text
  {}

  /** Statements, each but perhaps the last ending outside quotes and bodies. */
  predicate AreStatements(list: seq<string>, ws: Whitespace)
  {
    list == [] ||
    (&& IsStatement(list[0], ws)
     && (|list| > 1 ==> EndMode(list[0], Plain).Plain?)
     && AreStatements(list[1..], ws))
  }

  /** The first run, trimmed, and then the statements of what follows the cut. */
  lemma StatementsUnfold(sql: string, ws: Whitespace)
    ensures var first := Trim(FirstRun(Lex(sql, Plain)), ws);
            StatementsOf(sql, ws) ==
            (if first == "" then [] else [first])
            + (if HasCut(Lex(sql, Plain)) then StatementsOf(TextAfter(sql, Plain), ws) else [])
  {
    var tokens := Lex(sql, Plain);
    var run := FirstRun(tokens);
    RunsUnfold(tokens, "");
    assert "" + run == run;
    if HasCut(tokens) {
      AfterCutLexes(sql, Plain);
      KeptCons([], run, Runs(Lex(TextAfter(sql, Plain), Plain), ""), ws);
    } else {
      KeptCons([], run, [], ws);
    }
  }

  /** Every statement is trimmed, not empty, and free of comments and of semicolons that would end it. */
  lemma {:induction false} StatementsAreStatements(sql: string, ws: Whitespace)
    requires Harmless(ws)
    ensures AreStatements(StatementsOf(sql, ws), ws)
    decreases |sql|
  {
    var run := FirstRun(Lex(sql, Plain));
    var first := Trim(run, ws);
    RunIsWhole(sql, Plain);
    TrimKeepsWhole(run, ws);
    TrimTrims(run, ws);
    StatementsUnfold(sql, ws);
    if HasCut(Lex(sql, Plain)) {
      AfterCutLexes(sql, Plain);
      var rest := StatementsOf(TextAfter(sql, Plain), ws);
      StatementsAreStatements(TextAfter(sql, Plain), ws);
      assert [] + rest == rest;
      assert ([first] + rest)[1..] == rest;
    } else {
      assert [first] + [] == [first] && [first][1..] == [];
    }
  }

  /** Statements joined by semicolons. */
  function JoinStatements(list: seq<string>): string
  {
    if list == [] then ""
    else if |list| == 1 then list[0]
    else list[0] + (";" + JoinStatements(list[1..]))
  }

  /** The mode one character leads to, when it starts neither a comment nor a body mark. */
  function After(c: char, m: Mode): Mode
  {
    if c == '\'' && m.Plain? then Quoted else if c == '\'' && m.Quoted? then Plain else m
  }

  predicate Ordinary(text: string, m: Mode)
  {
    && text != ""
    && !(m.Plain? && Starts(text, '-'))
    && !(!m.Quoted? && Starts(text, '$'))
    && !(m.Plain? && text[0] == ';')
  }

  lemma LexOrdinary(text: string, m: Mode)
    requires Ordinary(text, m)
    ensures Lex(text, m) == [Ch(text[0])] + Lex(text[1..], After(text[0], m))
    ensures EndMode(text, m) == EndMode(text[1..], After(text[0], m))
  {}

  lemma LexDollars(text: string, m: Mode)
    requires Starts(text, '$') && !m.Quoted?
    ensures Lex(text, m) == [Ch('$'), Ch('$')] + Lex(text[2..], if m.Dollar? then Plain else Dollar)
    ensures Chars(text) == [Ch('$'), Ch('$')] + Chars(text[2..])
  {
    assert text[1..][1..] == text[2..];
  }

  /** A statement that ends outside quotes and bodies reads the same with a semicolon and more after it. */
  lemma {:induction false} WholeThenCut(text: string, m: Mode, tail: string)
    requires Whole(text, m) && EndMode(text, m).Plain? && tail != "" && tail[0] == ';'
    ensures Lex(text + tail, m) == Chars(text) + Lex(tail, Plain)
    decreases |text|
  {
    var longer := text + tail;
    if text == "" {
      assert longer == tail;
    } else if m.Plain? && Starts(text, '-') {
      WholeHasNoComment(text);
    } else if !m.Quoted? && Starts(text, '$') {
      var m' := if m.Dollar? then Plain else Dollar;
      WholeDollarTail(text, m);
      WholeThenCut(text[2..], m', tail);
      assert longer[2..] == text[2..] + tail;
      LexDollars(longer, m);
      LexDollars(text, m);
      Regroup([Ch('$'), Ch('$')], Chars(text[2..]), Lex(tail, Plain));
    } else {
      var m' := After(text[0], m);
      assert Lex(text, m)[0] == Chars(text)[0];
      LexOrdinary(text, m);
      assert Lex(text, m)[1..] == Chars(text)[1..];
      WholeThenCut(text[1..], m', tail);
      assert longer[1..] == text[1..] + tail;
      LexOrdinary(longer, m);
      Regroup([Ch(text[0])], Chars(text[1..]), Lex(tail, Plain));
    }
  }

  lemma Regroup(a: seq<Token>, b: seq<Token>, c: seq<Token>)
    ensures a + (b + c) == (a + b) + c
  {}

  lemma {:induction false} RunsOfChars(text: string, current: string)
    ensures Runs(Chars(text), current) == [current + text]
  {
    if text == "" {
      assert current + text == current;
    } else {
      RunsOfChars(text[1..], current + [text[0]]);
      assert current + [text[0]] + text[1..] == current + text;
    }
  }

  lemma {:induction false} RunsThenCut(text: string, rest: seq<Token>, current: string)
    requires rest != [] && rest[0].Cut?
    ensures Runs(Chars(text) + rest, current) == [current + text] + Runs(rest[1..], "")
  {
    var tokens := Chars(text) + rest;
    if text == "" {
      assert tokens == rest && current + text == current;
    } else {
      assert tokens[1..] == Chars(text[1..]) + rest;
      RunsThenCut(text[1..], rest, current + [text[0]]);
      assert current + [text[0]] + text[1..] == current + text;
    }
  }

  lemma OneStatement(t: string, ws: Whitespace)
    requires IsStatement(t, ws)
    ensures StatementsOf(t, ws) == [t]
  {
    RunsOfChars(t, "");
    StatementIsTrimmed(t, ws);
    assert "" + t == t;
    assert Kept([t], ws) == [t] + Kept([], ws);
  }

  lemma FirstStatement(t: string, rest: string, ws: Whitespace)
    requires IsStatement(t, ws) && EndMode(t, Plain).Plain?
    ensures StatementsOf(t + (";" + rest), ws) == [t] + StatementsOf(rest, ws)
  {
    var tail := ";" + rest;
    assert tail[1..] == rest;
    WholeThenCut(t, Plain, tail);
    RunsThenCut(t, Lex(tail, Plain), "");
    assert "" + t == t;
    StatementIsTrimmed(t, ws);
    KeptCons([], t, Runs(Lex(rest, Plain), ""), ws);
  }

  lemma NoStatement(ws: Whitespace)
    ensures StatementsOf("", ws) == []
  {
    assert Runs([], "") == [""];
    assert Kept([""], ws) == [] + Kept([], ws);
  }

  /** Any list of statements survives being joined and split again. */
  lemma {:induction false} JoinedSplits(list: seq<string>, ws: Whitespace)
    requires AreStatements(list, ws)
    ensures StatementsOf(JoinStatements(list), ws) == list
  {
    if list == [] {
      NoStatement(ws);
    } else if |list| == 1 {
      OneStatement(list[0], ws);
    } else {
      JoinedSplits(list[1..], ws);
      FirstStatement(list[0], JoinStatements(list[1..]), ws);
    }
  }

  /** Splitting what was split and joined again changes nothing, for every text. */
  lemma SplitRoundTrip(sql: string, ws: Whitespace)
    requires Harmless(ws)
    ensures StatementsOf(JoinStatements(StatementsOf(sql, ws)), ws) == StatementsOf(sql, ws)
  {
    StatementsAreStatements(sql, ws);
    JoinedSplits(StatementsOf(sql, ws), ws);
  }

  /** The text with its comments taken out and nothing else. */
  function Uncommented(text: string, m: Mode): string
    decreases |text|
  {
    if text == "" then ""
    else if m.Plain? && Starts(text, '-') then Uncommented(text[LineEnd(text)..], Plain)
    else if !m.Quoted? && Starts(text, '$') then "$$" + Uncommented(text[2..], if m.Dollar? then Plain else Dollar)
    else [text[0]] + Uncommented(text[1..], After(text[0], m))
  }

  /** The tokens written out, a cut as the semicolon it came from. */
  function Written(tokens: seq<Token>): string
  {
    if tokens == [] then "" else [if tokens[0].Cut? then ';' else tokens[0].c] + Written(tokens[1..])
  }

  lemma {:induction false} RunsWritten(tokens: seq<Token>, current: string)
    ensures Runs(tokens, current) != []
    ensures JoinStatements(Runs(tokens, current)) == current + Written(tokens)
  {
    if tokens == [] {
      assert current + "" == current;
    } else if tokens[0].Cut? {
      RunsWritten(tokens[1..], "");
      var rest := Runs(tokens[1..], "");
      assert ([current] + rest)[1..] == rest;
      assert "" + Written(tokens[1..]) == Written(tokens[1..]);
      assert ";" + Written(tokens[1..]) == [';'] + Written(tokens[1..]);
    } else {
      RunsWritten(tokens[1..], current + [tokens[0].c]);
      assert current + [tokens[0].c] + Written(tokens[1..]) == current + ([tokens[0].c] + Written(tokens[1..]));
    }
  }

  lemma {:induction false} LexWritten(text: string, m: Mode)
    ensures Written(Lex(text, m)) == Uncommented(text, m)
    decreases |text|
  {
    if text == "" {
    } else if m.Plain? && Starts(text, '-') {
      LexWritten(text[LineEnd(text)..], Plain);
    } else if !m.Quoted? && Starts(text, '$') {
      var m' := if m.Dollar? then Plain else Dollar;
      LexWritten(text[2..], m');
      LexDollars(text, m);
      WrittenDollars(Lex(text[2..], m'));
    } else {
      LexWritten(text[1..], After(text[0], m));
      LexOne(text, m);
      hide Lex;
    }
  }

  lemma WrittenDollars(rest: seq<Token>)
    ensures Written([Ch('$'), Ch('$')] + rest) == "$$" + Written(rest)
  {
    var tokens := [Ch('$'), Ch('$')] + rest;
    assert tokens[1..] == [Ch('$')] + rest && tokens[1..][1..] == rest;
  }

  lemma LexOne(text: string, m: Mode)
    requires text != "" && !(m.Plain? && Starts(text, '-')) && !(!m.Quoted? && Starts(text, '$'))
    ensures Lex(text, m) == [if m.Plain? && text[0] == ';' then Cut else Ch(text[0])] + Lex(text[1..], After(text[0], m))
  {}

  /** Cutting loses nothing: before trimming, the runs joined again are the text without its comments. */
  lemma RunsRejoin(sql: string)
    ensures JoinStatements(Runs(Lex(sql, Plain), "")) == Uncommented(sql, Plain)
  {
    RunsWritten(Lex(sql, Plain), "");
    LexWritten(sql, Plain);
    assert "" + Uncommented(sql, Plain) == Uncommented(sql, Plain);
  }
}
