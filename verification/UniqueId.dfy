/**
 * A fresh identifier from whatever the author typed: the typed text cleaned into an
 * identifier, numbered from two upwards if that is taken.
 */
module UniqueId {
  import opened FormTree

  predicate Letter(c: char) { 'a' <= c <= 'z' }

  predicate Word(c: char) { Letter(c) || '0' <= c <= '9' || c == '_' }

  /** Section 2.4 of the Form IR: a letter, then letters, digits and underscores. */
  predicate IsId(s: string) { s != "" && Letter(s[0]) && forall c <- s :: Word(c) }

  // -------------------------------------------------------------- cleaning

  /** Every longest run of characters that no identifier has becomes one underscore. */
  function Collapse(s: string): string
    decreases |s|
  {
    if s == "" then ""
    else if Word(s[0]) then [s[0]] + Collapse(s[1..])
    else "_" + Collapse(AfterRun(s))
  }

  function AfterRun(s: string): (r: string)
    ensures |r| <= |s| && (s != "" && !Word(s[0]) ==> |r| < |s|)
    ensures r == "" || Word(r[0])
  {
    if s == "" || Word(s[0]) then s else AfterRun(s[1..])
  }

  /** Without what stands before the first letter. */
  function FromLetter(s: string): string
  {
    if s == "" || Letter(s[0]) then s else FromLetter(s[1..])
  }

  /** Without the underscores at the end. */
  function Trimmed(s: string): string
  {
    if s != "" && s[|s| - 1] == '_' then Trimmed(s[..|s| - 1]) else s
  }

  /** The cleaned text, of a text already in lower case. */
  function Cleaned(lowered: string): string
  {
    var r := Trimmed(FromLetter(Collapse(lowered)));
    if r == "" then "q" else r
  }

  predicate AllWord(s: string) { forall c <- s :: Word(c) }

  lemma {:induction false} CollapseIsWord(s: string)
    ensures AllWord(Collapse(s))
    ensures AllWord(s) ==> Collapse(s) == s
    decreases |s|
  {
    if s != "" {
      if Word(s[0]) {
        CollapseIsWord(s[1..]);
        assert s == [s[0]] + s[1..];
      } else {
        CollapseIsWord(AfterRun(s));
        assert s[0] in s;
      }
    }
  }

  lemma {:induction false} FromLetterIsId(s: string)
    requires AllWord(s)
    ensures FromLetter(s) == "" || IsId(FromLetter(s))
  {
    if s != "" && !Letter(s[0]) {
      assert forall c <- s[1..] :: c in s;
      FromLetterIsId(s[1..]);
    }
  }

  lemma {:induction false} TrimmedIsId(s: string)
    requires s == "" || IsId(s)
    ensures Trimmed(s) == "" || (IsId(Trimmed(s)) && Trimmed(s)[|Trimmed(s)| - 1] != '_')
  {
    if s != "" && s[|s| - 1] == '_' {
      assert forall c <- s[..|s| - 1] :: c in s;
      TrimmedIsId(s[..|s| - 1]);
    }
  }

  /** Whatever is typed is cleaned into an identifier; what is one already, with no underscore
      at its end, and nothing else, is left alone. */
  lemma CleanedIsId(lowered: string)
    ensures IsId(Cleaned(lowered))
    ensures Cleaned(lowered) == lowered <==> IsId(lowered) && lowered[|lowered| - 1] != '_'
  {
    CollapseIsWord(lowered);
    FromLetterIsId(Collapse(lowered));
    TrimmedIsId(FromLetter(Collapse(lowered)));
  }

  /** What the i-th character becomes shows: it may stand in an identifier, or it starts a run that may not. */
  predicate Shows(s: string, i: nat)
    requires i < |s|
  {
    Word(s[i]) || i == 0 || Word(s[i - 1])
  }

  /** The characters at these places, in order: those that show, and only those, the rest of a run being left out. */
  predicate CollapsedAt(s: string, collapsed: string, at: seq<nat>)
  {
    && |at| == |collapsed|
    && (forall k | 0 <= k < |at| :: at[k] < |s| && collapsed[k] == if Word(s[at[k]]) then s[at[k]] else '_')
    && (forall k, l | 0 <= k < l < |at| :: at[k] < at[l])
    && (forall i: nat | i < |s| :: Shows(s, i) <==> i in at)
  }

  lemma {:induction false} AfterRunSnoc(s: string, c: char)
    ensures AfterRun(s) != "" ==> AfterRun(s + [c]) == AfterRun(s) + [c] && AfterRun(s)[|AfterRun(s)| - 1] == s[|s| - 1]
    ensures AfterRun(s) == "" ==> AfterRun(s + [c]) == (if Word(c) then [c] else "") && (s != "" ==> !Word(s[|s| - 1]))
  {
    if s == "" {
      assert s + [c] == [c];
    } else {
      assert (s + [c])[1..] == s[1..] + [c];
      if !Word(s[0]) { AfterRunSnoc(s[1..], c); }
    }
  }

  lemma CollapseOne(s: string)
    requires s != ""
    ensures Collapse(s) == if Word(s[0]) then [s[0]] + Collapse(s[1..]) else "_" + Collapse(AfterRun(s))
  {}

  lemma CollapseChar(c: char)
    ensures Collapse([c]) == if Word(c) then [c] else "_"
  {
    assert [c][1..] == "" && AfterRun("") == "" && Collapse("") == "";
    assert !Word(c) ==> AfterRun([c]) == "";
  }

  lemma {:induction false} CollapseSnoc(s: string, c: char)
    ensures Collapse(s + [c]) ==
            Collapse(s) + (if Word(c) then [c] else if s != "" && !Word(s[|s| - 1]) then "" else "_")
    decreases |s|
  {
    CollapseChar(c);
    if s == "" {
      assert s + [c] == [c] && Collapse("") == "";
    } else {
      CollapseOne(s);
      CollapseOne(s + [c]);
      if Word(s[0]) {
        assert (s + [c])[1..] == s[1..] + [c];
        CollapseSnoc(s[1..], c);
      } else {
        CollapseRunSnoc(s, c);
        if AfterRun(s) != "" { CollapseSnoc(AfterRun(s), c); }
      }
      hide Collapse, AfterRun, Word;
    }
  }

  lemma CollapseRunSnoc(s: string, c: char)
    requires s != "" && !Word(s[0])
    ensures AfterRun(s) != "" ==> AfterRun(s + [c]) == AfterRun(s) + [c] && AfterRun(s)[|AfterRun(s)| - 1] == s[|s| - 1]
    ensures AfterRun(s) == "" ==>
      Collapse(s) == "_" && !Word(s[|s| - 1]) && Collapse(AfterRun(s + [c])) == (if Word(c) then [c] else "")
  {
    AfterRunSnoc(s, c);
    CollapseChar(c);
    assert Collapse("") == "";
  }

  lemma ShowsLonger(s: string, c: char)
    ensures forall i: nat | i < |s| :: Shows(s + [c], i) <==> Shows(s, i)
    ensures Shows(s + [c], |s|) <==> Word(c) || s == "" || Word(s[|s| - 1])
  {
    assert (s + [c])[|s|] == c && forall i: nat | i < |s| :: (s + [c])[i] == s[i];
  }

  lemma CollapsedNext(s: string, c: char, collapsed: string, at: seq<nat>, shown: char)
    requires CollapsedAt(s, collapsed, at) && Shows(s + [c], |s|) && shown == if Word(c) then c else '_'
    ensures CollapsedAt(s + [c], collapsed + [shown], at + [|s|])
  {
    ShowsLonger(s, c);
    hide Shows, Word;
    assert (s + [c])[|s|] == c;
    forall i: nat | i < |s + [c]| ensures i in at + [|s|] <==> i in at || i == |s| {}
  }

  lemma CollapsedSame(s: string, c: char, collapsed: string, at: seq<nat>)
    requires CollapsedAt(s, collapsed, at) && !Shows(s + [c], |s|)
    ensures CollapsedAt(s + [c], collapsed, at)
  {
    ShowsLonger(s, c);
    hide Shows, Word;
  }

  lemma {:induction false} CollapseExactly(s: string) returns (at: seq<nat>)
    ensures CollapsedAt(s, Collapse(s), at)
  {
    at := [];
    if s != "" {
      var front, c := s[..|s| - 1], s[|s| - 1];
      at := CollapseExactly(front);
      assert front + [c] == s;
      CollapseSnoc(front, c);
      ShowsLonger(front, c);
      hide Shows, CollapsedAt, Collapse;
      if Shows(s, |front|) {
        CollapsedNext(front, c, Collapse(front), at, if Word(c) then c else '_');
        at := at + [|front|];
      } else {
        CollapsedSame(front, c, Collapse(front), at);
        assert Collapse(front) + "" == Collapse(front);
      }
    }
  }

  lemma {:induction false} FromLetterCuts(s: string) returns (i: nat)
    ensures i <= |s| && FromLetter(s) == s[i..] && (forall k | 0 <= k < i :: !Letter(s[k])) && (i < |s| ==> Letter(s[i]))
  {
    i := 0;
    if s != "" && !Letter(s[0]) {
      i := FromLetterCuts(s[1..]);
      forall k | 0 <= k < i + 1 ensures !Letter(s[k]) {
        if k > 0 { assert s[k] == s[1..][k - 1]; }
      }
      i := i + 1;
    }
  }

  lemma {:induction false} TrimmedCuts(s: string) returns (j: nat)
    ensures j <= |s| && Trimmed(s) == s[..j] && (forall k | j <= k < |s| :: s[k] == '_') && (j > 0 ==> s[j - 1] != '_')
  {
    j := |s|;
    if s != "" && s[|s| - 1] == '_' {
      j := TrimmedCuts(s[..|s| - 1]);
      assert s[..|s| - 1][..j] == s[..j];
    }
  }

  /** The text from its first letter on, without the underscores at its end. */
  predicate Cut(collapsed: string, from: nat, to: nat)
  {
    && from <= to <= |collapsed|
    && (forall k | 0 <= k < from :: !Letter(collapsed[k])) && (from < |collapsed| ==> Letter(collapsed[from]))
    && (forall k | to <= k < |collapsed| :: collapsed[k] == '_') && (from < to ==> collapsed[to - 1] != '_')
  }

  /**
   * What is kept of the text typed: its letters, digits and underscores in order and one
   * underscore for each run of anything else, of that what stands from the first letter on
   * up to the underscores at the end, and a q if that is nothing.
   */
  lemma CleanedExactly(lowered: string) returns (collapsed: string, at: seq<nat>, from: nat, to: nat)
    ensures CollapsedAt(lowered, collapsed, at) && Cut(collapsed, from, to)
    ensures Cleaned(lowered) == if from == to then "q" else collapsed[from..to]
  {
    hide CollapsedAt, Collapse, FromLetter, Trimmed, Cut;
    collapsed := Collapse(lowered);
    at := CollapseExactly(lowered);
    from := FromLetterCuts(collapsed);
    var length := TrimmedCuts(collapsed[from..]);
    CutThere(collapsed, from, length);
    to := from + length;
    assert Cleaned(lowered) == if collapsed[from..][..length] == "" then "q" else collapsed[from..][..length];
  }

  lemma CutThere(s: string, from: nat, length: nat)
    requires from <= |s| && length <= |s| - from
    requires (forall k | 0 <= k < from :: !Letter(s[k])) && (from < |s| ==> Letter(s[from]))
    requires (forall k | length <= k < |s| - from :: s[from..][k] == '_') && (length > 0 ==> s[from..][length - 1] != '_')
    ensures Cut(s, from, from + length) && s[from..][..length] == s[from..from + length]
  {
    forall k | from + length <= k < |s| ensures s[k] == '_' {
      assert s[k] == s[from..][k - from];
    }
  }

  // -------------------------------------------------------------- numbering

  function Digit(d: nat): (c: char)
    requires d < 10
    ensures '0' <= c <= '9'
  {
    '0' + d as char
  }

  function Decimal(n: nat): (s: string)
    ensures s != "" && forall i | 0 <= i < |s| :: '0' <= s[i] <= '9'
  {
    if n < 10 then [Digit(n)] else Decimal(n / 10) + [Digit(n % 10)]
  }

  /** What a row of decimal digits stands for. */
  function Value(digits: string): nat
    requires forall i | 0 <= i < |digits| :: '0' <= digits[i] <= '9'
  {
    if digits == "" then 0 else 10 * Value(digits[..|digits| - 1]) + (digits[|digits| - 1] - '0') as nat
  }

  lemma {:induction false} DecimalReadsBack(n: nat)
    ensures Value(Decimal(n)) == n && (n > 0 ==> Decimal(n)[0] != '0') && (n == 0 ==> Decimal(n) == "0")
  {
    var digits := Decimal(n);
    if n < 10 {
      assert digits[..0] == "" && Value("") == 0;
    } else {
      DecimalReadsBack(n / 10);
      assert digits[..|digits| - 1] == Decimal(n / 10);
      assert digits[0] == Decimal(n / 10)[0];
    }
  }

  lemma DecimalsDiffer(a: nat, b: nat)
    requires a != b
    ensures Decimal(a) != Decimal(b)
  {
    DecimalReadsBack(a);
    DecimalReadsBack(b);
  }

  function Numbered(cleaned: string, n: nat): string { cleaned + "_" + Decimal(n) }

  lemma NumbersDiffer(cleaned: string, a: nat, b: nat)
    requires a != b
    ensures Numbered(cleaned, a) != Numbered(cleaned, b)
  {
    DecimalsDiffer(a, b);
    assert Numbered(cleaned, a)[|cleaned| + 1..] == Decimal(a);
    assert Numbered(cleaned, b)[|cleaned| + 1..] == Decimal(b);
  }

  /** The pigeonhole: a taken text and its numbers two to n - 1, all taken, are n - 1 ids. */
  lemma {:induction false} TakenAreMany(cleaned: string, n: nat, taken: set<string>)
    requires n >= 2 && cleaned in taken && forall k | 2 <= k < n :: Numbered(cleaned, k) in taken
    ensures n - 1 <= |taken|
    decreases n
  {
    if n > 2 {
      var last := Numbered(cleaned, n - 1);
      forall k | 2 <= k < n - 1 ensures Numbered(cleaned, k) in taken - {last} {
        NumbersDiffer(cleaned, k, n - 1);
      }
      TakenAreMany(cleaned, n - 1, taken - {last});
    } else {
      assert {cleaned} <= taken;
      assert taken == {cleaned} + (taken - {cleaned});
    }
  }

  /** The first free id: the cleaned text, or else its lowest free number. */
  ghost predicate FirstFree(id: string, cleaned: string, taken: set<string>)
  {
    if cleaned !in taken then id == cleaned
    else exists n | 2 <= n <= |taken| + 1 ::
           id == Numbered(cleaned, n) && forall k | 2 <= k < n :: Numbered(cleaned, k) in taken
  }

  /** `uniqueId`: it ends, with an identifier that the form does not have. */
  method Unique(children: seq<Node>, typed: string, lower: string -> string) returns (id: string)
    ensures IsId(id) && id !in IdSet(children)
    ensures FirstFree(id, Cleaned(lower(typed)), IdSet(children))
  {
    var cleaned := Cleaned(lower(typed));
    CleanedIsId(lower(typed));
    var taken := IdSet(children);
    if cleaned !in taken { return cleaned; }
    var n := 2;
    id := Numbered(cleaned, n);
    while id in taken
      invariant n >= 2 && id == Numbered(cleaned, n) && IsId(id)
      invariant forall k | 2 <= k < n :: Numbered(cleaned, k) in taken
      decreases |taken| + 1 - n
    {
      TakenAreMany(cleaned, n + 1, taken);
      n := n + 1;
      id := Numbered(cleaned, n);
    }
    TakenAreMany(cleaned, n, taken);
  }
}
