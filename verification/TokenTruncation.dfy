/** Lexing text into words or approximate tokens, printing tokens back, and truncating to
    a budget of units. */
module TokenTruncation {
  import opened Sequences

  /** What the regular expressions see of a character: \w, \s or neither. */
  datatype CharClass = Word | Space | Other

  type Classifier = char -> CharClass

  /** Number of leading word characters. */
  function WordRun(cls: Classifier, s: string): (n: nat)
    ensures n <= |s|
    ensures forall i :: 0 <= i < n ==> cls(s[i]).Word?
    ensures n < |s| ==> !cls(s[n]).Word?
  {
    if s == "" || !cls(s[0]).Word? then 0 else 1 + WordRun(cls, s[1..])
  }

  /** All matches of `\w+|[^\w\s]`, left to right. */
  function Lex(cls: Classifier, s: string): seq<string>
    decreases |s|
  {
    if s == "" then []
    else
      match cls(s[0])
      case Space => Lex(cls, s[1..])
      case Other => [s[..1]] + Lex(cls, s[1..])
      case Word =>
        var n := WordRun(cls, s);
        [s[..n]] + Lex(cls, s[n..])
  }

  /** str.split() is the same lexer when only spaces separate. */
  function WordsOnly(cls: Classifier): Classifier {
    c => if cls(c).Space? then Space else Word
  }

  predicate StartsOutsideWord(cls: Classifier, tok: string) {
    tok != "" && !cls(tok[0]).Word?
  }

  function Rejoin(cls: Classifier, tokens: seq<string>): string {
    if tokens == [] then ""
    else if |tokens| == 1 then tokens[0]
    else
      var n := |tokens| - 1;
      Rejoin(cls, tokens[..n]) + (if StartsOutsideWord(cls, tokens[n]) then tokens[n] else " " + tokens[n])
  }

  function Concat(parts: seq<string>): string {
    if parts == [] then "" else Concat(parts[..|parts| - 1]) + parts[|parts| - 1]
  }

  /** The append loop of _rejoin_tokens and its final join. */
  method RejoinTokens(cls: Classifier, tokens: seq<string>) returns (text: string)
    ensures text == Rejoin(cls, tokens)
  {
    var result: seq<string> := [];
    for i := 0 to |tokens|
      invariant Concat(result) == Rejoin(cls, tokens[..i])
      invariant |result| == i
    {
      assert tokens[..i + 1][..i] == tokens[..i];
      var tok := tokens[i];
      var piece := if i == 0 || StartsOutsideWord(cls, tok) then tok else " " + tok;
      assert (result + [piece])[..i] == result;
      result := result + [piece];
    }
    assert tokens[..|tokens|] == tokens;
    text := Concat(result);
  }

  /** `sep.join(words)` for a blank separator. */
  function Join(words: seq<string>): string {
    if words == [] then "" else if |words| == 1 then words[0]
    else Join(words[..|words| - 1]) + " " + words[|words| - 1]
  }

  // ---------------------------------------------------------------------------
  // Lexing undoes printing
  // ---------------------------------------------------------------------------

  ghost predicate Sane(cls: Classifier) { cls(' ').Space? }

  ghost predicate IsToken(cls: Classifier, t: string) {
    (|t| == 1 && cls(t[0]).Other?) || (t != "" && forall i :: 0 <= i < |t| ==> cls(t[i]).Word?)
  }

  ghost predicate AreTokens(cls: Classifier, ts: seq<string>) {
    forall i :: 0 <= i < |ts| ==> IsToken(cls, ts[i])
  }

  lemma {:induction false} LexYieldsTokens(cls: Classifier, s: string)
    ensures AreTokens(cls, Lex(cls, s))
    decreases |s|
  {
    if s != "" {
      match cls(s[0])
      case Space => LexYieldsTokens(cls, s[1..]);
      case Other => LexYieldsTokens(cls, s[1..]);
      case Word => LexYieldsTokens(cls, s[WordRun(cls, s)..]);
    }
  }

  /** No token spans the place where the two texts meet. */
  ghost predicate Separable(cls: Classifier, a: string, b: string) {
    a == "" || b == "" || !cls(a[|a| - 1]).Word? || !cls(b[0]).Word?
  }

  lemma {:induction false} WordRunExtends(cls: Classifier, a: string, b: string)
    requires a != "" && Separable(cls, a, b)
    ensures WordRun(cls, a + b) == WordRun(cls, a)
  {
    assert (a + b)[0] == a[0];
    if cls(a[0]).Word? {
      if |a| > 1 {
        assert (a + b)[1..] == a[1..] + b;
        WordRunExtends(cls, a[1..], b);
      } else {
        assert (a + b)[1..] == b;
      }
    }
  }

  lemma LexSkip(cls: Classifier, s: string)
    requires s != "" && !cls(s[0]).Word?
    ensures Lex(cls, s) == (if cls(s[0]).Other? then [s[..1]] else []) + Lex(cls, s[1..])
  {
  }

  lemma LexWord(cls: Classifier, s: string, n: nat)
    requires s != "" && cls(s[0]).Word? && n == WordRun(cls, s)
    ensures 0 < n <= |s| && Lex(cls, s) == [s[..n]] + Lex(cls, s[n..])
  {
  }

  lemma LexConcatWord(cls: Classifier, a: string, b: string)
    requires a != "" && cls(a[0]).Word? && Separable(cls, a, b)
    ensures var n := WordRun(cls, a);
            n > 0
            && (Lex(cls, a[n..] + b) == Lex(cls, a[n..]) + Lex(cls, b) ==> Lex(cls, a + b) == Lex(cls, a) + Lex(cls, b))
  {
    hide Lex;
    var n := WordRun(cls, a);
    WordRunExtends(cls, a, b);
    assert (a + b)[0] == a[0];
    LexWord(cls, a, n);
    LexWord(cls, a + b, n);
    assert (a + b)[..n] == a[..n] && (a + b)[n..] == a[n..] + b;
  }

  lemma LexConcatSkip(cls: Classifier, a: string, b: string)
    requires a != "" && !cls(a[0]).Word?
    requires Lex(cls, a[1..] + b) == Lex(cls, a[1..]) + Lex(cls, b)
    ensures Lex(cls, a + b) == Lex(cls, a) + Lex(cls, b)
  {
    hide Lex;
    assert (a + b)[0] == a[0];
    LexSkip(cls, a);
    LexSkip(cls, a + b);
    assert (a + b)[..1] == a[..1] && (a + b)[1..] == a[1..] + b;
  }

  /** Where no token spans the seam, lexing distributes over concatenation. */
  lemma {:induction false} LexConcat(cls: Classifier, a: string, b: string)
    requires Separable(cls, a, b)
    ensures Lex(cls, a + b) == Lex(cls, a) + Lex(cls, b)
    decreases |a|
  {
    if a == "" {
      assert a + b == b;
    } else if cls(a[0]).Word? {
      LexConcatWord(cls, a, b);
      LexConcat(cls, a[WordRun(cls, a)..], b);
    } else {
      LexConcat(cls, a[1..], b);
      LexConcatSkip(cls, a, b);
    }
  }

  lemma LexToken(cls: Classifier, t: string)
    requires IsToken(cls, t)
    ensures Lex(cls, t) == [t]
  {
    if cls(t[0]).Word? {
      assert WordRun(cls, t) == |t|;
      assert t[..|t|] == t && t[|t|..] == "";
    } else {
      assert t[..1] == t && t[1..] == "";
    }
  }

  lemma LexSpaced(cls: Classifier, a: string, b: string)
    requires Sane(cls)
    ensures Lex(cls, a + (" " + b)) == Lex(cls, a) + Lex(cls, b)
  {
    LexConcat(cls, a, " " + b);
    assert (" " + b)[1..] == b;
  }

  /** Lexing a printed token list gives the list back. */
  lemma {:induction false} LexUndoesRejoin(cls: Classifier, tokens: seq<string>)
    requires Sane(cls) && AreTokens(cls, tokens)
    ensures Lex(cls, Rejoin(cls, tokens)) == tokens
  {
    if tokens != [] {
      var n := |tokens| - 1;
      var last := tokens[n];
      LexToken(cls, last);
      assert tokens == tokens[..n] + [last];
      if n > 0 {
        LexUndoesRejoin(cls, tokens[..n]);
        if StartsOutsideWord(cls, last) {
          LexConcat(cls, Rejoin(cls, tokens[..n]), last);
        } else {
          LexSpaced(cls, Rejoin(cls, tokens[..n]), last);
        }
      }
    }
  }

  /** Words contain no space, so joining with blanks prints like rejoining. */
  lemma {:induction false} JoinIsRejoin(cls: Classifier, words: seq<string>)
    requires AreTokens(WordsOnly(cls), words)
    ensures Join(words) == Rejoin(WordsOnly(cls), words)
  {
    if |words| > 1 {
      var n := |words| - 1;
      JoinIsRejoin(cls, words[..n]);
      assert !StartsOutsideWord(WordsOnly(cls), words[n]);
      assert Join(words[..n]) + " " + words[n] == Join(words[..n]) + (" " + words[n]);
    }
  }

  lemma SplitUndoesJoin(cls: Classifier, words: seq<string>)
    requires Sane(cls) && AreTokens(WordsOnly(cls), words)
    ensures Lex(WordsOnly(cls), Join(words)) == words
  {
    JoinIsRejoin(cls, words);
    LexUndoesRejoin(WordsOnly(cls), words);
  }

  // ---------------------------------------------------------------------------
  // truncate_text
  // ---------------------------------------------------------------------------

  datatype Unit = Chars | Words | Tokens | UnknownUnit(name: string)

  /** The units of a text; characters are units of length one. */
  function Units(cls: Classifier, unit: Unit, text: string): seq<string>
    requires !unit.UnknownUnit?
  {
    match unit
    case Chars => seq(|text|, i requires 0 <= i < |text| => [text[i]])
    case Words => Lex(WordsOnly(cls), text)
    case Tokens => Lex(cls, text)
  }

  function TruncateText(cls: Classifier, text: string, maxLength: int, marker: string, unit: Unit): Result<string> {
    if maxLength <= 0 then Err("max_length must be > 0")
    else if maxLength < |marker| then Err("max_length is too small to fit the truncation_marker")
    else
      match unit
      case Chars =>
        if |text| <= maxLength then Ok(text) else Ok(text[..maxLength - |marker|] + marker)
      case Words =>
        var words := Lex(WordsOnly(cls), text);
        if |words| <= maxLength then Ok(text)
        else
          var truncated := Join(words[..maxLength - (if marker != "" then 1 else 0)]);
          Ok(truncated + (if marker != "" then " " + marker else ""))
      case Tokens =>
        var tokens := Lex(cls, text);
        if |tokens| <= maxLength then Ok(text)
        else
          var budget := maxLength - (if marker != "" then 1 else 0);
          Ok(Rejoin(cls, tokens[..budget]) + (if marker != "" then " " + marker else ""))
      case UnknownUnit(_) => Err("Unknown unit")
  }

  /** The call fails exactly for a non-positive or marker-sized-out budget or an unknown
      unit. */
  lemma TruncationFailsExactly(cls: Classifier, text: string, maxLength: int, marker: string, unit: Unit)
    ensures TruncateText(cls, text, maxLength, marker, unit).Err?
            <==> maxLength <= 0 || maxLength < |marker| || unit.UnknownUnit?
  {
  }

  /** How many units of the original a cut text keeps. */
  function Budget(maxLength: int, marker: string, unit: Unit): int {
    if unit.Chars? then maxLength - |marker| else if marker != "" then maxLength - 1 else maxLength
  }

  /** A cut text consists of the first units of the original followed by the units of the
      marker, in every unit. */
  lemma CutKeepsPrefix(cls: Classifier, text: string, maxLength: int, marker: string, unit: Unit)
    requires Sane(cls) && !unit.UnknownUnit? && 0 < maxLength && |marker| <= maxLength
    requires |Units(cls, unit, text)| > maxLength
    ensures Units(cls, unit, TruncateText(cls, text, maxLength, marker, unit).value)
            == Units(cls, unit, text)[..Budget(maxLength, marker, unit)] + Units(cls, unit, marker)
  {
    hide Lex, Rejoin, Join;
    var budget := Budget(maxLength, marker, unit);
    match unit
    case Chars => CharsCut(cls, text, maxLength, marker);
    case Words =>
      var kept := Lex(WordsOnly(cls), text)[..budget];
      LexYieldsTokens(WordsOnly(cls), text);
      SplitUndoesJoin(cls, kept);
      MarkerFollows(WordsOnly(cls), Join(kept), marker);
    case Tokens =>
      var kept := Lex(cls, text)[..budget];
      LexYieldsTokens(cls, text);
      LexUndoesRejoin(cls, kept);
      MarkerFollows(cls, Rejoin(cls, kept), marker);
  }

  lemma CharsCut(cls: Classifier, text: string, maxLength: int, marker: string)
    requires |marker| <= maxLength < |text|
    ensures Units(cls, Chars, text[..maxLength - |marker|] + marker)
            == Units(cls, Chars, text)[..maxLength - |marker|] + Units(cls, Chars, marker)
  {
  }

  lemma MarkerFollows(cls: Classifier, text: string, marker: string)
    requires Sane(cls)
    ensures Lex(cls, text + (if marker != "" then " " + marker else "")) == Lex(cls, text) + Lex(cls, marker)
  {
    if marker != "" {
      LexSpaced(cls, text, marker);
    } else {
      assert text + "" == text;
    }
  }

  /** The result fits the budget exactly when nothing had to be cut or the marker is at
      most one unit long (in characters it always fits). */
  lemma TruncationFitsExactly(cls: Classifier, text: string, maxLength: int, marker: string, unit: Unit)
    requires Sane(cls) && !unit.UnknownUnit? && 0 < maxLength && |marker| <= maxLength
    ensures |Units(cls, unit, TruncateText(cls, text, maxLength, marker, unit).value)| <= maxLength
            <==> |Units(cls, unit, text)| <= maxLength || unit.Chars? || |Units(cls, unit, marker)| <= 1
  {
    hide Rejoin, Join;
    if |Units(cls, unit, text)| > maxLength {
      CutKeepsPrefix(cls, text, maxLength, marker, unit);
      if marker == "" { assert Units(cls, unit, marker) == []; }
    }
  }

  /** A budget of three tokens and the marker "...": the cut text has five. */
  lemma LongMarkerOverflows(cls: Classifier)
    requires Sane(cls) && cls('a').Word? && cls('.').Other?
    ensures Lex(cls, TruncateText(cls, "a a a a", 3, "...", Tokens).value) == ["a", "a", ".", ".", "."]
  {
    FourWords(cls);
    ThreeDots(cls);
    CutToThree(cls, "a a a a", "...");
  }

  lemma CutToThree(cls: Classifier, text: string, marker: string)
    requires Sane(cls) && |marker| == 3 && |Lex(cls, text)| == 4
    ensures TruncateText(cls, text, 3, marker, Tokens).Ok?
    ensures Lex(cls, TruncateText(cls, text, 3, marker, Tokens).value) == Lex(cls, text)[..2] + Lex(cls, marker)
  {
    hide Lex, Rejoin;
    CutKeepsPrefix(cls, text, 3, marker, Tokens);
  }

  lemma FourWords(cls: Classifier)
    requires Sane(cls) && cls('a').Word?
    ensures Lex(cls, "a a a a") == ["a", "a", "a", "a"]
  {
    var one, two, three, four := ["a"], ["a", "a"], ["a", "a", "a"], ["a", "a", "a", "a"];
    assert two[..1] == one && three[..2] == two && four[..3] == three;
    assert Rejoin(cls, two) == "a a";
    assert Rejoin(cls, three) == "a a a";
    assert Rejoin(cls, four) == "a a a a";
    hide Rejoin, Lex;
    LexUndoesRejoin(cls, four);
  }

  lemma ThreeDots(cls: Classifier)
    requires cls('.').Other?
    ensures Lex(cls, "...") == [".", ".", "."]
  {
    assert "..."[1..] == ".." && ".."[1..] == "." && "."[1..] == "";
    assert "..."[..1] == "." && ".."[..1] == "." && "."[..1] == ".";
    assert Lex(cls, ".") == ["."];
    assert Lex(cls, "..") == [".", "."];
  }

  /** Truncating a truncated text changes nothing, for every unit and every marker, also
      for markers of several units. */
  lemma TruncationIdempotent(cls: Classifier, text: string, maxLength: int, marker: string, unit: Unit)
    requires Sane(cls) && !unit.UnknownUnit? && 0 < maxLength && |marker| <= maxLength
    ensures var once := TruncateText(cls, text, maxLength, marker, unit);
            TruncateText(cls, once.value, maxLength, marker, unit) == once
  {
    hide Rejoin, Join, Lex;
    var once := TruncateText(cls, text, maxLength, marker, unit).value;
    if |Units(cls, unit, text)| > maxLength {
      CutKeepsPrefix(cls, text, maxLength, marker, unit);
      var budget := Budget(maxLength, marker, unit);
      if |Units(cls, unit, once)| > maxLength {
        assert Units(cls, unit, once)[..budget] == Units(cls, unit, text)[..budget];
      }
    }
  }

  /** A text that fits its budget is returned as it is, in every unit. */
  lemma ShortTextStays(cls: Classifier, text: string, maxLength: int, marker: string, unit: Unit)
    requires !unit.UnknownUnit? && 0 < maxLength && |marker| <= maxLength
    requires |Units(cls, unit, text)| <= maxLength
    ensures TruncateText(cls, text, maxLength, marker, unit) == Ok(text)
  {
  }

  /** The words or tokens as printed. */
  function Print(cls: Classifier, unit: Unit, units: seq<string>): string {
    if unit.Words? then Join(units) else Rejoin(cls, units)
  }

  /** The result is the text itself exactly when it fits or is what the cut prints, namely
      its own first units, a blank and the marker; the latter needs a marker of several
      units. A text cut by characters always changes. */
  lemma TextStaysExactly(cls: Classifier, text: string, maxLength: int, marker: string, unit: Unit)
    requires Sane(cls) && !unit.UnknownUnit? && 0 < maxLength && |marker| <= maxLength
    ensures TruncateText(cls, text, maxLength, marker, unit) == Ok(text)
            <==> |Units(cls, unit, text)| <= maxLength
                 || (!unit.Chars? && |Units(cls, unit, marker)| >= 2
                     && text == Print(cls, unit, Units(cls, unit, text)[..maxLength - 1]) + (" " + marker))
  {
    hide Lex, Join, Rejoin;
    if |Units(cls, unit, text)| > maxLength {
      CutKeepsPrefix(cls, text, maxLength, marker, unit);
      if marker == "" { NoUnits(cls, unit); }
      CutIs(cls, text, maxLength, marker, unit);
    } else {
      ShortTextStays(cls, text, maxLength, marker, unit);
    }
  }

  lemma NoUnits(cls: Classifier, unit: Unit)
    requires !unit.UnknownUnit?
    ensures Units(cls, unit, "") == []
  {
  }

  /** The cut text, written out. */
  lemma CutIs(cls: Classifier, text: string, maxLength: int, marker: string, unit: Unit)
    requires !unit.UnknownUnit? && 0 < maxLength && |marker| <= maxLength < |Units(cls, unit, text)|
    ensures TruncateText(cls, text, maxLength, marker, unit)
            == Ok(if unit.Chars? then text[..maxLength - |marker|] + marker
                  else if marker == "" then Print(cls, unit, Units(cls, unit, text)[..maxLength])
                  else Print(cls, unit, Units(cls, unit, text)[..maxLength - 1]) + (" " + marker))
  {
    hide Lex, Join, Rejoin;
    if marker == "" && !unit.Chars? {
      var printed := Print(cls, unit, Units(cls, unit, text)[..maxLength]);
      assert printed + "" == printed;
    }
  }

  // ---------------------------------------------------------------------------
  // Where printing puts blanks
  // ---------------------------------------------------------------------------

  /** Blanks are the only white space; they are single, stand inside the text and directly
      before a word; and every word but the first follows one. */
  ghost predicate BlanksBeforeWords(cls: Classifier, s: string) {
    forall i :: 0 <= i < |s| ==> BlankAt(cls, s, i)
  }

  ghost predicate BlankAt(cls: Classifier, s: string, i: int)
    requires 0 <= i < |s|
  {
    && (cls(s[i]).Space? ==> s[i] == ' ')
    && (s[i] == ' ' ==> 0 < i < |s| - 1 && s[i - 1] != ' ' && cls(s[i + 1]).Word?)
    && (cls(s[i]).Word? && i > 0 && !cls(s[i - 1]).Word? ==> s[i - 1] == ' ')
  }

  lemma TokenHasNoBlank(cls: Classifier, t: string)
    requires Sane(cls) && IsToken(cls, t)
    ensures t != "" && forall i :: 0 <= i < |t| ==> t[i] != ' ' && (cls(t[i]).Word? <==> cls(t[0]).Word?)
    ensures BlanksBeforeWords(cls, t)
  {
  }

  lemma BlanksAppend(cls: Classifier, s: string, t: string)
    requires Sane(cls) && IsToken(cls, t) && BlanksBeforeWords(cls, s) && s != "" && s[|s| - 1] != ' '
    ensures var all := s + (if StartsOutsideWord(cls, t) then t else " " + t);
            BlanksBeforeWords(cls, all) && all != "" && all[|all| - 1] != ' '
  {
    TokenHasNoBlank(cls, t);
    var all := s + (if StartsOutsideWord(cls, t) then t else " " + t);
    var start := |all| - |t|;
    assert all[start..] == t && all[..|s|] == s;
    forall i | 0 <= i < |all| ensures BlankAt(cls, all, i) {
      if i < |s| {
        assert BlankAt(cls, s, i);
        assert all[i] == s[i] && (i > 0 ==> all[i - 1] == s[i - 1]) && (i < |s| - 1 ==> all[i + 1] == s[i + 1]);
      } else if i >= start {
        assert all[i] == t[i - start] != ' ' && BlankAt(cls, t, i - start);
        if i > start { assert all[i - 1] == t[i - 1 - start]; }
      } else {
        assert all[i] == ' ' && all[i + 1] == t[0] && all[i - 1] == s[|s| - 1];
      }
    }
  }

  /** In a printed token list blanks are exactly the gaps before words. With LexUndoesRejoin
      this determines the text. */
  lemma {:induction false} RejoinBlanks(cls: Classifier, tokens: seq<string>)
    requires Sane(cls) && AreTokens(cls, tokens)
    ensures BlanksBeforeWords(cls, Rejoin(cls, tokens))
    ensures tokens != [] ==> Rejoin(cls, tokens) != "" && Rejoin(cls, tokens)[|Rejoin(cls, tokens)| - 1] != ' '
  {
    if tokens != [] {
      var n := |tokens| - 1;
      TokenHasNoBlank(cls, tokens[n]);
      if n > 0 {
        hide BlanksBeforeWords;
        RejoinBlanks(cls, tokens[..n]);
        BlanksAppend(cls, Rejoin(cls, tokens[..n]), tokens[n]);
      }
    }
  }

  /** Words joined by blanks: single blanks, none at the ends. */
  lemma JoinBlanks(cls: Classifier, words: seq<string>)
    requires Sane(cls) && AreTokens(WordsOnly(cls), words)
    ensures forall i :: 0 <= i < |Join(words)| && Join(words)[i] == ' ' ==>
              0 < i < |Join(words)| - 1 && Join(words)[i - 1] != ' ' && Join(words)[i + 1] != ' '
  {
    JoinIsRejoin(cls, words);
    RejoinBlanks(WordsOnly(cls), words);
    assert forall i :: 0 <= i < |Join(words)| ==> BlankAt(WordsOnly(cls), Join(words), i);
  }
}
