/** The tokenizer against a table: which texts are which tokens, where each ends, and after which
    tokens a value is expected, with every character and every token written out. */
module LexerLaws {
  import opened Common
  import opened Characters
  import opened Lexer

  // ----- characters

  ghost predicate EndsNumber(c: char) {
    c in {'(', ')', '[', ']', ',', '!', '<', '>', '=', '&', '|'} || Blank(c)
  }

  ghost predicate InWord(c: char) {
    Letter(c) || Digit(c) || c == '_' || c == '-'
  }

  lemma MoreClasses(c: char)
    ensures IsNumberBoundary(c) <==> EndsNumber(c)
    ensures IsIdentContinue(c) <==> InWord(c)
    ensures IsIdentStart(c) <==> Letter(c) || c == '_'
  {
    hide IsDigit, IsLetter, IsWhitespace, Digit, Letter, Blank;
    Classes(c);
  }

  // ----- tokens

  /** A value, rather than an operator, is expected at the start and after twelve tokens. */
  ghost predicate ExpectsValue(prev: Option<Tok>) {
    || prev == None
    || prev in {Some(LParen), Some(LBracket), Some(Comma), Some(Not), Some(AndAnd), Some(OrOr)}
    || prev in {Some(EqEq), Some(NotEq), Some(Lt), Some(Le), Some(Gt), Some(Ge)}
  }

  /** The first `n` characters of `s` are `text`, and `c` does not come next. */
  ghost predicate Reads(s: string, n: nat, text: string, c: char) {
    n == |text| && text <= s && (n < |s| ==> s[n] != c)
  }

  ghost predicate WordEnds(s: string, n: nat) {
    0 < n <= |s| && (n < |s| ==> !InWord(s[n]))
  }

  ghost predicate IsKeyword(text: string) {
    text == "null" || text == "true" || text == "false" || text == "NaN" || text == "Infinity"
  }

  ghost predicate KeywordAt(prev: Option<Tok>, s: string, n: nat, text: string) {
    n == |text| && text <= s && WordEnds(s, n) && prev != Some(Dot)
  }

  ghost predicate NumberAt(rule: NumberRule, prev: Option<Tok>, s: string, n: nat) {
    && 0 < n <= |s|
    && (Digit(s[0]) || (s[0] in {'+', '-', '.'} && ExpectsValue(prev)))
    && (forall i :: 1 <= i < n ==> !EndsNumber(s[i]))
    && (n < |s| ==> EndsNumber(s[n]))
    && rule(s[..n])
  }

  ghost predicate WordAt(s: string, n: nat) {
    && WordEnds(s, n)
    && (Letter(s[0]) || s[0] == '_')
    && forall i :: 1 <= i < n ==> InWord(s[i])
  }

  /** In quotes, two quotes stand for one. */
  ghost function Doubled(v: string): string {
    if v == "" then "" else (if v[0] == '\'' then ['\'', '\''] else [v[0]]) + Doubled(v[1..])
  }

  /** The token `t` stands at the front of `s`, `n` characters long, after the token `prev`. */
  ghost predicate TokenAt(rule: NumberRule, prev: Option<Tok>, s: string, t: Tok, n: nat) {
    match t
    case LParen => n == 1 && "(" <= s
    case RParen => n == 1 && ")" <= s
    case LBracket => n == 1 && "[" <= s
    case RBracket => n == 1 && "]" <= s
    case Comma => n == 1 && "," <= s
    case Dot => n == 1 && "." <= s && !ExpectsValue(prev)
    case Star => n == 1 && "*" <= s
    case Not => Reads(s, n, "!", '=')
    case EqEq => n == 2 && "==" <= s
    case NotEq => n == 2 && "!=" <= s
    case Lt => Reads(s, n, "<", '=')
    case Le => n == 2 && "<=" <= s
    case Gt => Reads(s, n, ">", '=')
    case Ge => n == 2 && ">=" <= s
    case AndAnd => n == 2 && "&&" <= s
    case OrOr => n == 2 && "||" <= s
    case Null => KeywordAt(prev, s, n, "null")
    case True => KeywordAt(prev, s, n, "true")
    case False => KeywordAt(prev, s, n, "false")
    case Number(text) =>
      n <= |s| && text == s[..n]
      && (NumberAt(rule, prev, s, n) || KeywordAt(prev, s, n, "NaN") || KeywordAt(prev, s, n, "Infinity"))
    case Str(v) => Reads(s, n, ['\''] + Doubled(v) + ['\''], '\'')
    case Ident(name) =>
      WordAt(s, n) && name == s[..n] && (prev == Some(Dot) || !IsKeyword(name))
  }

  lemma ExpectsValueIs(prev: Option<Tok>)
    ensures IsValuePosition(prev) <==> ExpectsValue(prev)
  {
  }

  lemma {:induction false} DoubledIs(v: string)
    ensures DoubleQuotes(v) == Doubled(v)
  {
    if v != "" {
      DoubledIs(v[1..]);
    }
  }

  lemma {:induction false} NumberRunMeans(s: string)
    ensures NumberRun(s) == |s| <==> forall i :: 0 <= i < |s| ==> !EndsNumber(s[i])
    decreases |s|
  {
    hide EndsNumber, IsNumberBoundary;
    if s != "" {
      MoreClasses(s[0]);
      NumberRunMeans(s[1..]);
      assert forall i :: 1 <= i < |s| ==> s[i] == s[1..][i - 1];
    }
  }

  lemma {:induction false} IdentRunMeans(s: string)
    ensures IdentRun(s) == |s| <==> forall i :: 0 <= i < |s| ==> InWord(s[i])
    decreases |s|
  {
    hide InWord, IsIdentContinue;
    if s != "" {
      MoreClasses(s[0]);
      IdentRunMeans(s[1..]);
      assert forall i :: 1 <= i < |s| ==> s[i] == s[1..][i - 1];
    }
  }

  /** Being read in terms of the printed text: what `TokenAt` says case by case. */
  ghost predicate Fits(rule: NumberRule, prev: Option<Tok>, s: string, t: Tok, n: nat) {
    n <= |s| && s[..n] == PrintTok(t) && CanFollow(rule, prev, t) && Apart(t, s[n..])
  }

  lemma PunctuationTable(rule: NumberRule, prev: Option<Tok>, s: string, t: Tok, n: nat)
    requires !t.Number? && !t.Str? && !t.Ident? && !t.Null? && !t.True? && !t.False?
    ensures TokenAt(rule, prev, s, t, n) <==> Fits(rule, prev, s, t, n)
  {
    hide IsNumberBoundary, IsIdentContinue;
    ExpectsValueIs(prev);
    if n <= |s| {
      assert s[..n] <= s;
    }
  }

  lemma WordAtEnd(s: string, n: nat)
    requires 0 < n <= |s|
    ensures WordEnds(s, n) <==> s[n..] == "" || !IsIdentContinue(s[n..][0])
  {
    hide InWord, IsIdentContinue;
    if n < |s| {
      MoreClasses(s[n]);
    }
  }

  lemma KeywordTable(rule: NumberRule, prev: Option<Tok>, s: string, t: Tok, n: nat)
    requires t.Null? || t.True? || t.False?
    ensures TokenAt(rule, prev, s, t, n) <==> Fits(rule, prev, s, t, n)
  {
    hide IsIdentContinue, WordEnds;
    if 0 < n <= |s| {
      WordAtEnd(s, n);
      assert s[..n] <= s;
    }
  }

  lemma StringTable(rule: NumberRule, prev: Option<Tok>, s: string, v: string, n: nat)
    ensures TokenAt(rule, prev, s, Str(v), n) <==> Fits(rule, prev, s, Str(v), n)
  {
    hide DoubleQuotes, Doubled;
    DoubledIs(v);
    if n <= |s| {
      assert s[..n] <= s;
    }
  }

  lemma WordTable(s: string, n: nat)
    requires 0 < n <= |s|
    ensures WordAt(s, n) <==> IsWord(s[..n]) && (s[n..] == "" || !IsIdentContinue(s[n..][0]))
  {
    hide IsIdentStart, IsIdentContinue, Letter, InWord, IdentRun, WordEnds;
    var text := s[..n];
    MoreClasses(s[0]);
    WordAtEnd(s, n);
    IdentRunMeans(text[1..]);
    assert forall i :: 1 <= i < n ==> s[i] == text[1..][i - 1];
    assert forall i :: 0 <= i < n - 1 ==> text[1..][i] == s[i + 1];
  }

  lemma IdentTable(rule: NumberRule, prev: Option<Tok>, s: string, name: string, n: nat)
    ensures TokenAt(rule, prev, s, Ident(name), n) <==> Fits(rule, prev, s, Ident(name), n)
  {
    hide WordAt, IsWord, IsIdentContinue;
    if 0 < n <= |s| {
      WordTable(s, n);
    }
    WordsHaveLetters(s, n);
    assert n == 0 ==> s[..n] == "";
  }

  lemma WordsHaveLetters(s: string, n: nat)
    ensures WordAt(s, n) ==> 0 < n <= |s|
    ensures !IsWord("")
  {
  }

  lemma NumberTable(rule: NumberRule, prev: Option<Tok>, s: string, n: nat)
    requires 0 < n <= |s| && !IsIdentStart(s[0])
    ensures var text := s[..n];
            NumberAt(rule, prev, s, n) <==>
              && StartsNumber(text[0], prev) && NumberRun(text[1..]) == |text| - 1 && rule(text)
              && (s[n..] == "" || IsNumberBoundary(s[n..][0]))
  {
    hide Digit, IsDigit, EndsNumber, IsNumberBoundary, NumberRun, ExpectsValue, IsValuePosition;
    var text := s[..n];
    Classes(s[0]);
    ExpectsValueIs(prev);
    NumberRunMeans(text[1..]);
    assert forall i :: 1 <= i < n ==> s[i] == text[1..][i - 1];
    assert forall i :: 0 <= i < n - 1 ==> text[1..][i] == s[i + 1];
    if n < |s| {
      MoreClasses(s[n]);
    }
  }

  lemma NumberTokenTable(rule: NumberRule, prev: Option<Tok>, s: string, text: string, n: nat)
    ensures TokenAt(rule, prev, s, Number(text), n) <==> Fits(rule, prev, s, Number(text), n)
  {
    hide NumberAt, StartsNumber, NumberRun, IsNumberBoundary, IsIdentContinue, WordEnds, IsIdentStart;
    if n == 0 && n <= |s| && text == s[..n] {
      NumbersHaveDigits(rule, prev, s);
    } else if n <= |s| && text == s[..n] {
      NoLetterFirst(text[0], prev);
      WordAtEnd(s, n);
      NaNAndInfinity(s, n);
      if !IsIdentStart(text[0]) {
        NumberTable(rule, prev, s, n);
      } else {
        NumberNotWord(rule, prev, s, n);
      }
    }
  }

  lemma NumbersHaveDigits(rule: NumberRule, prev: Option<Tok>, s: string)
    ensures !NumberAt(rule, prev, s, 0) && s[..0] == ""
  {
  }

  lemma NumberNotWord(rule: NumberRule, prev: Option<Tok>, s: string, n: nat)
    requires 0 < n <= |s| && IsIdentStart(s[0])
    ensures !NumberAt(rule, prev, s, n)
  {
    hide Letter, Digit, IsIdentContinue;
    Classes(s[0]);
    MoreClasses(s[0]);
    LettersAreNoDigits(s[0]);
  }

  lemma LettersAreNoDigits(c: char)
    requires Letter(c) || c == '_'
    ensures !Digit(c) && c !in {'+', '-', '.'}
  {
  }

  lemma NaNAndInfinity(s: string, n: nat)
    requires 0 < n <= |s|
    ensures s[..n] == "NaN" <==> n == 3 && "NaN" <= s
    ensures s[..n] == "Infinity" <==> n == 8 && "Infinity" <= s
    ensures s[..n] == "NaN" || s[..n] == "Infinity" ==> IsIdentStart(s[0])
  {
  }

  lemma Table(rule: NumberRule, prev: Option<Tok>, s: string, t: Tok, n: nat)
    ensures TokenAt(rule, prev, s, t, n) <==> Fits(rule, prev, s, t, n)
  {
    hide TokenAt, Fits;
    match t
    case Number(text) => NumberTokenTable(rule, prev, s, text, n);
    case Str(v) => StringTable(rule, prev, s, v, n);
    case Ident(name) => IdentTable(rule, prev, s, name, n);
    case Null | True | False => KeywordTable(rule, prev, s, t, n);
    case _ => PunctuationTable(rule, prev, s, t, n);
  }

  /** The tokenizer takes a token exactly when the table says that it stands there; so at most one
      does. */
  lemma TokenTable(rule: NumberRule, prev: Option<Tok>, s: string, t: Tok, n: nat)
    requires s != ""
    ensures LexOne(rule, s, prev) == Took(t, n) <==> TokenAt(rule, prev, s, t, n)
  {
    hide LexOne, TokenAt, CanFollow, PrintTok, Apart;
    Table(rule, prev, s, t, n);
    if LexOne(rule, s, prev) == Took(t, n) {
      OneFollows(rule, s, prev);
      TookText(rule, s, prev);
    }
    if Fits(rule, prev, s, t, n) {
      OneReads(rule, prev, t, s[n..]);
      assert s == PrintTok(t) + s[n..];
    }
  }

  // ----- whole sources

  ghost predicate AllBlanks(s: string) {
    forall i :: 0 <= i < |s| ==> Blank(s[i])
  }

  /** `spans` are tokens of the table, `ns` characters long, that stand where they say, in order,
      each after the one before it, with nothing but whitespace around them. */
  ghost predicate Tokens(rule: NumberRule, s: string, prev: Option<Tok>, offset: nat, spans: seq<TokenSpan>,
                         ns: seq<nat>)
    decreases spans
  {
    && |ns| == |spans|
    && if spans == [] then AllBlanks(s)
       else
         var t, k, n := spans[0].tok, spans[0].offset - offset, ns[0];
         && 0 <= k < |s| && AllBlanks(s[..k]) && !Blank(s[k])
         && k + n <= |s| && TokenAt(rule, prev, s[k..], t, n)
         && Tokens(rule, s[k + n..], Some(t), offset + k + n, spans[1..], ns[1..])
  }

  lemma {:induction false} BlankAhead(rule: NumberRule, s: string, prev: Option<Tok>, offset: nat,
                                      spans: seq<TokenSpan>, ns: seq<nat>)
    requires s != "" && Blank(s[0])
    ensures Tokens(rule, s, prev, offset, spans, ns) <==> Tokens(rule, s[1..], prev, offset + 1, spans, ns)
  {
    hide TokenAt, Blank;
    if spans == [] {
      BlanksAhead(s);
    } else if |ns| == |spans| {
      var k, n := spans[0].offset - offset, ns[0];
      if k == 0 {
        assert s[0] == s[k];
      } else if 0 < k < |s| && k + n <= |s| {
        BlanksAhead(s[..k]);
        assert s[..k][1..] == s[1..][..k - 1];
        assert s[1..][k - 1..] == s[k..];
        assert s[1..][k - 1 + n..] == s[k + n..];
      }
    }
  }

  lemma BlanksAhead(s: string)
    requires s != "" && Blank(s[0])
    ensures AllBlanks(s) <==> AllBlanks(s[1..])
  {
    hide Blank;
    assert forall i :: 1 <= i < |s| ==> s[i] == s[1..][i - 1];
    assert forall i :: 0 <= i < |s| - 1 ==> s[1..][i] == s[i + 1];
  }

  lemma {:induction false} TokenAhead(rule: NumberRule, s: string, prev: Option<Tok>, offset: nat, t: Tok, n: nat,
                                      more: seq<TokenSpan>, ns: seq<nat>)
    requires s != "" && !Blank(s[0]) && n <= |s|
    ensures Tokens(rule, s, prev, offset, [TokenSpan(t, offset)] + more, [n] + ns) <==>
              TokenAt(rule, prev, s, t, n) && Tokens(rule, s[n..], Some(t), offset + n, more, ns)
  {
    hide TokenAt, Blank;
    assert s[0..] == s && s[..0] == "";
    assert ([TokenSpan(t, offset)] + more)[1..] == more && ([n] + ns)[1..] == ns;
  }

  lemma {:induction false} NoTokensAhead(rule: NumberRule, s: string, prev: Option<Tok>, offset: nat,
                                         spans: seq<TokenSpan>, ns: seq<nat>)
    requires s != "" && !Blank(s[0]) && Tokens(rule, s, prev, offset, spans, ns)
    ensures spans != [] && spans[0].offset == offset && ns != [] && ns[0] <= |s|
    ensures spans == [TokenSpan(spans[0].tok, offset)] + spans[1..] && ns == [ns[0]] + ns[1..]
  {
    hide TokenAt, Blank;
    BlankPrefix(s, if spans == [] then |s| else spans[0].offset - offset);
  }

  lemma BlankPrefix(s: string, k: int)
    ensures 0 < k <= |s| && AllBlanks(s[..k]) ==> Blank(s[0])
    ensures AllBlanks(s) && s != "" ==> Blank(s[0])
  {
    hide Blank;
    if 0 < k <= |s| {
      assert s[..k][0] == s[0];
    }
  }

  /** Tokens of the table are what the tokenizer finds, */
  lemma {:induction false} TableIsRead(rule: NumberRule, s: string, prev: Option<Tok>, offset: nat,
                                       spans: seq<TokenSpan>, ns: seq<nat>)
    requires Tokens(rule, s, prev, offset, spans, ns)
    ensures LexFrom(rule, s, prev, offset) == Ok(spans)
    decreases |s|
  {
    hide Tokens, LexOne, Blank, IsWhitespace, TokenAt;
    if s == "" {
      NothingLeft(rule, prev, offset, spans, ns);
    } else {
      Classes(s[0]);
      if IsWhitespace(s[0]) {
        BlankAhead(rule, s, prev, offset, spans, ns);
        TableIsRead(rule, s[1..], prev, offset + 1, spans, ns);
      } else {
        NoTokensAhead(rule, s, prev, offset, spans, ns);
        var t, n := spans[0].tok, ns[0];
        TokenAhead(rule, s, prev, offset, t, n, spans[1..], ns[1..]);
        TokenTable(rule, prev, s, t, n);
        TableIsRead(rule, s[n..], Some(t), offset + n, spans[1..], ns[1..]);
      }
    }
  }

  /** and nothing else is. */
  lemma {:induction false} ReadIsTable(rule: NumberRule, s: string, prev: Option<Tok>, offset: nat)
    returns (ns: seq<nat>)
    requires LexFrom(rule, s, prev, offset).Ok?
    ensures Tokens(rule, s, prev, offset, LexFrom(rule, s, prev, offset).value, ns)
    decreases |s|
  {
    hide Tokens, LexOne, Blank, IsWhitespace, TokenAt;
    if s == "" {
      ns := [];
      NothingLeft(rule, prev, offset, [], []);
    } else {
      Classes(s[0]);
      if IsWhitespace(s[0]) {
        ns := ReadIsTable(rule, s[1..], prev, offset + 1);
        BlankAhead(rule, s, prev, offset, LexFrom(rule, s, prev, offset).value, ns);
      } else {
        var step := LexOne(rule, s, prev);
        var t, n := step.tok, step.length;
        var more := ReadIsTable(rule, s[n..], Some(t), offset + n);
        TokenTable(rule, prev, s, t, n);
        TokenAhead(rule, s, prev, offset, t, n, LexFrom(rule, s[n..], Some(t), offset + n).value, more);
        ns := [n] + more;
      }
    }
  }

  lemma {:induction false} NothingLeft(rule: NumberRule, prev: Option<Tok>, offset: nat, spans: seq<TokenSpan>,
                                       ns: seq<nat>)
    ensures Tokens(rule, "", prev, offset, spans, ns) <==> spans == [] && ns == []
  {
  }

  /** The whole tokenizer: accepted with `spans` exactly when the source has at most 21,000 UTF-16
      code units and these are its tokens. */
  lemma TokenizeTable(rule: NumberRule, source: string, spans: seq<TokenSpan>)
    ensures TokenizeSpec(rule, source) == Ok(spans) <==>
              Utf16Length(source) <= 21_000 && exists ns :: Tokens(rule, source, None, 0, spans, ns)
  {
    hide LexFrom, Tokens;
    if TokenizeSpec(rule, source) == Ok(spans) {
      var ns := ReadIsTable(rule, source, None, 0);
    }
    forall ns | Tokens(rule, source, None, 0, spans, ns)
      ensures LexFrom(rule, source, None, 0) == Ok(spans)
    {
      TableIsRead(rule, source, None, 0, spans, ns);
    }
  }

  /** Where an error is, the source shows why. */
  ghost predicate Located(rule: NumberRule, s: string, offset: nat, error: ParseError) {
    match error
    case TooLong(_) => false
    case UnterminatedString(o) => offset <= o < offset + |s| && s[o - offset] == '\''
    case InvalidNumber(text, o) =>
      offset <= o && o + |text| <= offset + |s| && s[o - offset..o - offset + |text|] == text && !rule(text)
    case UnexpectedChar(c, o) => offset <= o < offset + |s| && s[o - offset] == c && !Blank(c)
  }

  lemma {:induction false} ErrorsAreLocated(rule: NumberRule, s: string, prev: Option<Tok>, offset: nat)
    requires LexFrom(rule, s, prev, offset).Err?
    ensures Located(rule, s, offset, LexFrom(rule, s, prev, offset).error)
    decreases |s|
  {
    hide Blank, IsWhitespace, StringBody, NumberRun, IdentRun;
    Classes(s[0]);
    if IsWhitespace(s[0]) {
      ErrorsAreLocated(rule, s[1..], prev, offset + 1);
      LaterError(rule, s, 1, offset, LexFrom(rule, s, prev, offset).error);
    } else {
      var step := LexOne(rule, s, prev);
      if step.Took? {
        ErrorsAreLocated(rule, s[step.length..], Some(step.tok), offset + step.length);
        LaterError(rule, s, step.length, offset, LexFrom(rule, s, prev, offset).error);
      }
    }
  }

  lemma LaterError(rule: NumberRule, s: string, n: nat, offset: nat, error: ParseError)
    requires n <= |s| && Located(rule, s[n..], offset + n, error)
    ensures Located(rule, s, offset, error)
  {
    hide Blank;
    match error
    case InvalidNumber(text, o) =>
      assert s[n..][o - offset - n..o - offset - n + |text|] == s[o - offset..o - offset + |text|];
    case _ =>
  }

  // ----- signs

  /** The twelve tokens after which a value is expected, and how they are written. */
  ghost predicate OpensValue(text: string, t: Tok) {
    || (text, t) in {("(", LParen), ("[", LBracket), (",", Comma), ("!", Not), ("&&", AndAnd), ("||", OrOr)}
    || (text, t) in {("==", EqEq), ("!=", NotEq), ("<", Lt), ("<=", Le), (">", Gt), (">=", Ge)}
  }

  /** After each of them, a sign or a point begins a number. */
  lemma SignedNumberFollows(rule: NumberRule, text: string, t: Tok, n: string)
    requires OpensValue(text, t)
    requires n != "" && n[0] in {'+', '-', '.'} && (forall i :: 1 <= i < |n| ==> !EndsNumber(n[i])) && rule(n)
    ensures LexFrom(rule, text + " " + n, None, 0) == Ok([TokenSpan(t, 0), TokenSpan(Number(n), |text| + 1)])
  {
    hide LexFrom, OpensValue, EndsNumber, TokenAt, CanFollow, PrintTok, Apart;
    var s := text + " " + n;
    SignStands(rule, text, t, n);
    Table(rule, None, s, t, |text|);
    Table(rule, Some(t), n, Number(n), |n|);
    assert s[..|text|] == text && s[|text|..] == " " + n;
    assert n[..|n|] == n;
    FirstReads(rule, None, t, " ", n, 0);
    LastReads(rule, Some(t), Number(n), |text| + 1);
    var first, second := TokenSpan(t, 0), TokenSpan(Number(n), |text| + 1);
    assert [first] + [second] == [first, second];
  }

  lemma SignStands(rule: NumberRule, text: string, t: Tok, n: string)
    requires OpensValue(text, t)
    requires n != "" && n[0] in {'+', '-', '.'} && (forall i :: 1 <= i < |n| ==> !EndsNumber(n[i])) && rule(n)
    ensures TokenAt(rule, None, text + " " + n, t, |text|)
    ensures TokenAt(rule, Some(t), n, Number(n), |n|)
  {
    hide EndsNumber, Blank;
    assert text <= text + " " + n;
    assert n[..|n|] == n;
    assert ExpectsValue(Some(t));
  }

  /** After the other ten, a point is a dereference and a sign is an error. */
  lemma NoSignFollows(rule: NumberRule, t: Tok, rest: string)
    requires t in {RParen, RBracket, Star, Dot, Null, True, False} || t.Number? || t.Str? || t.Ident?
    ensures LexOne(rule, "." + rest, Some(t)) == Took(Dot, 1)
    ensures LexOne(rule, "+" + rest, Some(t)) == NoToken && LexOne(rule, "-" + rest, Some(t)) == NoToken
  {
    hide NumberRun, IdentRun, StringBody, IsWhitespace;
  }
}
