/** The expression tokenizer.  What `.`, `+`, `-` and the keywords mean depends on the token
    before them.  A number token keeps its source text. */
module Lexer {
  import opened Common

  const MAX_EXPRESSION_LENGTH: nat := 21_000

  datatype Tok =
    | LParen | RParen | LBracket | RBracket | Comma | Dot | Star | Not
    | EqEq | NotEq | Lt | Le | Gt | Ge | AndAnd | OrOr
    | Null | True | False
    | Number(text: string)
    | Str(value: string)
    | Ident(name: string)

  datatype TokenSpan = TokenSpan(tok: Tok, offset: nat)

  datatype ParseError =
    | TooLong(actual: nat)
    | UnterminatedString(offset: nat)
    | InvalidNumber(text: string, offset: nat)
    | UnexpectedChar(ch: char, offset: nat)

  /** Which number candidates denote a number. */
  type NumberRule = string -> bool

  predicate IsIdentStart(c: char) { IsLetter(c) || c == '_' }

  predicate IsIdentContinue(c: char) { IsLetter(c) || IsDigit(c) || c == '_' || c == '-' }

  predicate IsNumberBoundary(c: char) {
    c in {'(', ')', '[', ']', ',', '!', '<', '>', '=', '&', '|'} || IsWhitespace(c)
  }

  /** A value, rather than an operator, is expected after `prev`. */
  predicate IsValuePosition(prev: Option<Tok>) {
    match prev
    case None => true
    case Some(t) =>
      match t
      case LParen | LBracket | Comma | Not | AndAnd | OrOr | EqEq | NotEq | Lt | Le | Gt | Ge => true
      case RParen | RBracket | Star | Dot | Null | True | False => false
      case Number(_) | Str(_) | Ident(_) => false
  }

  // ----- one token

  /** How many leading characters of `s` satisfy a condition. */
  function NumberRun(s: string): (n: nat)
    ensures n <= |s|
  {
    if s == "" || IsNumberBoundary(s[0]) then 0 else 1 + NumberRun(s[1..])
  }

  function IdentRun(s: string): (n: nat)
    ensures n <= |s|
  {
    if s == "" || !IsIdentContinue(s[0]) then 0 else 1 + IdentRun(s[1..])
  }

  /** The rest of a quoted string: its text and how many characters it takes, closing quote
      included; two quotes stand for one. */
  function StringBody(s: string): (r: Option<(string, nat)>)
    ensures r.Some? ==> 0 < r.value.1 <= |s|
  {
    if s == "" then None
    else if s[0] == '\'' then
      if |s| >= 2 && s[1] == '\'' then Pushed('\'', 2, StringBody(s[2..])) else Some(("", 1))
    else Pushed(s[0], 1, StringBody(s[1..]))
  }

  function Pushed(c: char, n: nat, rest: Option<(string, nat)>): Option<(string, nat)> {
    if rest.None? then None else Some(([c] + rest.value.0, n + rest.value.1))
  }

  function Word(text: string, prev: Option<Tok>): Tok {
    if prev == Some(Dot) then Ident(text)
    else if text == "null" then Null
    else if text == "true" then True
    else if text == "false" then False
    else if text == "NaN" || text == "Infinity" then Number(text)
    else Ident(text)
  }

  datatype Step = Took(tok: Tok, length: nat) | NoString | NoNumber(text: string) | NoToken

  function Follows(s: string, c: char): bool {
    |s| >= 2 && s[1] == c
  }

  function Punctuation(s: string): (r: Step)
    requires s != ""
    ensures r.Took? ==> 0 < r.length <= |s|
  {
    match s[0]
    case '(' => Took(LParen, 1)
    case ')' => Took(RParen, 1)
    case '[' => Took(LBracket, 1)
    case ']' => Took(RBracket, 1)
    case ',' => Took(Comma, 1)
    case '.' => Took(Dot, 1)
    case '*' => Took(Star, 1)
    case '!' => if Follows(s, '=') then Took(NotEq, 2) else Took(Not, 1)
    case '<' => if Follows(s, '=') then Took(Le, 2) else Took(Lt, 1)
    case '>' => if Follows(s, '=') then Took(Ge, 2) else Took(Gt, 1)
    case '=' => if Follows(s, '=') then Took(EqEq, 2) else NoToken
    case '&' => if Follows(s, '&') then Took(AndAnd, 2) else NoToken
    case '|' => if Follows(s, '|') then Took(OrOr, 2) else NoToken
    case _ => NoToken
  }

  predicate StartsNumber(c: char, prev: Option<Tok>) {
    IsDigit(c) || ((c == '+' || c == '-' || c == '.') && IsValuePosition(prev))
  }

  /** The token at the front of `s`, which does not start with whitespace. */
  function LexOne(rule: NumberRule, s: string, prev: Option<Tok>): (r: Step)
    requires s != ""
    ensures r.Took? ==> 0 < r.length <= |s|
  {
    if s[0] == '\'' then
      var body := StringBody(s[1..]);
      if body.None? then NoString else Took(Str(body.value.0), 1 + body.value.1)
    else if StartsNumber(s[0], prev) then
      var n := 1 + NumberRun(s[1..]);
      if rule(s[..n]) then Took(Number(s[..n]), n) else NoNumber(s[..n])
    else if IsIdentStart(s[0]) then
      var n := 1 + IdentRun(s[1..]);
      Took(Word(s[..n], prev), n)
    else Punctuation(s)
  }

  // ----- all tokens

  function LexFrom(rule: NumberRule, s: string, prev: Option<Tok>, offset: nat): Result<seq<TokenSpan>, ParseError>
    decreases |s|
  {
    if s == "" then Ok([])
    else if IsWhitespace(s[0]) then LexFrom(rule, s[1..], prev, offset + 1)
    else
      match LexOne(rule, s, prev)
      case Took(tok, n) => Prepend(TokenSpan(tok, offset), LexFrom(rule, s[n..], Some(tok), offset + n))
      case NoString => Err(UnterminatedString(offset))
      case NoNumber(text) => Err(InvalidNumber(text, offset))
      case NoToken => Err(UnexpectedChar(s[0], offset))
  }

  function TokenizeSpec(rule: NumberRule, source: string): Result<seq<TokenSpan>, ParseError> {
    if Utf16Length(source) > MAX_EXPRESSION_LENGTH then Err(TooLong(Utf16Length(source)))
    else LexFrom(rule, source, None, 0)
  }

  // ----- the tokenizer as written

  function Last(tokens: seq<TokenSpan>): Option<Tok> {
    if tokens == [] then None else Some(tokens[|tokens| - 1].tok)
  }

  /** The body of a quoted string starting at `i`, just after the opening quote. */
  method ScanString(chars: string, start: nat) returns (body: Option<string>, next: nat)
    requires start <= |chars|
    ensures StringBody(chars[start..]) == if body.None? then None else Some((body.value, next - start))
    ensures body.Some? ==> start < next <= |chars|
  {
    hide Pushed, PushedAll;
    var i, s := start, "";
    PushedNothing(StringBody(chars[start..]));
    while true
      invariant start <= i <= |chars|
      invariant StringBody(chars[start..]) == PushedAll(s, i - start, StringBody(chars[i..]))
      decreases |chars| - i
    {
      if i >= |chars| {
        assert chars[i..] == "";
        PushedEnd(s, i - start);
        return None, i;
      }
      ghost var rest := chars[i..];
      assert rest[1..] == chars[i + 1..];
      if chars[i] == '\'' {
        if i + 1 < |chars| && chars[i + 1] == '\'' {
          assert rest[2..] == chars[i + 2..];
          PushedMore(s, i - start, '\'', 2, StringBody(chars[i + 2..]));
          s := s + ['\''];
          i := i + 2;
          continue;
        }
        PushedEnd(s, i - start);
        return Some(s), i + 1;
      }
      PushedMore(s, i - start, chars[i], 1, StringBody(chars[i + 1..]));
      s := s + [chars[i]];
      i := i + 1;
    }
  }

  ghost function PushedAll(s: string, n: nat, rest: Option<(string, nat)>): Option<(string, nat)> {
    if rest.None? then None else Some((s + rest.value.0, n + rest.value.1))
  }

  lemma PushedNothing(rest: Option<(string, nat)>)
    ensures PushedAll("", 0, rest) == rest
  {
    if rest.Some? {
      assert "" + rest.value.0 == rest.value.0;
    }
  }

  lemma PushedEnd(s: string, n: nat)
    ensures PushedAll(s, n, None) == None
    ensures PushedAll(s, n, Some(("", 1))) == Some((s, n + 1))
  {
    assert s + "" == s;
  }

  lemma PushedMore(s: string, n: nat, c: char, m: nat, rest: Option<(string, nat)>)
    ensures PushedAll(s, n, Pushed(c, m, rest)) == PushedAll(s + [c], n + m, rest)
  {
    if rest.Some? {
      assert s + ([c] + rest.value.0) == s + [c] + rest.value.0;
    }
  }

  method RunOfNumber(chars: string, start: nat) returns (j: nat)
    requires start < |chars|
    ensures j == start + 1 + NumberRun(chars[start + 1..])
  {
    j := start + 1;
    while j < |chars| && !IsNumberBoundary(chars[j])
      invariant start + 1 <= j <= |chars|
      invariant j + NumberRun(chars[j..]) == start + 1 + NumberRun(chars[start + 1..])
    {
      assert chars[j..][1..] == chars[j + 1..];
      j := j + 1;
    }
  }

  method RunOfIdent(chars: string, start: nat) returns (j: nat)
    requires start < |chars|
    ensures j == start + 1 + IdentRun(chars[start + 1..])
  {
    j := start + 1;
    while j < |chars| && IsIdentContinue(chars[j])
      invariant start + 1 <= j <= |chars|
      invariant j + IdentRun(chars[j..]) == start + 1 + IdentRun(chars[start + 1..])
    {
      assert chars[j..][1..] == chars[j + 1..];
      j := j + 1;
    }
  }

  /** The token starting at `i`, and the position after it. */
  method TakeToken(rule: NumberRule, chars: string, i: nat, prev: Option<Tok>) returns (step: Step)
    requires i < |chars|
    ensures step == LexOne(rule, chars[i..], prev)
  {
    hide IsWhitespace, IsNumberBoundary;
    ghost var s := chars[i..];
    assert s[1..] == chars[i + 1..];
    var ch := chars[i];
    if ch == '\'' {
      var body, next := ScanString(chars, i + 1);
      if body.None? {
        return NoString;
      }
      return Took(Str(body.value), next - i);
    }
    if StartsNumber(ch, prev) {
      var j := RunOfNumber(chars, i);
      var text := chars[i..j];
      assert text == s[..j - i];
      if rule(text) {
        return Took(Number(text), j - i);
      }
      return NoNumber(text);
    }
    if IsIdentStart(ch) {
      var j := RunOfIdent(chars, i);
      assert chars[i..j] == s[..j - i];
      return Took(Word(chars[i..j], prev), j - i);
    }
    return Punctuation(chars[i..]);
  }

  method Tokenize(rule: NumberRule, source: string) returns (result: Result<seq<TokenSpan>, ParseError>)
    ensures result == TokenizeSpec(rule, source)
  {
    hide LexOne, IsWhitespace, Utf16Length;
    if Utf16Length(source) > MAX_EXPRESSION_LENGTH {
      return Err(TooLong(Utf16Length(source)));
    }
    var tokens: seq<TokenSpan> := [];
    var i := 0;
    assert source[0..] == source;
    JoinedNothing(LexFrom(rule, source, None, 0));
    while i < |source|
      invariant 0 <= i <= |source|
      invariant Joined(tokens, LexFrom(rule, source[i..], Last(tokens), i)) == TokenizeSpec(rule, source)
    {
      ghost var s := source[i..];
      assert s[1..] == source[i + 1..];
      if IsWhitespace(source[i]) {
        i := i + 1;
        continue;
      }
      var step := TakeToken(rule, source, i, Last(tokens));
      match step {
        case Took(tok, n) =>
          assert s[n..] == source[i + n..];
          JoinedMore(tokens, TokenSpan(tok, i), LexFrom(rule, source[i + n..], Some(tok), i + n));
          tokens := tokens + [TokenSpan(tok, i)];
          i := i + n;
        case NoString => return Err(UnterminatedString(i));
        case NoNumber(text) => return Err(InvalidNumber(text, i));
        case NoToken => return Err(UnexpectedChar(source[i], i));
      }
    }
    assert source[i..] == "";
    assert tokens + [] == tokens;
    return Ok(tokens);
  }

  // ----- printing tokens

  function DoubleQuotes(s: string): string {
    if s == "" then "" else DoubleQuote(s[0]) + DoubleQuotes(s[1..])
  }

  function PrintTok(t: Tok): (text: string)
  {
    match t
    case LParen => "("
    case RParen => ")"
    case LBracket => "["
    case RBracket => "]"
    case Comma => ","
    case Dot => "."
    case Star => "*"
    case Not => "!"
    case EqEq => "=="
    case NotEq => "!="
    case Lt => "<"
    case Le => "<="
    case Gt => ">"
    case Ge => ">="
    case AndAnd => "&&"
    case OrOr => "||"
    case Null => "null"
    case True => "true"
    case False => "false"
    case Number(text) => text
    case Str(value) => "'" + DoubleQuotes(value) + "'"
    case Ident(name) => name
  }

  /** Whether `c`, directly after the text of `t`, would be read as part of it. */
  predicate Absorbs(t: Tok, c: char) {
    match t
    case Number(text) => if text != "" && IsIdentStart(text[0]) then IsIdentContinue(c) else !IsNumberBoundary(c)
    case Null | True | False | Ident(_) => IsIdentContinue(c)
    case Str(_) => c == '\''
    case Not | Lt | Gt => c == '='
    case _ => false
  }

  function Gap(a: Tok, b: Tok, tight: bool): string {
    var next := PrintTok(b);
    if tight && next != "" && !Absorbs(a, next[0]) then "" else " "
  }

  /** Tokens separated by single spaces, or, when `tight`, by a space only where the tokens would
      run together without it. */
  function Print(toks: seq<Tok>, tight: bool): string {
    if toks == [] then ""
    else if |toks| == 1 then PrintTok(toks[0])
    else PrintTok(toks[0]) + Gap(toks[0], toks[1], tight) + Print(toks[1..], tight)
  }

  function Toks(spans: seq<TokenSpan>): (r: seq<Tok>)
    ensures |r| == |spans|
  {
    if spans == [] then [] else [spans[0].tok] + Toks(spans[1..])
  }

  // ----- which tokens can follow which

  predicate IsWord(text: string) {
    text != "" && IsIdentStart(text[0]) && IdentRun(text[1..]) == |text| - 1
  }

  /** The tokenizer can produce `t` after `prev`. */
  ghost predicate CanFollow(rule: NumberRule, prev: Option<Tok>, t: Tok) {
    match t
    case Dot => !IsValuePosition(prev)
    case Null | True | False => prev != Some(Dot)
    case Number(text) =>
      || (prev != Some(Dot) && (text == "NaN" || text == "Infinity"))
      || (text != "" && StartsNumber(text[0], prev) && NumberRun(text[1..]) == |text| - 1 && rule(text))
    case Ident(name) => IsWord(name) && Word(name, prev) == t
    case _ => true
  }

  ghost predicate Lexed(rule: NumberRule, prev: Option<Tok>, toks: seq<Tok>)
    decreases toks
  {
    toks == [] || (CanFollow(rule, prev, toks[0]) && Lexed(rule, Some(toks[0]), toks[1..]))
  }

  lemma {:induction false} NumberRunPrefix(s: string)
    ensures NumberRun(s[..NumberRun(s)]) == NumberRun(s)
  {
    if s != "" && !IsNumberBoundary(s[0]) {
      hide IsNumberBoundary;
      NumberRunPrefix(s[1..]);
      assert s[..NumberRun(s)][1..] == s[1..][..NumberRun(s[1..])];
    }
  }

  lemma {:induction false} IdentRunPrefix(s: string)
    ensures IdentRun(s[..IdentRun(s)]) == IdentRun(s)
  {
    if s != "" && IsIdentContinue(s[0]) {
      IdentRunPrefix(s[1..]);
      assert s[..IdentRun(s)][1..] == s[1..][..IdentRun(s[1..])];
    }
  }

  lemma OneFollows(rule: NumberRule, s: string, prev: Option<Tok>)
    requires s != "" && LexOne(rule, s, prev).Took?
    ensures CanFollow(rule, prev, LexOne(rule, s, prev).tok)
  {
    hide NumberRun, IdentRun;
    NumberRunPrefix(s[1..]);
    IdentRunPrefix(s[1..]);
    var n := 1 + NumberRun(s[1..]);
    assert s[..n][1..] == s[1..][..n - 1];
    var m := 1 + IdentRun(s[1..]);
    assert s[..m][1..] == s[1..][..m - 1];
  }

  lemma {:induction false} AllFollow(rule: NumberRule, s: string, prev: Option<Tok>, offset: nat)
    requires LexFrom(rule, s, prev, offset).Ok?
    ensures Lexed(rule, prev, Toks(LexFrom(rule, s, prev, offset).value))
    decreases |s|
  {
    hide LexOne, CanFollow, IsWhitespace;
    if s != "" {
      if IsWhitespace(s[0]) {
        AllFollow(rule, s[1..], prev, offset + 1);
      } else {
        var step := LexOne(rule, s, prev);
        OneFollows(rule, s, prev);
        AllFollow(rule, s[step.length..], Some(step.tok), offset + step.length);
        var rest := LexFrom(rule, s[step.length..], Some(step.tok), offset + step.length).value;
        assert ([TokenSpan(step.tok, offset)] + rest)[1..] == rest;
        assert ([step.tok] + Toks(rest))[1..] == Toks(rest);
      }
    }
  }

  // ----- printed tokens lex back

  /** What may come after the text of `t`: the end, or something that is not read as part of it. */
  predicate Apart(t: Tok, rest: string) {
    rest == "" || !Absorbs(t, rest[0])
  }

  lemma {:induction false} NumberRunStops(text: string, rest: string)
    requires NumberRun(text) == |text| && (rest == "" || IsNumberBoundary(rest[0]))
    ensures NumberRun(text + rest) == |text|
  {
    if text == "" {
      assert text + rest == rest;
    } else {
      assert (text + rest)[1..] == text[1..] + rest;
      NumberRunStops(text[1..], rest);
    }
  }

  lemma {:induction false} IdentRunStops(text: string, rest: string)
    requires IdentRun(text) == |text| && (rest == "" || !IsIdentContinue(rest[0]))
    ensures IdentRun(text + rest) == |text|
  {
    if text == "" {
      assert text + rest == rest;
    } else {
      assert (text + rest)[1..] == text[1..] + rest;
      IdentRunStops(text[1..], rest);
    }
  }

  function DoubleQuote(c: char): string {
    if c == '\'' then "''" else [c]
  }

  lemma StringStep(c: char, tail: string)
    ensures StringBody(DoubleQuote(c) + tail) == Pushed(c, |DoubleQuote(c)|, StringBody(tail))
  {
    hide Pushed;
    var s := DoubleQuote(c) + tail;
    if c == '\'' {
      assert s[2..] == tail;
    } else {
      assert s[1..] == tail;
    }
  }

  lemma StringEnd(rest: string)
    requires rest == "" || rest[0] != '\''
    ensures StringBody("'" + rest) == Some(("", 1))
  {
  }

  lemma {:induction false} StringReads(value: string, rest: string)
    requires rest == "" || rest[0] != '\''
    ensures StringBody(DoubleQuotes(value) + "'" + rest) == Some((value, |DoubleQuotes(value)| + 1))
    decreases value
  {
    hide StringBody, DoubleQuote;
    if value == "" {
      StringEnd(rest);
      assert DoubleQuotes(value) + "'" + rest == "'" + rest;
    } else {
      var tail := DoubleQuotes(value[1..]) + "'" + rest;
      StringReads(value[1..], rest);
      StringStep(value[0], tail);
      assert DoubleQuotes(value) + "'" + rest == DoubleQuote(value[0]) + tail;
      assert [value[0]] + value[1..] == value;
    }
  }

  lemma WordReads(rule: NumberRule, prev: Option<Tok>, text: string, rest: string)
    requires IsWord(text) && (rest == "" || !IsIdentContinue(rest[0]))
    ensures LexOne(rule, text + rest, prev) == Took(Word(text, prev), |text|)
  {
    hide IdentRun, NumberRun, IsWhitespace;
    var s := text + rest;
    assert s[1..] == text[1..] + rest;
    IdentRunStops(text[1..], rest);
    assert s[..|text|] == text;
  }

  lemma NumberReads(rule: NumberRule, prev: Option<Tok>, text: string, rest: string)
    requires text != "" && StartsNumber(text[0], prev) && NumberRun(text[1..]) == |text| - 1 && rule(text)
    requires rest == "" || IsNumberBoundary(rest[0])
    ensures LexOne(rule, text + rest, prev) == Took(Number(text), |text|)
  {
    hide IdentRun, NumberRun, IsWhitespace;
    var s := text + rest;
    assert s[1..] == text[1..] + rest;
    NumberRunStops(text[1..], rest);
    assert s[..|text|] == text;
  }

  lemma KeywordsAreWords()
    ensures IsWord("null") && IsWord("true") && IsWord("false") && IsWord("NaN") && IsWord("Infinity")
  {
    hide IsWord;
    LettersAreWord("null");
    LettersAreWord("true");
    LettersAreWord("false");
    LettersAreWord("NaN");
    LettersAreWord("Infinity");
  }

  lemma LettersAreWord(s: string)
    requires s != "" && forall i :: 0 <= i < |s| ==> IsLetter(s[i])
    ensures IsWord(s)
  {
    LettersRun(s[1..]);
  }

  lemma {:induction false} LettersRun(s: string)
    requires forall i :: 0 <= i < |s| ==> IsLetter(s[i])
    ensures IdentRun(s) == |s|
  {
    if s != "" {
      LettersRun(s[1..]);
    }
  }

  lemma PunctuationReads(rule: NumberRule, prev: Option<Tok>, t: Tok, rest: string)
    requires CanFollow(rule, prev, t) && Apart(t, rest)
    requires !t.Number? && !t.Str? && !t.Ident? && !t.Null? && !t.True? && !t.False?
    ensures LexOne(rule, PrintTok(t) + rest, prev) == Took(t, |PrintTok(t)|)
  {
    hide IdentRun, NumberRun, StringBody, IsWhitespace;
  }

  lemma OneReads(rule: NumberRule, prev: Option<Tok>, t: Tok, rest: string)
    requires CanFollow(rule, prev, t) && Apart(t, rest)
    ensures LexOne(rule, PrintTok(t) + rest, prev) == Took(t, |PrintTok(t)|)
  {
    hide IdentRun, NumberRun, StringBody, IsWhitespace, IsNumberBoundary, IsIdentContinue, StartsNumber, LexOne,
         IsWord, Apart;
    if rest != "" {
      ApartMeans(t, rest);
    }
    match t
    case Number(text) =>
      if prev != Some(Dot) && (text == "NaN" || text == "Infinity") {
        KeywordsAreWords();
        WordReads(rule, prev, text, rest);
      } else {
        NoLetterFirst(text[0], prev);
        NumberReads(rule, prev, text, rest);
      }
    case Null | True | False =>
      KeywordsAreWords();
      WordReads(rule, prev, PrintTok(t), rest);
    case Ident(name) => WordReads(rule, prev, name, rest);
    case Str(value) => QuotedReads(rule, prev, value, rest);
    case _ => PunctuationReads(rule, prev, t, rest);
  }

  lemma ApartMeans(t: Tok, rest: string)
    requires Apart(t, rest) && rest != ""
    ensures t.Number? && t.text != "" ==>
              if IsIdentStart(t.text[0]) then !IsIdentContinue(rest[0]) else IsNumberBoundary(rest[0])
    ensures t.Null? || t.True? || t.False? || t.Ident? ==> !IsIdentContinue(rest[0])
  {
    hide IsNumberBoundary, IsIdentContinue;
  }

  lemma NoLetterFirst(c: char, prev: Option<Tok>)
    ensures StartsNumber(c, prev) ==> !IsIdentStart(c)
  {
  }

  lemma QuotedReads(rule: NumberRule, prev: Option<Tok>, value: string, rest: string)
    requires Apart(Str(value), rest)
    ensures LexOne(rule, PrintTok(Str(value)) + rest, prev) == Took(Str(value), |PrintTok(Str(value))|)
  {
    hide StringBody, DoubleQuotes;
    var s := PrintTok(Str(value)) + rest;
    assert s[1..] == DoubleQuotes(value) + "'" + rest;
    StringReads(value, rest);
  }

  lemma PrintedStarts(rule: NumberRule, prev: Option<Tok>, t: Tok)
    requires CanFollow(rule, prev, t)
    ensures PrintTok(t) != "" && !IsWhitespace(PrintTok(t)[0])
  {
  }

  lemma PrintStarts(rule: NumberRule, prev: Option<Tok>, toks: seq<Tok>, tight: bool)
    requires toks != [] && Lexed(rule, prev, toks)
    ensures Print(toks, tight) != "" && PrintTok(toks[0]) != "" && Print(toks, tight)[0] == PrintTok(toks[0])[0]
  {
    hide IsWhitespace, PrintTok, CanFollow, Gap;
    PrintedStarts(rule, prev, toks[0]);
  }

  lemma {:induction false} PrintLexes(rule: NumberRule, prev: Option<Tok>, toks: seq<Tok>, tight: bool, offset: nat)
    requires Lexed(rule, prev, toks)
    ensures LexFrom(rule, Print(toks, tight), prev, offset).Ok?
    ensures Toks(LexFrom(rule, Print(toks, tight), prev, offset).value) == toks
    decreases toks
  {
    hide LexOne, CanFollow, PrintTok, IsWhitespace, Absorbs, Apart, Gap;
    if toks != [] {
      var t := toks[0];
      PrintedStarts(rule, prev, t);
      if |toks| == 1 {
        LastReads(rule, prev, t, offset);
        assert toks == [t];
      } else {
        var more := Print(toks[1..], tight);
        PrintStarts(rule, Some(t), toks[1..], tight);
        var gap := Gap(t, toks[1], tight);
        GapKeepsApart(t, toks[1], tight, more);
        var n := |PrintTok(t)|;
        PrintLexes(rule, Some(t), toks[1..], tight, offset + n + |gap|);
        FirstReads(rule, prev, t, gap, more, offset);
        assert Print(toks, tight) == PrintTok(t) + gap + more;
        assert [t] + toks[1..] == toks;
      }
    }
  }

  lemma GapKeepsApart(t: Tok, next: Tok, tight: bool, more: string)
    requires more != "" && PrintTok(next) != "" && more[0] == PrintTok(next)[0]
    ensures var gap := Gap(t, next, tight);
            (gap == "" || gap == " ") && Apart(t, gap + more)
  {
  }

  /** The last token, with nothing after it. */
  lemma LastReads(rule: NumberRule, prev: Option<Tok>, t: Tok, offset: nat)
    requires CanFollow(rule, prev, t)
    ensures LexFrom(rule, PrintTok(t), prev, offset) == Ok([TokenSpan(t, offset)])
  {
    hide LexOne, CanFollow, IsWhitespace, PrintTok;
    PrintedStarts(rule, prev, t);
    OneReads(rule, prev, t, "");
    assert PrintTok(t) + "" == PrintTok(t);
    assert PrintTok(t)[|PrintTok(t)|..] == "";
    assert LexFrom(rule, "", Some(t), offset + |PrintTok(t)|) == Ok([]);
    assert [TokenSpan(t, offset)] + [] == [TokenSpan(t, offset)];
  }

  /** A token, a gap of at most one space, and more. */
  lemma FirstReads(rule: NumberRule, prev: Option<Tok>, t: Tok, gap: string, more: string, offset: nat)
    requires CanFollow(rule, prev, t) && (gap == "" || gap == " ") && Apart(t, gap + more)
    ensures LexFrom(rule, PrintTok(t) + gap + more, prev, offset)
         == Prepend(TokenSpan(t, offset), LexFrom(rule, more, Some(t), offset + |PrintTok(t)| + |gap|))
  {
    hide LexOne, CanFollow, IsWhitespace, PrintTok, Apart;
    var s, n := PrintTok(t) + gap + more, |PrintTok(t)|;
    PrintedStarts(rule, prev, t);
    OneReads(rule, prev, t, gap + more);
    assert s == PrintTok(t) + (gap + more);
    assert s[n..] == gap + more;
    SpaceIsBlank();
    assert gap == " " ==> (gap + more)[1..] == more;
    assert gap == "" ==> gap + more == more;
  }

  lemma SpaceIsBlank()
    ensures IsWhitespace(' ')
  {
  }

  /** Whatever source was accepted, printing its tokens and tokenizing the print gives the same
      tokens, provided the print is not too long itself. */
  lemma PrintedTokensReadBack(rule: NumberRule, source: string, tight: bool)
    requires TokenizeSpec(rule, source).Ok?
    ensures var toks := Toks(TokenizeSpec(rule, source).value);
            Utf16Length(Print(toks, tight)) <= MAX_EXPRESSION_LENGTH ==>
              TokenizeSpec(rule, Print(toks, tight)).Ok? && Toks(TokenizeSpec(rule, Print(toks, tight)).value) == toks
  {
    hide LexFrom, Utf16Length;
    AllFollow(rule, source, None, 0);
    PrintLexes(rule, None, Toks(TokenizeSpec(rule, source).value), tight, 0);
  }

  // ----- tokens account for the whole source

  ghost predicate AllBlank(s: string) {
    forall i :: 0 <= i < |s| ==> IsWhitespace(s[i])
  }

  /** `spans` account for `s`, whose first character has number `offset`: the text of every token
      stands where its span says, only whitespace lies between the texts, and nothing is left
      over. */
  ghost predicate Covers(s: string, offset: nat, spans: seq<TokenSpan>)
    decreases spans
  {
    if spans == [] then AllBlank(s)
    else
      && Stands(s, offset, spans[0])
      && var end := spans[0].offset + |PrintTok(spans[0].tok)|;
         Covers(s[end - offset..], end, spans[1..])
  }

  ghost predicate Stands(s: string, offset: nat, span: TokenSpan) {
    var k, text := span.offset - offset, PrintTok(span.tok);
    0 <= k && k + |text| <= |s| && AllBlank(s[..k]) && s[k..k + |text|] == text
  }

  /** Quotes in the text of a string are doubled exactly as printing doubles them. */
  lemma {:induction false} StringText(s: string)
    requires StringBody(s).Some?
    ensures s[..StringBody(s).value.1] == DoubleQuotes(StringBody(s).value.0) + "'"
    ensures StringBody(s).value.1 < |s| ==> s[StringBody(s).value.1] != '\''
    decreases |s|
  {
    var n := StringBody(s).value.1;
    if s[0] == '\'' {
      if |s| >= 2 && s[1] == '\'' {
        StringText(s[2..]);
        assert s[..n] == "''" + s[2..][..n - 2];
      } else {
        assert s[..n] == "'";
      }
    } else {
      StringText(s[1..]);
      assert s[..n] == [s[0]] + s[1..][..n - 1];
    }
  }

  lemma {:induction false} NumberRunEnds(s: string)
    ensures NumberRun(s) < |s| ==> IsNumberBoundary(s[NumberRun(s)])
  {
    if s != "" && !IsNumberBoundary(s[0]) {
      NumberRunEnds(s[1..]);
    }
  }

  lemma {:induction false} IdentRunEnds(s: string)
    ensures IdentRun(s) < |s| ==> !IsIdentContinue(s[IdentRun(s)])
  {
    if s != "" && IsIdentContinue(s[0]) {
      IdentRunEnds(s[1..]);
    }
  }

  /** A token is read from exactly its own text, and as far as it goes. */
  lemma TookText(rule: NumberRule, s: string, prev: Option<Tok>)
    requires s != "" && LexOne(rule, s, prev).Took?
    ensures var step := LexOne(rule, s, prev);
            && s[..step.length] == PrintTok(step.tok) && |PrintTok(step.tok)| == step.length
            && Apart(step.tok, s[step.length..])
  {
    hide NumberRun, IdentRun, StringBody, DoubleQuotes, IsWhitespace, IsNumberBoundary, Word, PrintTok, Absorbs,
         Punctuation;
    if s[0] == '\'' {
      QuotedText(s);
    } else if StartsNumber(s[0], prev) {
      NumberText(s);
    } else if IsIdentStart(s[0]) {
      WordText(s, prev);
    } else {
      PunctuationText(s);
    }
  }

  lemma QuotedText(s: string)
    requires s != "" && s[0] == '\'' && StringBody(s[1..]).Some?
    ensures var body := StringBody(s[1..]).value;
            && s[..1 + body.1] == PrintTok(Str(body.0)) && Apart(Str(body.0), s[1 + body.1..])
  {
    hide StringBody, DoubleQuotes;
    var n := StringBody(s[1..]).value.1;
    StringText(s[1..]);
    assert s[..1 + n] == "'" + s[1..][..n];
  }

  lemma NumberText(s: string)
    requires s != "" && (IsDigit(s[0]) || s[0] == '+' || s[0] == '-' || s[0] == '.')
    ensures var n := 1 + NumberRun(s[1..]);
            s[..n] == PrintTok(Number(s[..n])) && Apart(Number(s[..n]), s[n..])
  {
    hide NumberRun, IsNumberBoundary;
    NumberRunEnds(s[1..]);
  }

  lemma WordText(s: string, prev: Option<Tok>)
    requires s != "" && IsIdentStart(s[0])
    ensures var n := 1 + IdentRun(s[1..]);
            s[..n] == PrintTok(Word(s[..n], prev)) && Apart(Word(s[..n], prev), s[n..])
  {
    hide IdentRun;
    IdentRunEnds(s[1..]);
  }

  lemma PunctuationText(s: string)
    requires s != "" && Punctuation(s).Took?
    ensures var step := Punctuation(s);
            s[..step.length] == PrintTok(step.tok) && Apart(step.tok, s[step.length..])
  {
    hide IsNumberBoundary;
  }

  lemma BlankFront(s: string)
    requires s != "" && IsWhitespace(s[0]) && AllBlank(s[1..])
    ensures AllBlank(s)
  {
    hide IsWhitespace;
    assert forall i :: 1 <= i < |s| ==> s[i] == s[1..][i - 1];
  }

  lemma BlankThenStands(s: string, offset: nat, span: TokenSpan)
    requires s != "" && IsWhitespace(s[0]) && Stands(s[1..], offset + 1, span)
    ensures Stands(s, offset, span)
    ensures var end := span.offset + |PrintTok(span.tok)|;
            offset < end <= offset + |s| && s[1..][end - offset - 1..] == s[end - offset..]
  {
    hide IsWhitespace, AllBlank, PrintTok;
    var k, n := span.offset - offset, |PrintTok(span.tok)|;
    assert s[..k][1..] == s[1..][..k - 1];
    BlankFront(s[..k]);
    assert s[1..][k - 1..k - 1 + n] == s[k..k + n];
  }

  lemma {:induction false} BlankThenCovered(s: string, offset: nat, spans: seq<TokenSpan>)
    requires s != "" && IsWhitespace(s[0]) && Covers(s[1..], offset + 1, spans)
    ensures Covers(s, offset, spans)
  {
    hide IsWhitespace, AllBlank, PrintTok, Stands;
    if spans == [] {
      BlankFront(s);
    } else {
      BlankThenStands(s, offset, spans[0]);
    }
  }

  lemma {:induction false} TokenThenCovered(s: string, offset: nat, t: Tok, rest: seq<TokenSpan>)
    requires PrintTok(t) <= s && Covers(s[|PrintTok(t)|..], offset + |PrintTok(t)|, rest)
    ensures Covers(s, offset, [TokenSpan(t, offset)] + rest)
  {
    hide AllBlank, PrintTok, Stands;
    var spans := [TokenSpan(t, offset)] + rest;
    StandsFirst(s, offset, t);
    assert spans[1..] == rest;
  }

  lemma StandsFirst(s: string, offset: nat, t: Tok)
    requires PrintTok(t) <= s
    ensures Stands(s, offset, TokenSpan(t, offset))
  {
    hide PrintTok;
    assert s[..0] == "";
    assert s[0..|PrintTok(t)|] == PrintTok(t);
  }

  lemma EndCovered(offset: nat)
    ensures Covers("", offset, [])
  {
  }

  lemma {:induction false} SpansCoverSource(rule: NumberRule, s: string, prev: Option<Tok>, offset: nat)
    requires LexFrom(rule, s, prev, offset).Ok?
    ensures Covers(s, offset, LexFrom(rule, s, prev, offset).value)
    decreases |s|
  {
    hide LexOne, IsWhitespace, Covers, PrintTok, Apart;
    if s == "" {
      EndCovered(offset);
    } else if IsWhitespace(s[0]) {
      SpansCoverSource(rule, s[1..], prev, offset + 1);
      BlankThenCovered(s, offset, LexFrom(rule, s, prev, offset).value);
    } else {
      var step := LexOne(rule, s, prev);
      TookText(rule, s, prev);
      SpansCoverSource(rule, s[step.length..], Some(step.tok), offset + step.length);
      TokenThenCovered(s, offset, step.tok,
                       LexFrom(rule, s[step.length..], Some(step.tok), offset + step.length).value);
    }
  }

  // ----- the shortest source

  lemma {:induction false} Utf16Append(a: string, b: string)
    ensures Utf16Length(a + b) == Utf16Length(a) + Utf16Length(b)
  {
    if a == "" {
      assert a + b == b;
    } else {
      assert (a + b)[1..] == a[1..] + b;
      Utf16Append(a[1..], b);
    }
  }

  /** No source of the same tokens is shorter than the tight print: wherever that puts a space, a
      source without whitespace would have been read differently. */
  lemma {:induction false} TightIsShortest(rule: NumberRule, s: string, prev: Option<Tok>, offset: nat)
    requires LexFrom(rule, s, prev, offset).Ok?
    ensures Utf16Length(Print(Toks(LexFrom(rule, s, prev, offset).value), true)) <= Utf16Length(s)
    decreases |s|
  {
    hide LexOne, IsWhitespace, PrintTok, Apart, Print;
    if s == "" {
      EmptyPrint();
    } else if IsWhitespace(s[0]) {
      TightIsShortest(rule, s[1..], prev, offset + 1);
    } else {
      var step := LexOne(rule, s, prev);
      var rest := s[step.length..];
      TookText(rule, s, prev);
      assert s == PrintTok(step.tok) + rest;
      Utf16Append(PrintTok(step.tok), rest);
      var more := LexFrom(rule, rest, Some(step.tok), offset + step.length).value;
      MoreTokens(step.tok, offset, more);
      TightIsShortest(rule, rest, Some(step.tok), offset + step.length);
      if more != [] && IsWhitespace(rest[0]) {
        TightIsShortest(rule, rest[1..], Some(step.tok), offset + step.length + 1);
      } else if more != [] {
        NoGap(rule, step.tok, rest, offset + step.length);
      }
    }
  }

  lemma EmptyPrint()
    ensures Print(Toks([]), true) == ""
  {
  }

  /** The print of one more token in front. */
  lemma MoreTokens(t: Tok, offset: nat, more: seq<TokenSpan>)
    ensures var toks := Toks([TokenSpan(t, offset)] + more);
            && (more == [] ==> Utf16Length(Print(toks, true)) == Utf16Length(PrintTok(t)))
            && (more != [] ==>
                  Utf16Length(Print(toks, true))
                  == Utf16Length(PrintTok(t)) + |Gap(t, more[0].tok, true)| + Utf16Length(Print(Toks(more), true)))
    ensures more != [] ==> |Gap(t, more[0].tok, true)| <= 1
  {
    hide PrintTok, Absorbs;
    var spans := [TokenSpan(t, offset)] + more;
    assert spans[1..] == more;
    if more != [] {
      var gap, rest := Gap(t, more[0].tok, true), Print(Toks(more), true);
      assert Toks(spans)[1..] == Toks(more);
      Utf16Append(PrintTok(t) + gap, rest);
      Utf16Append(PrintTok(t), gap);
      SpaceUnits();
    }
  }

  lemma SpaceUnits()
    ensures Utf16Length("") == 0 && Utf16Length(" ") == 1
  {
  }

  /** Tokens that stand side by side in a source need no space. */
  lemma NoGap(rule: NumberRule, t: Tok, rest: string, offset: nat)
    requires rest != "" && !IsWhitespace(rest[0]) && Apart(t, rest)
    requires LexFrom(rule, rest, Some(t), offset).Ok? && LexFrom(rule, rest, Some(t), offset).value != []
    ensures Gap(t, LexFrom(rule, rest, Some(t), offset).value[0].tok, true) == ""
  {
    hide LexOne, IsWhitespace, PrintTok, Absorbs;
    var step := LexOne(rule, rest, Some(t));
    TookText(rule, rest, Some(t));
    assert rest[..step.length][0] == rest[0];
  }

  /** So the tight print of an accepted source is never too long, and always reads back. */
  lemma TightPrintReadsBack(rule: NumberRule, source: string)
    requires TokenizeSpec(rule, source).Ok?
    ensures var toks := Toks(TokenizeSpec(rule, source).value);
            TokenizeSpec(rule, Print(toks, true)).Ok? && Toks(TokenizeSpec(rule, Print(toks, true)).value) == toks
  {
    hide LexFrom, Utf16Length, Print;
    TightIsShortest(rule, source, None, 0);
    PrintedTokensReadBack(rule, source, true);
  }

  /** Exactly the sequences whose tokens may follow one another, and whose tight print is within
      the length limit, are the token streams of acceptable sources. */
  lemma TokenStreamsCharacterized(rule: NumberRule, toks: seq<Tok>)
    ensures Lexed(rule, None, toks) && Utf16Length(Print(toks, true)) <= MAX_EXPRESSION_LENGTH <==>
              exists source :: TokenizeSpec(rule, source).Ok? && Toks(TokenizeSpec(rule, source).value) == toks
  {
    hide LexFrom, Lexed, Utf16Length, Print;
    if Lexed(rule, None, toks) && Utf16Length(Print(toks, true)) <= MAX_EXPRESSION_LENGTH {
      PrintLexes(rule, None, toks, true, 0);
      assert TokenizeSpec(rule, Print(toks, true)).Ok?;
    }
    forall source | TokenizeSpec(rule, source).Ok? && Toks(TokenizeSpec(rule, source).value) == toks
      ensures Lexed(rule, None, toks) && Utf16Length(Print(toks, true)) <= MAX_EXPRESSION_LENGTH
    {
      AllFollow(rule, source, None, 0);
      TightIsShortest(rule, source, None, 0);
    }
  }
}
